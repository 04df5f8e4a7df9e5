/**
  How stored checksums are made and checked: over a type byte and contents, in the log with the type
  first and in tables with the type last (db/log_writer.cc, table/table_builder.cc, table/format.cc).
 */
module Schemes {
  import opened Wrappers
  import Crc32c

  /** How a type and contents are summed up, and how a reader checks the sum. */
  datatype Scheme = Scheme(sum: (byte, Bytes) -> Word4, check: (Word4, byte, Bytes) -> bool)

  /** A reader accepts what the writer stored. */
  ghost predicate Sound(scheme: Scheme) {
    forall kind, contents :: scheme.check(scheme.sum(kind, contents), kind, contents)
  }

  /** And nothing else. */
  ghost predicate Exact(scheme: Scheme) {
    forall s, kind, contents :: scheme.check(s, kind, contents) <==> s == scheme.sum(kind, contents)
  }

  /** Log readers check the masked CRC32C, unless they were told not to check. */
  const LOG: Scheme := Scheme(Crc32c.Checksum, Crc32c.Matches)
  const LOG_UNCHECKED: Scheme := Scheme(Crc32c.Checksum, (_, _, _) => true)

  function TableSum(kind: byte, contents: Bytes): Word4 {
    Crc32c.Stored(Crc32c.Mask(Crc32c.Extended(Crc32c.Value(contents), [kind])))
  }

  function TableMatches(stored: Word4, kind: byte, contents: Bytes): bool {
    Crc32c.Unmask(Crc32c.FromStored(stored)) == Crc32c.Value(contents + [kind])
  }

  const TABLE: Scheme := Scheme(TableSum, TableMatches)
  const TABLE_UNCHECKED: Scheme := Scheme(TableSum, (_, _, _) => true)

  lemma {:induction false} LogSchemesAreSound()
    ensures Sound(LOG) && Sound(LOG_UNCHECKED)
  {
    forall kind, contents
      ensures LOG.check(LOG.sum(kind, contents), kind, contents)
    {
      Crc32c.ChecksumMatches(kind, contents);
    }
  }

  lemma {:induction false} TableSumMatches(kind: byte, contents: Bytes)
    ensures TableMatches(TableSum(kind, contents), kind, contents)
  {
    var crc := Crc32c.Extended(Crc32c.Value(contents), [kind]);
    Crc32c.StoredRoundTrip(Crc32c.Mask(crc));
    Crc32c.UnmaskMask(crc);
    Crc32c.ExtendedConcat(0, contents, [kind]);
  }

  lemma {:induction false} TableSchemesAreSound()
    ensures Sound(TABLE) && Sound(TABLE_UNCHECKED)
  {
    forall kind, contents
      ensures TABLE.check(TABLE.sum(kind, contents), kind, contents)
    {
      TableSumMatches(kind, contents);
    }
  }
}
