/**
  The stored formats on small values, byte by byte (db/log_format.h, db/dbformat.h, db/version_edit.cc,
  db/write_batch.cc, table/format.h, table/block_builder.cc).
 */
module FormatExamples {
  import opened Wrappers
  import opened Coding
  import Schemes
  import LogFormat
  import TableFormat
  import BlockFormat
  import Comparator
  import EditCodec
  import B = WriteBatch

  lemma {:induction false} SmallNumbers()
    ensures Varint(1) == [1] && Varint(2) == [2] && Varint(5) == [5] && Varint(6) == [6] && Varint(7) == [7]
    ensures Varint(300) == [0xAC, 0x02]
  {}

  lemma {:induction false} FixedOf(v: nat)
    requires v < 256
    ensures Fixed(2, v) == [v as byte, 0] && Fixed(4, v) == [v as byte, 0, 0, 0]
  {
    assert Fixed(1, 0) == [0] && Fixed(2, 0) == [0, 0] && Fixed(3, 0) == [0, 0, 0];
    assert Fixed(1, v / 256) == [0] && Fixed(3, v / 256) == [0, 0, 0];
  }

  /** A log record: the checksum, the length with its low byte first, the type, the payload. */
  lemma {:induction false} LogRecord(scheme: Schemes.Scheme)
    ensures LogFormat.Encode(scheme, 1, [97, 98]) == scheme.sum(1, [97, 98]) + [2, 0, 1, 97, 98]
  {
    FixedOf(2);
  }

  /** A user key, the type, and seven bytes of sequence number. */
  lemma {:induction false} InternalKey()
    ensures Comparator.AppendInternalKey(Comparator.ParsedKey([97], 0x0203, 1)) == [97, 1, 3, 2, 0, 0, 0, 0, 0]
  {
    FixedOf(0);
    assert Fixed(8, 0x02_0301) == [1] + ([3] + ([2] + Fixed(5, 0)));
    assert Fixed(5, 0) == [0] + Fixed(4, 0);
  }

  /** Offset and size of a block. */
  lemma {:induction false} Handle()
    ensures TableFormat.EncodeHandle(TableFormat.Handle(300, 5)) == [0xAC, 0x02, 0x05]
  {
    SmallNumbers();
  }

  lemma {:induction false} MagicHalves()
    ensures Fixed(4, TableFormat.MAGIC % TWO32) == [0x57, 0xFB, 0x80, 0x8B]
    ensures Fixed(4, TableFormat.MAGIC / TWO32) == [0x24, 0x75, 0x47, 0xDB]
  {
    FixedFour(TableFormat.MAGIC % TWO32);
    FixedFour(TableFormat.MAGIC / TWO32);
  }

  /** The last eight bytes of every table. */
  lemma {:induction false} Magic(metaindex: TableFormat.Handle, index: TableFormat.Handle)
    ensures TableFormat.EncodeFooter(metaindex, index)[40..] == [0x57, 0xFB, 0x80, 0x8B, 0x24, 0x75, 0x47, 0xDB]
  {
    MagicHalves();
  }

  /** Both kinds of batch record. */
  lemma {:induction false} BatchRecords()
    ensures B.Encode(B.Put([97], [98, 99])) == [1, 1, 97, 2, 98, 99] && B.Encode(B.Delete([97])) == [0, 1, 97]
  {
    SmallNumbers();
  }

  /** A file deleted from level 1 and a log number. */
  lemma {:induction false} EditFields()
    ensures EditCodec.EncodeField(EditCodec.DeletedFile(1, 300)) == [6, 1, 0xAC, 0x02]
    ensures EditCodec.EncodeField(EditCodec.Number(EditCodec.LOG_NUMBER, 5)) == [2, 5]
  {
    SmallNumbers();
  }

  /** A block entry that shares one byte with the key before it. */
  lemma {:induction false} BlockEntry()
    ensures BlockFormat.EntryBytes(1, BlockFormat.Pair([97, 98], [7])) == [1, 1, 1, 98, 7]
  {
    SmallNumbers();
  }
}
