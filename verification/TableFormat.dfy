/**
  The parts of a table file: blocks with a type byte and a checksum behind them, handles that say where
  they are, and the footer (table/format.cc, table/format.h).
 */
module TableFormat {
  import opened Wrappers
  import opened Coding
  import opened Schemes

  const TRAILER: nat := 5
  const NO_COMPRESSION: byte := 0
  const MAX_HANDLE: nat := 20
  const FOOTER: nat := 48
  const MAGIC: nat := 0xdb47_7524_8b80_fb57

  datatype Handle = Handle(offset: nat, size: nat)

  // ----- blocks -----

  /** An uncompressed block as it is appended to the file. */
  function Sealed(scheme: Scheme, contents: Bytes): (r: Bytes)
    ensures |r| == |contents| + TRAILER
  {
    contents + ([NO_COMPRESSION] + scheme.sum(NO_COMPRESSION, contents))
  }

  /** The contents of a stored block; nothing if it is cut off, fails its checksum or is of another type. */
  function ReadBlock(scheme: Scheme, file: Bytes, h: Handle): Option<Bytes> {
    if h.offset + h.size + TRAILER > |file| then
      None
    else
      var data := file[h.offset..h.offset + h.size + TRAILER];
      if !scheme.check(data[h.size + 1..], data[h.size], data[..h.size]) then None
      else if data[h.size] != NO_COMPRESSION then None
      else Some(data[..h.size])
  }

  /** The block of this handle has these contents, whatever was appended since. */
  ghost predicate Stores(scheme: Scheme, file: Bytes, h: Handle, contents: Bytes) {
    && h.size == |contents| && h.offset + h.size + TRAILER <= |file|
    && file[h.offset..h.offset + h.size + TRAILER] == Sealed(scheme, contents)
  }

  lemma {:induction false} StoresReads(scheme: Scheme, file: Bytes, h: Handle, contents: Bytes)
    requires Sound(scheme) && Stores(scheme, file, h, contents)
    ensures ReadBlock(scheme, file, h) == Some(contents)
  {
    var data := Sealed(scheme, contents);
    assert data[..h.size] == contents && data[h.size + 1..] == scheme.sum(NO_COMPRESSION, contents);
  }

  /** On any bytes: a block is read only if it lies in the file, uncompressed, and its stored sum checks. */
  lemma {:induction false} ReadsOnlyChecked(scheme: Scheme, file: Bytes, h: Handle)
    ensures ReadBlock(scheme, file, h).Some? <==>
            && h.offset + h.size + TRAILER <= |file| && file[h.offset + h.size] == NO_COMPRESSION
            && scheme.check(file[h.offset + h.size + 1..h.offset + h.size + TRAILER], NO_COMPRESSION,
                            file[h.offset..h.offset + h.size])
    ensures ReadBlock(scheme, file, h).Some? ==> ReadBlock(scheme, file, h).value == file[h.offset..h.offset + h.size]
  {
    if h.offset + h.size + TRAILER <= |file| {
      var data := file[h.offset..h.offset + h.size + TRAILER];
      assert data[h.size] == file[h.offset + h.size];
      assert data[..h.size] == file[h.offset..h.offset + h.size];
      assert data[h.size + 1..] == file[h.offset + h.size + 1..h.offset + h.size + TRAILER];
    }
  }

  /** With an exact check, a block is read exactly if the file holds it as the builder writes it. */
  lemma {:induction false} ReadsIffStored(scheme: Scheme, file: Bytes, h: Handle, contents: Bytes)
    requires Exact(scheme)
    ensures ReadBlock(scheme, file, h) == Some(contents) <==> Stores(scheme, file, h, contents)
  {
    ReadsOnlyChecked(scheme, file, h);
    var at, end := h.offset + h.size, h.offset + h.size + TRAILER;
    if end <= |file| {
      SplitSealed(file, h.offset, at, end);
      if |contents| == h.size {
        SealedParts(scheme, contents, file[h.offset..at], file[at], file[at + 1..end]);
      }
    }
  }

  lemma {:induction false} SplitSealed(file: Bytes, begin: nat, at: nat, end: nat)
    requires begin <= at < end <= |file|
    ensures file[begin..end] == file[begin..at] + ([file[at]] + file[at + 1..end])
  {}

  lemma {:induction false} SealedParts(scheme: Scheme, contents: Bytes, c: Bytes, kind: byte, sum: Bytes)
    requires |c| == |contents| && |sum| == 4
    ensures c + ([kind] + sum) == Sealed(scheme, contents) <==>
            c == contents && kind == NO_COMPRESSION && sum == scheme.sum(NO_COMPRESSION, contents)
  {
    var a, b := c + ([kind] + sum), Sealed(scheme, contents);
    assert a[..|c|] == c && a[|c|] == kind && a[|c| + 1..] == sum;
    assert b[..|c|] == contents && b[|c|] == NO_COMPRESSION && b[|c| + 1..] == scheme.sum(NO_COMPRESSION, contents);
  }

  lemma {:induction false} StoresStays(scheme: Scheme, file: Bytes, h: Handle, contents: Bytes, more: Bytes)
    requires Stores(scheme, file, h, contents)
    ensures Stores(scheme, file + more, h, contents)
  {
    assert (file + more)[h.offset..h.offset + h.size + TRAILER] == file[h.offset..h.offset + h.size + TRAILER];
  }

  lemma {:induction false} StoresAppended(scheme: Scheme, file: Bytes, contents: Bytes)
    ensures Stores(scheme, file + Sealed(scheme, contents), Handle(|file|, |contents|), contents)
  {
    var f := file + Sealed(scheme, contents);
    assert f[|file|..|file| + |contents| + TRAILER] == Sealed(scheme, contents);
  }

  // ----- handles -----

  function EncodeHandle(h: Handle): Bytes {
    Varint(h.offset) + Varint(h.size)
  }

  /** Reads a handle; what follows it in the input is left over. */
  function DecodeHandle(s: Bytes): Parsed<Handle> {
    match GetVarint64(s)
    case Bad => Bad
    case Parsed(offset, s1) =>
      match GetVarint64(s1)
      case Bad => Bad
      case Parsed(size, s2) => Parsed(Handle(offset, size), s2)
  }

  lemma {:induction false} HandleRoundTrip(h: Handle, rest: Bytes)
    requires h.offset < TWO64 && h.size < TWO64
    ensures DecodeHandle(EncodeHandle(h) + rest) == Parsed(h, rest)
  {
    assert EncodeHandle(h) + rest == Varint(h.offset) + (Varint(h.size) + rest);
    Varint64RoundTrip(h.offset, Varint(h.size) + rest);
    Varint64RoundTrip(h.size, rest);
  }

  lemma {:induction false} HandleLength(h: Handle)
    requires h.offset < TWO64 && h.size < TWO64
    ensures |EncodeHandle(h)| <= MAX_HANDLE
  {
    TenBytes(h.offset);
    TenBytes(h.size);
  }

  // ----- the footer -----

  /** Cuts to a length, or fills up with zeros. */
  function Resized(s: Bytes, n: nat): (r: Bytes)
    ensures |r| == n
  {
    if |s| >= n then s[..n] else s + seq(n - |s|, _ => 0)
  }

  /** The two handles, padded to a fixed length, and the magic number, low half first. */
  function EncodeFooter(metaindex: Handle, index: Handle): (r: Bytes)
    ensures |r| == FOOTER
  {
    Resized(EncodeHandle(metaindex) + EncodeHandle(index), 2 * MAX_HANDLE)
    + (Fixed(4, MAGIC % TWO32) + Fixed(4, MAGIC / TWO32))
  }

  function DecodeFooter(s: Bytes): Option<(Handle, Handle)>
    requires |s| == FOOTER
  {
    var lo, hi := Unfixed(s[FOOTER - 8..FOOTER - 4]), Unfixed(s[FOOTER - 4..]);
    if hi * TWO32 + lo != MAGIC then
      None
    else
      match DecodeHandle(s)
      case Bad => None
      case Parsed(metaindex, s1) =>
        match DecodeHandle(s1)
        case Bad => None
        case Parsed(index, _) => Some((metaindex, index))
  }

  lemma {:induction false} MagicReads(front: Bytes, s: Bytes)
    requires |front| == 2 * MAX_HANDLE && s == front + (Fixed(4, MAGIC % TWO32) + Fixed(4, MAGIC / TWO32))
    ensures Unfixed(s[FOOTER - 4..]) * TWO32 + Unfixed(s[FOOTER - 8..FOOTER - 4]) == MAGIC
  {
    assert s[FOOTER - 8..FOOTER - 4] == Fixed(4, MAGIC % TWO32) && s[FOOTER - 4..] == Fixed(4, MAGIC / TWO32);
    Fixed32RoundTrip(MAGIC % TWO32);
    Fixed32RoundTrip(MAGIC / TWO32);
  }

  lemma {:induction false} FooterRoundTrip(metaindex: Handle, index: Handle)
    requires metaindex.offset < TWO64 && metaindex.size < TWO64 && index.offset < TWO64 && index.size < TWO64
    ensures DecodeFooter(EncodeFooter(metaindex, index)) == Some((metaindex, index))
  {
    HandleLength(metaindex);
    HandleLength(index);
    var handles := EncodeHandle(metaindex) + EncodeHandle(index);
    var s := EncodeFooter(metaindex, index);
    var front := Resized(handles, 2 * MAX_HANDLE);
    MagicReads(front, s);
    var rest := s[|handles|..];
    assert s == EncodeHandle(metaindex) + (EncodeHandle(index) + rest);
    HandleRoundTrip(metaindex, EncodeHandle(index) + rest);
    HandleRoundTrip(index, rest);
  }
}
