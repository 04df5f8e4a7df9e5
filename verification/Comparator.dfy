/**
  Bytewise order, internal keys as byte strings, and the short keys that separate blocks
  (util/comparator.cc, db/dbformat.cc, db/dbformat.h).
 */
module Comparator {
  import opened Wrappers
  import opened Coding

  // ----- bytewise order -----

  /** Lexicographic order; a proper prefix comes first. */
  predicate BytesLess(a: Bytes, b: Bytes) {
    b != [] && (a == [] || a[0] < b[0] || (a[0] == b[0] && BytesLess(a[1..], b[1..])))
  }

  lemma {:induction false} BytesIrreflexive(a: Bytes)
    ensures !BytesLess(a, a)
  {
    if a != [] {
      BytesIrreflexive(a[1..]);
    }
  }

  lemma {:induction false} BytesTransitive(a: Bytes, b: Bytes, c: Bytes)
    requires BytesLess(a, b) && BytesLess(b, c)
    ensures BytesLess(a, c)
  {
    if a != [] && a[0] == b[0] == c[0] {
      BytesTransitive(a[1..], b[1..], c[1..]);
    }
  }

  lemma {:induction false} BytesTotal(a: Bytes, b: Bytes)
    ensures BytesLess(a, b) || a == b || BytesLess(b, a)
  {
    if a != [] && b != [] && a[0] == b[0] {
      BytesTotal(a[1..], b[1..]);
      assert a == [a[0]] + a[1..] && b == [b[0]] + b[1..];
    }
  }

  /** The first byte that differs decides. */
  lemma {:induction false} DecidedAt(a: Bytes, b: Bytes, d: nat)
    requires d < |a| && d < |b| && a[..d] == b[..d] && a[d] < b[d]
    ensures BytesLess(a, b)
  {
    if d > 0 {
      assert a[0] == a[..d][0] == b[..d][0] == b[0];
      assert a[1..][..d - 1] == a[..d][1..] && b[1..][..d - 1] == b[..d][1..];
      DecidedAt(a[1..], b[1..], d - 1);
    }
  }

  /** The strings differ first at `d`, with room for a byte in between. */
  ghost predicate HasRoom(start: Bytes, limit: Bytes, d: nat) {
    d < |start| && d < |limit| && start[..d] == limit[..d] && start[d] < 0xff
    && start[d] as nat + 1 < limit[d] as nat
  }

  /** The front of a string up to `d`, with the byte there one higher. */
  function Raised(s: Bytes, d: nat): Bytes
    requires d < |s| && s[d] < 0xff
  {
    s[..d] + [s[d] + 1]
  }

  /** The first byte that can go higher. */
  ghost predicate FirstLow(key: Bytes, d: nat) {
    d < |key| && key[d] < 0xff && forall i :: 0 <= i < d ==> key[i] == 0xff
  }

  /** Shortens `start` to a string still before `limit`, if the first differing byte leaves room for one. */
  method FindShortestSeparator(start: Bytes, limit: Bytes) returns (r: Bytes)
    ensures r == start || (BytesLess(start, r) && BytesLess(r, limit) && |r| <= |start|)
    ensures forall d :: HasRoom(start, limit, d) ==> r == Raised(start, d)
    ensures (forall d :: !HasRoom(start, limit, d)) ==> r == start
  {
    var minLength := if |start| < |limit| then |start| else |limit|;
    var diff := 0;
    while diff < minLength && start[diff] == limit[diff]
      invariant diff <= minLength && start[..diff] == limit[..diff]
    {
      diff := diff + 1;
    }
    r := start;
    if diff < minLength && start[diff] < 0xff && (start[diff] as nat) + 1 < limit[diff] as nat {
      r := start[diff := start[diff] + 1];
      r := r[..diff + 1];
      assert r[..diff] == start[..diff] && r[diff] == start[diff] + 1;
      DecidedAt(start, r, diff);
      DecidedAt(r, limit, diff);
      assert r == Raised(start, diff) && HasRoom(start, limit, diff);
    }
    forall d | HasRoom(start, limit, d)
      ensures d == diff && diff < minLength
    {
      FirstDifference(start, limit, d, diff, minLength);
    }
  }

  lemma {:induction false} FirstDifference(a: Bytes, b: Bytes, d: nat, e: nat, n: nat)
    requires d < |a| && d < |b| && a[..d] == b[..d] && a[d] != b[d]
    requires e <= n <= |a| && n <= |b| && (n == |a| || n == |b|) && a[..e] == b[..e] && (e < n ==> a[e] != b[e])
    ensures d == e && e < n
  {
    if d < e {
      SameAt(a, b, e, d);
    }
    if e < d {
      SameAt(a, b, d, e);
    }
  }

  /** Shortens `key` to a string that is not before it; a run of 0xff bytes stays as it is. */
  method FindShortSuccessor(key: Bytes) returns (r: Bytes)
    ensures r == key || (BytesLess(key, r) && |r| <= |key|)
    ensures forall d :: FirstLow(key, d) ==> r == Raised(key, d)
    ensures (forall d :: !FirstLow(key, d)) ==> r == key
  {
    for i := 0 to |key|
      invariant forall j :: 0 <= j < i ==> key[j] == 0xff
    {
      if key[i] != 0xff {
        r := key[i := key[i] + 1];
        r := r[..i + 1];
        assert r[..i] == key[..i] && r[i] == key[i] + 1;
        DecidedAt(key, r, i);
        assert FirstLow(key, i) && r == Raised(key, i);
        return;
      }
    }
    r := key;
  }

  // ----- internal keys as bytes -----

  const MAX_SEQUENCE: nat := 0xFF_FFFF_FFFF_FFFF
  const VALUE_TYPE_FOR_SEEK: nat := 1

  datatype ParsedKey = ParsedKey(user: Bytes, sequence: nat, kind: nat)

  function PackSequenceAndType(sequence: nat, kind: nat): nat {
    sequence * 256 + kind
  }

  function AppendInternalKey(k: ParsedKey): (r: Bytes)
    ensures |r| == |k.user| + 8
  {
    k.user + Fixed(8, PackSequenceAndType(k.sequence, k.kind))
  }

  function ExtractUserKey(k: Bytes): Bytes
    requires |k| >= 8
  {
    k[..|k| - 8]
  }

  function TagOf(k: Bytes): nat
    requires |k| >= 8
  {
    Unfixed(k[|k| - 8..])
  }

  /** Fails on a key without a trailer and on an unknown type. */
  function ParseInternalKey(k: Bytes): Option<ParsedKey> {
    if |k| < 8 || TagOf(k) % 256 > 1 then None else Some(ParsedKey(ExtractUserKey(k), TagOf(k) / 256, TagOf(k) % 256))
  }

  lemma {:induction false} Appended(user: Bytes, tag: nat)
    requires tag < TWO64
    ensures ExtractUserKey(user + Fixed(8, tag)) == user && TagOf(user + Fixed(8, tag)) == tag
  {
    var k := user + Fixed(8, tag);
    assert k[|k| - 8..] == Fixed(8, tag);
    Fixed64RoundTrip(tag);
  }

  lemma {:induction false} Unpacks(sequence: nat, kind: nat)
    requires sequence <= MAX_SEQUENCE && kind <= 1
    ensures var tag := PackSequenceAndType(sequence, kind); tag < TWO64 && tag % 256 == kind && tag / 256 == sequence
  {}

  lemma {:induction false} ParsedBack(k: ParsedKey)
    requires k.sequence <= MAX_SEQUENCE && k.kind <= 1
    ensures ParseInternalKey(AppendInternalKey(k)) == Some(k)
  {
    var tag := PackSequenceAndType(k.sequence, k.kind);
    Unpacks(k.sequence, k.kind);
    ParsedTag(k.user, tag);
  }

  lemma {:induction false} ParsedTag(user: Bytes, tag: nat)
    requires tag < TWO64 && tag % 256 <= 1
    ensures ParseInternalKey(user + Fixed(8, tag)) == Some(ParsedKey(user, tag / 256, tag % 256))
  {
    Appended(user, tag);
  }

  /** Ascending user key, then descending trailer. */
  predicate InternalLess(a: Bytes, b: Bytes) {
    |a| >= 8 && |b| >= 8
    && (BytesLess(ExtractUserKey(a), ExtractUserKey(b))
        || (ExtractUserKey(a) == ExtractUserKey(b) && TagOf(a) > TagOf(b)))
  }

  lemma {:induction false} InternalTransitive(a: Bytes, b: Bytes, c: Bytes)
    requires InternalLess(a, b) && InternalLess(b, c)
    ensures InternalLess(a, c)
  {
    if BytesLess(ExtractUserKey(a), ExtractUserKey(b)) && BytesLess(ExtractUserKey(b), ExtractUserKey(c)) {
      BytesTransitive(ExtractUserKey(a), ExtractUserKey(b), ExtractUserKey(c));
    }
  }

  /** `sep` is a boundary between blocks ending at `last` and starting at `next`, by user key if it is not `last`. */
  ghost predicate Separates(sep: Bytes, last: Bytes, next: Bytes) {
    && |sep| >= 8 && |last| >= 8 && |next| >= 8
    && (sep == last || (InternalLess(last, sep) && BytesLess(ExtractUserKey(sep), ExtractUserKey(next))))
  }

  /** A user key with the trailer that comes first. */
  function Earliest(user: Bytes): Bytes {
    user + Fixed(8, PackSequenceAndType(MAX_SEQUENCE, VALUE_TYPE_FOR_SEEK))
  }

  /** Shortened in its user key, if that gets any shorter. */
  method FindShortestInternalSeparator(start: Bytes, limit: Bytes) returns (r: Bytes)
    requires |start| >= 8 && |limit| >= 8
    ensures Separates(r, start, limit) && |r| <= |start|
    ensures var a, b := ExtractUserKey(start), ExtractUserKey(limit);
            forall d: nat :: HasRoom(a, b, d) ==> r == if d + 1 < |a| then Earliest(Raised(a, d)) else start
    ensures (forall d :: !HasRoom(ExtractUserKey(start), ExtractUserKey(limit), d)) ==> r == start
  {
    var userStart := ExtractUserKey(start);
    var tmp := FindShortestSeparator(userStart, ExtractUserKey(limit));
    r := start;
    if |tmp| < |userStart| && BytesLess(userStart, tmp) {
      Appended(tmp, PackSequenceAndType(MAX_SEQUENCE, VALUE_TYPE_FOR_SEEK));
      r := tmp + Fixed(8, PackSequenceAndType(MAX_SEQUENCE, VALUE_TYPE_FOR_SEEK));
    }
    forall d: nat | HasRoom(userStart, ExtractUserKey(limit), d)
      ensures r == if d + 1 < |userStart| then Earliest(Raised(userStart, d)) else start
    {
      assert tmp == Raised(userStart, d);
    }
    BytesIrreflexive(userStart);
  }

  /** Shortened in its user key, if that gets any shorter. */
  method FindShortInternalSuccessor(key: Bytes) returns (r: Bytes)
    requires |key| >= 8
    ensures |r| >= 8 && (r == key || InternalLess(key, r)) && |r| <= |key|
    ensures var a := ExtractUserKey(key);
            forall d: nat :: FirstLow(a, d) ==> r == if d + 1 < |a| then Earliest(Raised(a, d)) else key
    ensures (forall d :: !FirstLow(ExtractUserKey(key), d)) ==> r == key
  {
    var userKey := ExtractUserKey(key);
    var tmp := FindShortSuccessor(userKey);
    r := key;
    if |tmp| < |userKey| && BytesLess(userKey, tmp) {
      Appended(tmp, PackSequenceAndType(MAX_SEQUENCE, VALUE_TYPE_FOR_SEEK));
      r := tmp + Fixed(8, PackSequenceAndType(MAX_SEQUENCE, VALUE_TYPE_FOR_SEEK));
    }
    forall d: nat | FirstLow(userKey, d)
      ensures r == if d + 1 < |userKey| then Earliest(Raised(userKey, d)) else key
    {
      assert tmp == Raised(userKey, d);
    }
    BytesIrreflexive(userKey);
  }
}
