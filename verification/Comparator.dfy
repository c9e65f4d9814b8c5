/**
 The bytewise comparator and the order of encoded internal keys, with the
 separators an sstable index uses.
 */
module Comparator {
  import opened Basics
  import opened Coding
  import DbFormat

  // ---------------------------------------------------------------------
  // Lexicographic order, and its embedding into the reals
  // ---------------------------------------------------------------------

  predicate Before(a: Bytes, b: Bytes) {
    b != [] && (a == [] || a[0] < b[0] || (a[0] == b[0] && Before(a[1..], b[1..])))
  }

  /** The byte string as a fraction in base 257, a missing byte counting as zero. */
  function Rank(b: Bytes): (r: real)
    ensures 0.0 <= r < 1.0
  {
    if b == [] then 0.0 else (b[0] as real + 1.0 + Rank(b[1..])) / 257.0
  }

  /** Byte strings compare as their ranks. */
  lemma {:induction false} RankPreservesOrder(a: Bytes, b: Bytes)
    ensures Before(a, b) <==> Rank(a) < Rank(b)
    ensures Rank(a) == Rank(b) ==> a == b
  {
    if a != [] && b != [] {
      RankPreservesOrder(a[1..], b[1..]);
      if a[0] == b[0] && a[1..] == b[1..] {
        assert a == [a[0]] + a[1..] && b == [b[0]] + b[1..];
      }
    }
  }

  /** Two strings with a common prefix compare as what follows it. */
  lemma {:induction false} CommonPrefix(a: Bytes, b: Bytes, n: nat)
    requires n <= |a| && n <= |b| && a[..n] == b[..n]
    ensures Before(a, b) <==> Before(a[n..], b[n..])
    decreases n
  {
    if n > 0 {
      assert a[0] == a[..n][0] == b[..n][0] == b[0];
      assert a[1..][..n - 1] == a[..n][1..] == b[..n][1..] == b[1..][..n - 1];
      CommonPrefix(a[1..], b[1..], n - 1);
      assert a[1..][n - 1..] == a[n..] && b[1..][n - 1..] == b[n..];
    }
  }

  /** A byte raised, and the rest cut off: larger than before. */
  lemma Raised(a: Bytes, i: nat, c: byte)
    requires i < |a| && a[i] < c
    ensures Before(a, a[..i] + [c])
  {
    var r := a[..i] + [c];
    assert r[..i] == a[..i] && r[i..] == [c];
    CommonPrefix(a, r, i);
  }

  /** A string in [start, limit), no longer than `start`; unchanged unless start lies before limit. */
  method FindShortestSeparator(start: Bytes, limit: Bytes) returns (r: Bytes)
    ensures |r| <= |start| && (r == start || Before(start, r))
    ensures Before(start, limit) ==> Before(r, limit)
    ensures !Before(start, limit) ==> r == start
  {
    var minLength := if |start| < |limit| then |start| else |limit|;
    var i := 0;
    while i < minLength && start[i] == limit[i]
      invariant i <= minLength && start[..i] == limit[..i]
    {
      i := i + 1;
    }
    r := start;
    CommonPrefix(start, limit, i);
    if i < minLength {
      var c := start[i];
      if c < 0xff && c + 1 < limit[i] {
        r := start[..i] + [c + 1];
        Raised(start, i, c + 1);
        assert r[..i] == limit[..i] && r[i..] == [c + 1];
        CommonPrefix(r, limit, i);
      }
    }
  }

  /** A string at or after the key, no longer; unchanged if the key is all 0xff. */
  method FindShortSuccessor(key: Bytes) returns (r: Bytes)
    ensures |r| <= |key| && (r == key || Before(key, r))
    ensures r == key ==> forall i :: 0 <= i < |key| ==> key[i] == 0xff
  {
    for i := 0 to |key|
      invariant forall j :: 0 <= j < i ==> key[j] == 0xff
    {
      if key[i] != 0xff {
        r := key[..i] + [key[i] + 1];
        Raised(key, i, key[i] + 1);
        assert r[i] != key[i];
        return;
      }
    }
    return key;
  }

  // ---------------------------------------------------------------------
  // Encoded internal keys
  // ---------------------------------------------------------------------

  /** `PackSequenceAndType`. */
  function Pack(sequence: nat, kind: DbFormat.ValueType): nat {
    sequence * 256 + if kind.Value? then 1 else 0
  }

  function EncodeKey(user: Bytes, sequence: nat, kind: DbFormat.ValueType): (k: Bytes)
    ensures |k| == |user| + 8
  {
    user + EncodeFixed(Pack(sequence, kind), 8)
  }

  function UserPart(k: Bytes): Bytes
    requires |k| >= 8
  {
    k[..|k| - 8]
  }

  function TagPart(k: Bytes): nat
    requires |k| >= 8
  {
    DecodeFixed(k, |k| - 8, 8)
  }

  /** `InternalKeyComparator::Compare` less than zero. */
  predicate KeyBefore(a: Bytes, b: Bytes)
    requires |a| >= 8 && |b| >= 8
  {
    Before(UserPart(a), UserPart(b)) || (UserPart(a) == UserPart(b) && TagPart(a) > TagPart(b))
  }

  /** `ParseInternalKey`. */
  function ParseKey(k: Bytes): Option<(Bytes, nat, DbFormat.ValueType)> {
    if |k| < 8 || TagPart(k) % 256 > 1 then None
    else Some((UserPart(k), TagPart(k) / 256, if TagPart(k) % 256 == 1 then DbFormat.Value else DbFormat.Deletion))
  }

  lemma PartsOf(user: Bytes, sequence: nat, kind: DbFormat.ValueType)
    requires sequence <= DbFormat.MAX_SEQUENCE
    ensures var k := EncodeKey(user, sequence, kind); UserPart(k) == user && TagPart(k) == Pack(sequence, kind)
  {
    var k, tag := EncodeKey(user, sequence, kind), EncodeFixed(Pack(sequence, kind), 8);
    assert k[|user|..|user| + |tag|] == tag;
    FixedWidths();
    FixedRoundTrip(k, |user|, Pack(sequence, kind), 8);
  }

  lemma ParseEncoded(user: Bytes, sequence: nat, kind: DbFormat.ValueType)
    requires sequence <= DbFormat.MAX_SEQUENCE
    ensures ParseKey(EncodeKey(user, sequence, kind)) == Some((user, sequence, kind))
  {
    PartsOf(user, sequence, kind);
  }

  /** The abstract key an encoded one stands for. */
  function Abstract(user: Bytes, sequence: nat, kind: DbFormat.ValueType): DbFormat.InternalKey {
    DbFormat.InternalKey(Rank(user), sequence, kind)
  }

  lemma PackOrder(s: nat, k: DbFormat.ValueType, s': nat, k': DbFormat.ValueType)
    ensures Pack(s, k) > Pack(s', k') <==> s > s' || (s == s' && k.Value? && k'.Deletion?)
  {
  }

  /** Encoded keys compare as the abstract keys the rest of the model uses. */
  lemma EncodedOrder(u: Bytes, s: nat, k: DbFormat.ValueType, u': Bytes, s': nat, k': DbFormat.ValueType)
    requires s <= DbFormat.MAX_SEQUENCE && s' <= DbFormat.MAX_SEQUENCE
    ensures KeyBefore(EncodeKey(u, s, k), EncodeKey(u', s', k')) <==> DbFormat.Less(Abstract(u, s, k), Abstract(u', s', k'))
  {
    PartsOf(u, s, k);
    PartsOf(u', s', k');
    RankPreservesOrder(u, u');
    PackOrder(s, k, s', k');
  }

  // ---------------------------------------------------------------------
  // Index keys
  // ---------------------------------------------------------------------

  /** At or after `start`, before `limit`; a new key has a user key strictly between theirs (`Table.IsSeparator`). */
  method FindShortestKeySeparator(start: Bytes, limit: Bytes) returns (r: Bytes)
    requires |start| >= 8 && |limit| >= 8
    ensures |r| >= 8 && (r == start || KeyBefore(start, r))
    ensures KeyBefore(start, limit) ==> KeyBefore(r, limit)
    ensures r == start || (Before(UserPart(start), UserPart(r)) && Before(UserPart(r), UserPart(limit)))
  {
    var userStart, userLimit := UserPart(start), UserPart(limit);
    var tmp := FindShortestSeparator(userStart, userLimit);
    r := start;
    if |tmp| < |userStart| && Before(userStart, tmp) {
      PartsOf(tmp, DbFormat.MAX_SEQUENCE, DbFormat.Value);
      NotBeforeItself(userStart);
      r := EncodeKey(tmp, DbFormat.MAX_SEQUENCE, DbFormat.Value);
    }
  }

  method FindShortKeySuccessor(key: Bytes) returns (r: Bytes)
    requires |key| >= 8
    ensures |r| >= 8 && (r == key || (KeyBefore(key, r) && Before(UserPart(key), UserPart(r))))
  {
    var user := UserPart(key);
    var tmp := FindShortSuccessor(user);
    r := key;
    if |tmp| < |user| && Before(user, tmp) {
      PartsOf(tmp, DbFormat.MAX_SEQUENCE, DbFormat.Value);
      r := EncodeKey(tmp, DbFormat.MAX_SEQUENCE, DbFormat.Value);
    }
  }

  lemma NotBeforeItself(a: Bytes)
    ensures !Before(a, a)
  {
    RankPreservesOrder(a, a);
  }
}
