/** The Bloom filter policy: double hashing over a bit array, never missing a key that was added. */
module Bloom {
  import opened Basics
  import opened Coding
  import FilterBlock

  // ---------------------------------------------------------------------
  // Bits of a byte
  // ---------------------------------------------------------------------

  predicate BitOf(b: nat, i: nat)
    decreases i
  {
    if i == 0 then b % 2 == 1 else BitOf(b / 2, i - 1)
  }

  function SetBit(b: nat, i: nat): nat
    decreases i
  {
    if i == 0 then b - b % 2 + 1 else SetBit(b / 2, i - 1) * 2 + b % 2
  }

  lemma {:induction false} SetBitIs(b: nat, i: nat, j: nat)
    ensures BitOf(SetBit(b, i), j) <==> i == j || BitOf(b, j)
    decreases i
  {
    if i > 0 && j > 0 {
      SetBitIs(b / 2, i - 1, j - 1);
    }
  }

  lemma {:induction false} SetBitFits(b: nat, i: nat, n: nat)
    requires i < n && b < Pow2(n)
    ensures SetBit(b, i) < Pow2(n)
    decreases i
  {
    if i > 0 {
      SetBitFits(b / 2, i - 1, n - 1);
    } else if n > 1 {
      assert Pow2(n) == 2 * Pow2(n - 1);
    }
  }

  lemma SetBitByte(b: byte, i: nat)
    requires i < 8
    ensures SetBit(b, i) < 256
  {
    assert Pow2(4) == 16;
    assert Pow2(8) == 16 * Pow2(4);
    SetBitFits(b, i, 8);
  }

  // ---------------------------------------------------------------------
  // Probes
  // ---------------------------------------------------------------------

  /** The hash of a key, rotated right by seventeen bits. */
  function Delta(h: nat): nat {
    h / 0x2_0000 + h % 0x2_0000 * 0x8000
  }

  /** The hash after `j` steps, in 32 bits. */
  function Stepped(h: nat, j: nat): nat {
    if j == 0 then h else (Stepped(h, j - 1) + Delta(h)) % TWO32
  }

  predicate BitSet(filter: Bytes, pos: nat)
    requires pos / 8 < |filter|
  {
    BitOf(filter[pos / 8], pos % 8)
  }

  /** Probe `j` of a hash finds its bit set. */
  predicate Hit(filter: Bytes, bits: nat, h: nat, j: nat)
    requires 0 < bits <= 8 * |filter|
  {
    BitSet(filter, Stepped(h, j) % bits)
  }

  predicate AllHit(filter: Bytes, bits: nat, h: nat, k: nat)
    requires 0 < bits <= 8 * |filter|
  {
    forall j :: 0 <= j < k ==> Hit(filter, bits, h, j)
  }

  /** What a filter says about a key: too short means no, an unknown encoding means perhaps. */
  predicate Matches<K>(hash: K -> nat, key: K, filter: Bytes) {
    |filter| >= 2 &&
    var k := filter[|filter| - 1];
    k > 30 || AllHit(filter, (|filter| - 1) * 8, hash(key), k)
  }

  method KeyMayMatch<K>(hash: K -> nat, key: K, filter: Bytes) returns (r: bool)
    ensures r <==> Matches(hash, key, filter)
  {
    var len := |filter|;
    if len < 2 {
      return false;
    }
    var bits := (len - 1) * 8;
    var k: nat := filter[len - 1];
    if k > 30 {
      return true;
    }
    var h0: nat := hash(key);
    var h, delta := h0, Delta(h0);
    for j := 0 to k
      invariant h == Stepped(h0, j)
      invariant forall i :: 0 <= i < j ==> Hit(filter, bits, h0, i)
    {
      var pos := h % bits;
      if !BitOf(filter[pos / 8], pos % 8) {
        assert !Hit(filter, bits, h0, j);
        return false;
      }
      h := (h + delta) % TWO32;
    }
    return true;
  }

  // ---------------------------------------------------------------------
  // Building
  // ---------------------------------------------------------------------

  function FilterBytes(n: nat, bitsPerKey: nat): (b: nat)
    ensures b >= 8
  {
    ((if n * bitsPerKey < 64 then 64 else n * bitsPerKey) + 7) / 8
  }

  /** Bits once set stay set. */
  ghost predicate Grows(a: Bytes, b: Bytes) {
    |a| == |b| && forall i, t :: 0 <= i < |a| && 0 <= t < 8 && BitOf(a[i], t) ==> BitOf(b[i], t)
  }

  lemma GrowsHit(a: Bytes, b: Bytes, bits: nat, h: nat, j: nat)
    requires Grows(a, b) && 0 < bits <= 8 * |a| && Hit(a, bits, h, j)
    ensures Hit(b, bits, h, j)
  {
  }

  lemma OneBit(a: Bytes, pos: nat)
    requires pos / 8 < |a|
    ensures SetBit(a[pos / 8], pos % 8) < 256
    ensures Grows(a, a[pos / 8 := SetBit(a[pos / 8], pos % 8)]) && BitSet(a[pos / 8 := SetBit(a[pos / 8], pos % 8)], pos)
  {
    SetBitByte(a[pos / 8], pos % 8);
    forall t ensures BitOf(SetBit(a[pos / 8], pos % 8), t) <==> pos % 8 == t || BitOf(a[pos / 8], t) {
      SetBitIs(a[pos / 8], pos % 8, t);
    }
  }

  function SetPos(a: Bytes, pos: nat): (b: Bytes)
    requires pos / 8 < |a|
    ensures |b| == |a|
  {
    SetBitByte(a[pos / 8], pos % 8);
    a[pos / 8 := SetBit(a[pos / 8], pos % 8)]
  }

  /** The bit array with the bits of the first `j` probes of a hash set. */
  function Probed(a: Bytes, h: nat, j: nat): (b: Bytes)
    requires |a| > 0
    ensures |b| == |a|
    decreases j
  {
    if j == 0 then a else SetPos(Probed(a, h, j - 1), Stepped(h, j - 1) % (8 * |a|))
  }

  /** The bit array with every probe of the first `n` keys set. */
  function Filled<K>(hash: K -> nat, keys: seq<K>, n: nat, bytes: nat, k: nat): (a: Bytes)
    requires n <= |keys| && bytes > 0
    ensures |a| == bytes
  {
    if n == 0 then Zeros(bytes) else Probed(Filled(hash, keys, n - 1, bytes, k), hash(keys[n - 1]), k)
  }

  /** The whole filter: the bit array, then the number of probes. */
  function FilterFor<K>(hash: K -> nat, keys: seq<K>, bitsPerKey: nat, k: byte): Bytes {
    Filled(hash, keys, |keys|, FilterBytes(|keys|, bitsPerKey), k) + [k]
  }

  lemma GrowsTwice(a: Bytes, b: Bytes, c: Bytes)
    requires Grows(a, b) && Grows(b, c)
    ensures Grows(a, c)
  {
  }

  lemma {:induction false} ProbedHits(a: Bytes, h: nat, j: nat)
    requires |a| > 0
    ensures Grows(a, Probed(a, h, j)) && AllHit(Probed(a, h, j), 8 * |a|, h, j)
    decreases j
  {
    if j > 0 {
      var before, bits := Probed(a, h, j - 1), 8 * |a|;
      var pos := Stepped(h, j - 1) % bits;
      ProbedHits(a, h, j - 1);
      OneBit(before, pos);
      GrowsTwice(a, before, Probed(a, h, j));
      forall i | 0 <= i < j ensures Hit(Probed(a, h, j), bits, h, i) {
        if i < j - 1 {
          GrowsHit(before, Probed(a, h, j), bits, h, i);
        }
      }
    }
  }

  lemma {:induction false} FilledHits<K>(hash: K -> nat, keys: seq<K>, n: nat, bytes: nat, k: nat, i: nat)
    requires i < n <= |keys| && bytes > 0
    ensures AllHit(Filled(hash, keys, n, bytes, k), 8 * bytes, hash(keys[i]), k)
  {
    var before := Filled(hash, keys, n - 1, bytes, k);
    ProbedHits(before, hash(keys[n - 1]), k);
    if i < n - 1 {
      FilledHits(hash, keys, n - 1, bytes, k, i);
      AllHitGrows(before, Filled(hash, keys, n, bytes, k), 8 * bytes, hash(keys[i]), k);
    }
  }

  /** A filter matches every key it was made for. */
  lemma FilterMatches<K>(hash: K -> nat, keys: seq<K>, bitsPerKey: nat, k: byte, i: nat)
    requires i < |keys|
    ensures Matches(hash, keys[i], FilterFor(hash, keys, bitsPerKey, k))
  {
    var bytes := FilterBytes(|keys|, bitsPerKey);
    FilledHits(hash, keys, |keys|, bytes, k, i);
    HitWithTrailer(Filled(hash, keys, |keys|, bytes, k), k, hash(keys[i]));
  }

  /** The Bloom filter as the filter policy of a table. */
  function BloomPolicy<K(!new)>(hash: K -> nat, bitsPerKey: nat, k: byte): FilterBlock.Policy<K> {
    FilterBlock.Policy((keys: seq<K>) => FilterFor(hash, keys, bitsPerKey, k), (key: K, filter: Bytes) => Matches(hash, key, filter))
  }

  lemma BloomNeverMisses<K(!new)>(hash: K -> nat, bitsPerKey: nat, k: byte)
    ensures FilterBlock.NoFalseNegatives(BloomPolicy(hash, bitsPerKey, k))
  {
    var policy := BloomPolicy(hash, bitsPerKey, k);
    forall keys: seq<K>, i | 0 <= i < |keys| ensures policy.mayMatch(keys[i], policy.create(keys)) {
      FilterMatches(hash, keys, bitsPerKey, k, i);
    }
  }

  /** The inner loop of `CreateFilter`, in place. */
  method AddHash(filter: array<byte>, h0: nat, k: nat)
    requires filter.Length > 0
    modifies filter
    ensures filter[..] == Probed(old(filter[..]), h0, k)
  {
    var bits := filter.Length * 8;
    var h, delta := h0, Delta(h0);
    for j := 0 to k
      invariant h == Stepped(h0, j) && filter[..] == Probed(old(filter[..]), h0, j)
    {
      var pos := h % bits;
      ghost var before := filter[..];
      SetBitByte(before[pos / 8], pos % 8);
      filter[pos / 8] := SetBit(filter[pos / 8], pos % 8);
      assert filter[..] == SetPos(before, pos);
      h := (h + delta) % TWO32;
    }
  }

  lemma AllHitGrows(a: Bytes, b: Bytes, bits: nat, h: nat, k: nat)
    requires Grows(a, b) && 0 < bits <= 8 * |a| && AllHit(a, bits, h, k)
    ensures AllHit(b, bits, h, k)
  {
    forall j | 0 <= j < k ensures Hit(b, bits, h, j) {
      GrowsHit(a, b, bits, h, j);
    }
  }

  lemma HitWithTrailer(a: Bytes, k: byte, h: nat)
    requires |a| > 0 && AllHit(a, 8 * |a|, h, k)
    ensures AllHit(a + [k], 8 * |a|, h, k)
  {
    forall j | 0 <= j < k ensures Hit(a + [k], 8 * |a|, h, j) {
      assert Hit(a, 8 * |a|, h, j);
    }
  }

  /** Appends the filter of the keys, which matches every one of them; `k` probes are its last byte. */
  method CreateFilter<K>(hash: K -> nat, keys: seq<K>, bitsPerKey: nat, k: byte, dst: Bytes) returns (r: Bytes)
    requires 1 <= k <= 30
    ensures r == dst + FilterFor(hash, keys, bitsPerKey, k)
    ensures forall i :: 0 <= i < |keys| ==> Matches(hash, keys[i], r[|dst|..])
  {
    hide Matches, Probed, SetPos, AllHit, Hit;
    var bytes := FilterBytes(|keys|, bitsPerKey);
    var filter := new byte[bytes](_ => 0);
    assert filter[..] == Zeros(bytes);
    for i := 0 to |keys|
      invariant filter[..] == Filled(hash, keys, i, bytes, k)
    {
      AddHash(filter, hash(keys[i]), k);
    }
    r := dst + (filter[..] + [k]);
    assert r[|dst|..] == FilterFor(hash, keys, bitsPerKey, k);
    forall i | 0 <= i < |keys| ensures Matches(hash, keys[i], r[|dst|..]) {
      FilterMatches(hash, keys, bitsPerKey, k, i);
    }
  }
}
