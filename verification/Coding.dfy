/**
 Fixed-width and variable-length integers and length-prefixed strings, read
 from a position of a byte string.
 */
module Coding {
  import opened Basics

  const TWO32: nat := 0x1_0000_0000
  const TWO64: nat := 0x1_0000_0000_0000_0000

  /** `b` stands in `s` from position `p` on. */
  ghost predicate At(s: Bytes, p: nat, b: Bytes) {
    p + |b| <= |s| && forall j :: 0 <= j < |b| ==> s[p + j] == b[j]
  }

  lemma AtAppend(s: Bytes, p: nat, a: Bytes, b: Bytes)
    ensures At(s, p, a + b) <==> At(s, p, a) && At(s, p + |a|, b)
  {
    if At(s, p, a + b) {
      forall j | 0 <= j < |a| ensures s[p + j] == a[j] {
        assert (a + b)[j] == a[j];
      }
      forall j | 0 <= j < |b| ensures s[p + |a| + j] == b[j] {
        assert (a + b)[|a| + j] == b[j];
      }
    }
    if At(s, p, a) && At(s, p + |a|, b) {
      forall j | 0 <= j < |a + b| ensures s[p + j] == (a + b)[j] {
        if j >= |a| {
          assert s[p + |a| + (j - |a|)] == b[j - |a|];
        }
      }
    }
  }

  lemma AtSlice(s: Bytes, p: nat, b: Bytes)
    requires At(s, p, b)
    ensures s[p..p + |b|] == b
  {
  }

  lemma AtSelf(s: Bytes, b: Bytes, t: Bytes)
    ensures At(s + b + t, |s|, b)
  {
  }

  // ---------------------------------------------------------------------
  // Fixed-width integers, little end first
  // ---------------------------------------------------------------------

  function Pow256(n: nat): nat {
    if n == 0 then 1 else 256 * Pow256(n - 1)
  }

  function EncodeFixed(v: nat, n: nat): (b: Bytes)
    ensures |b| == n
    decreases n, v
  {
    if n == 0 then [] else [v % 256] + EncodeFixed(v / 256, n - 1)
  }

  function DecodeFixed(s: Bytes, p: nat, n: nat): nat
    requires p + n <= |s|
    decreases n, p
  {
    if n == 0 then 0 else s[p] + 256 * DecodeFixed(s, p + 1, n - 1)
  }

  lemma {:induction false} FixedRoundTrip(s: Bytes, p: nat, v: nat, n: nat)
    requires v < Pow256(n) && At(s, p, EncodeFixed(v, n))
    ensures DecodeFixed(s, p, n) == v
    decreases n
  {
    if n > 0 {
      AtAppend(s, p, [v % 256], EncodeFixed(v / 256, n - 1));
      assert s[p + 0] == [v % 256][0];
      assert v / 256 < Pow256(n - 1);
      FixedRoundTrip(s, p + 1, v / 256, n - 1);
    }
  }

  type Four = b: Bytes | |b| == 4 witness [0, 0, 0, 0]

  lemma FixedWidths()
    ensures Pow256(4) == TWO32 && Pow256(8) == TWO64
  {
    assert Pow256(2) == 65536;
    assert Pow256(4) == 65536 * Pow256(2);
    assert Pow256(6) == 65536 * Pow256(4);
    assert Pow256(8) == 65536 * Pow256(6);
  }

  // ---------------------------------------------------------------------
  // Varints
  // ---------------------------------------------------------------------

  /** Seven bits a byte, low bits first, the top bit saying that more follow. */
  function Varint(v: nat): (b: Bytes)
    ensures |b| > 0
  {
    if v < 128 then [v] else [128 + v % 128] + Varint(v / 128)
  }

  /** `EncodeVarint64`, the loop. */
  method EncodeVarint64(v0: nat) returns (b: Bytes)
    requires v0 < TWO64
    ensures b == Varint(v0) && |b| <= 10
  {
    var v := v0;
    b := [];
    while v >= 128
      invariant b + Varint(v) == Varint(v0)
    {
      b := b + [128 + v % 128];
      v := v / 128;
    }
    b := b + [v];
    VarintSize(v0, 10);
  }

  /** `EncodeVarint32`, one branch for each length. */
  method EncodeVarint32(v: nat) returns (b: Bytes)
    requires v < TWO32
    ensures b == Varint(v) && |b| <= 5
  {
    var B := 128;
    if v < 0x80 {
      b := [v];
    } else if v < 0x4000 {
      b := [B + v % B, v / 0x80];
      TwoBytes(v);
    } else if v < 0x20_0000 {
      b := [B + v % B, B + v / 0x80 % B, v / 0x4000];
      ThreeBytes(v);
    } else if v < 0x1000_0000 {
      b := [B + v % B, B + v / 0x80 % B, B + v / 0x4000 % B, v / 0x20_0000];
      FourBytes(v);
    } else {
      b := [B + v % B, B + v / 0x80 % B, B + v / 0x4000 % B, B + v / 0x20_0000 % B, v / 0x1000_0000];
      FiveBytes(v);
    }
  }

  lemma TwoBytes(v: nat)
    requires 0x80 <= v < 0x4000
    ensures Varint(v) == [128 + v % 128, v / 0x80]
  {
  }

  lemma ThreeBytes(v: nat)
    requires 0x4000 <= v < 0x20_0000
    ensures Varint(v) == [128 + v % 128, 128 + v / 0x80 % 128, v / 0x4000]
  {
    TwoBytes(v / 128);
    assert v / 128 / 0x80 == v / 0x4000;
  }

  lemma FourBytes(v: nat)
    requires 0x20_0000 <= v < 0x1000_0000
    ensures Varint(v) == [128 + v % 128, 128 + v / 0x80 % 128, 128 + v / 0x4000 % 128, v / 0x20_0000]
  {
    ThreeBytes(v / 128);
    assert v / 128 / 0x80 == v / 0x4000 && v / 128 / 0x4000 == v / 0x20_0000;
  }

  lemma FiveBytes(v: nat)
    requires 0x1000_0000 <= v < TWO32
    ensures Varint(v) == [128 + v % 128, 128 + v / 0x80 % 128, 128 + v / 0x4000 % 128, 128 + v / 0x20_0000 % 128, v / 0x1000_0000]
  {
    FourBytes(v / 128);
    assert v / 128 / 0x80 == v / 0x4000 && v / 128 / 0x4000 == v / 0x20_0000 && v / 128 / 0x20_0000 == v / 0x1000_0000;
  }

  function Pow128(n: nat): nat {
    if n == 0 then 1 else 128 * Pow128(n - 1)
  }

  lemma {:induction false} VarintFits(v: nat, n: nat)
    requires v < Pow128(n) && n > 0
    ensures |Varint(v)| <= n
    decreases n
  {
    if v >= 128 {
      VarintFits(v / 128, n - 1);
    }
  }

  lemma VarintSize(v: nat, n: nat)
    requires (v < TWO32 && n == 5) || (v < TWO64 && n == 10)
    ensures |Varint(v)| <= n
  {
    assert Pow128(2) == 16384;
    assert Pow128(4) == 16384 * Pow128(2);
    assert Pow128(6) == 16384 * Pow128(4);
    assert Pow128(8) == 16384 * Pow128(6);
    assert Pow128(5) == 128 * Pow128(4);
    assert Pow128(10) == 16384 * Pow128(8);
    VarintFits(v, n);
  }

  /** The number spelled at `p` in at most `n` bytes, before any truncation, and where it ends. */
  function Spelled(s: Bytes, p: nat, n: nat): (r: Option<(nat, nat)>)
    ensures r.Some? ==> p < r.value.1 <= |s|
    decreases n, p
  {
    if n == 0 || p >= |s| then None
    else if s[p] < 128 then Some((s[p], p + 1))
    else
      var rest := Spelled(s, p + 1, n - 1);
      if rest.None? then None else Some((s[p] - 128 + 128 * rest.value.0, rest.value.1))
  }

  /** Word sizes: 32 bits, read from at most five bytes, or 64 bits from at most ten. */
  datatype Word = W32 | W64 {
    function Groups(): nat { if W32? then 5 else 10 }

    function Low(x: nat): (r: nat)
      ensures r < TWO64 && (W32? ==> r < TWO32)
    {
      if W32? then x % TWO32 else x % TWO64
    }
  }

  /** A decoded varint: what does not fit the word is lost. */
  function VarintAt(s: Bytes, p: nat, w: Word): (r: Option<(nat, nat)>)
    ensures r.Some? ==> p < r.value.1 <= |s| && r.value.0 < TWO64 && (w.W32? ==> r.value.0 < TWO32)
  {
    var r := Spelled(s, p, w.Groups());
    if r.None? then None else Some((w.Low(r.value.0), r.value.1))
  }

  lemma {:induction false} SpelledRoundTrip(s: Bytes, p: nat, v: nat, n: nat)
    requires At(s, p, Varint(v)) && |Varint(v)| <= n
    ensures Spelled(s, p, n) == Some((v, p + |Varint(v)|))
    decreases n
  {
    if v < 128 {
      assert s[p + 0] == Varint(v)[0];
    } else {
      AtAppend(s, p, [128 + v % 128], Varint(v / 128));
      assert s[p + 0] == [128 + v % 128][0];
      SpelledRoundTrip(s, p + 1, v / 128, n - 1);
    }
  }

  lemma Varint32RoundTrip(s: Bytes, p: nat, v: nat)
    requires v < TWO32 && At(s, p, Varint(v))
    ensures VarintAt(s, p, W32) == Some((v, p + |Varint(v)|))
  {
    VarintSize(v, 5);
    SpelledRoundTrip(s, p, v, 5);
  }

  lemma Varint64RoundTrip(s: Bytes, p: nat, v: nat)
    requires v < TWO64 && At(s, p, Varint(v))
    ensures VarintAt(s, p, W64) == Some((v, p + |Varint(v)|))
  {
    VarintSize(v, 10);
    SpelledRoundTrip(s, p, v, 10);
  }

  function Times(a: nat, b: nat): nat { a * b }

  lemma Scaled(scale: nat, b: nat, tail: nat)
    ensures Times(scale, b + 128 * tail) == Times(scale, b) + Times(scale * 128, tail)
  {
  }

  /** Dropping the overflow early or late makes no difference. */
  lemma Wraps(w: Word, acc: nat, whole: nat, add: nat)
    requires acc == w.Low(whole)
    ensures w.Low(acc + add) == w.Low(whole + add)
  {
  }

  /** What remains to be spelled, once its first byte is taken off. */
  lemma TakeGroup(s: Bytes, p: nat, n: nat, whole: nat, scale: nat)
    requires p < |s| && n > 0 && s[p] >= 128
    ensures Spelled(s, p, n).Some? <==> Spelled(s, p + 1, n - 1).Some?
    ensures Spelled(s, p, n).Some? ==>
              && Spelled(s, p, n).value.1 == Spelled(s, p + 1, n - 1).value.1
              && whole + Times(scale, Spelled(s, p, n).value.0)
                 == whole + Times(scale, s[p] - 128) + Times(scale * 128, Spelled(s, p + 1, n - 1).value.0)
  {
    if Spelled(s, p, n).Some? {
      Scaled(scale, s[p] - 128, Spelled(s, p + 1, n - 1).value.0);
    }
  }

  /** `GetVarint32Ptr` and `GetVarint64Ptr`: shift and accumulate, in word arithmetic. */
  method GetVarintPtr(s: Bytes, p0: nat, w: Word) returns (r: Option<(nat, nat)>)
    ensures r == VarintAt(s, p0, w)
  {
    var p: nat, acc: nat, scale: nat, n: nat := p0, 0, 1, w.Groups();
    ghost var whole: nat := 0;
    ghost var goal := Spelled(s, p0, n);
    while n > 0 && p < |s|
      invariant acc == w.Low(whole)
      invariant goal.Some? <==> Spelled(s, p, n).Some?
      invariant goal.Some? ==> goal.value == (whole + Times(scale, Spelled(s, p, n).value.0), Spelled(s, p, n).value.1)
      decreases n
    {
      var b: nat := s[p];
      if b < 128 {
        Wraps(w, acc, whole, Times(scale, b));
        return Some((w.Low(acc + Times(scale, b)), p + 1));
      }
      Wraps(w, acc, whole, Times(scale, b - 128));
      TakeGroup(s, p, n, whole, scale);
      acc := w.Low(acc + Times(scale, b - 128));
      whole := whole + Times(scale, b - 128);
      p, scale, n := p + 1, scale * 128, n - 1;
    }
    return None;
  }

  // ---------------------------------------------------------------------
  // Length-prefixed strings
  // ---------------------------------------------------------------------

  /** `PutLengthPrefixedSlice`: the length is written as a 32-bit number. */
  function LengthPrefixed(b: Bytes): Bytes
    requires |b| < TWO32
  {
    Varint(|b|) + b
  }

  function GetLengthPrefixed(s: Bytes, p: nat): (r: Option<(Bytes, nat)>)
    ensures r.Some? ==> p < r.value.1 <= |s|
  {
    var n := VarintAt(s, p, W32);
    if n.None? || n.value.0 > |s| - n.value.1 then None
    else Some((s[n.value.1..n.value.1 + n.value.0], n.value.1 + n.value.0))
  }

  lemma LengthPrefixedRoundTrip(s: Bytes, p: nat, b: Bytes)
    requires |b| < TWO32 && At(s, p, LengthPrefixed(b))
    ensures GetLengthPrefixed(s, p) == Some((b, p + |LengthPrefixed(b)|))
  {
    AtAppend(s, p, Varint(|b|), b);
    Varint32RoundTrip(s, p, |b|);
    AtSlice(s, p + |Varint(|b|)|, b);
  }

  // ---------------------------------------------------------------------
  // Pieces end to end
  // ---------------------------------------------------------------------

  /** The pieces from number `i` on, end to end. */
  function Concat(pieces: seq<Bytes>, i: nat): Bytes
    requires i <= |pieces|
    decreases |pieces| - i
  {
    if i == |pieces| then [] else pieces[i] + Concat(pieces, i + 1)
  }

  lemma {:induction false} ConcatShift(a: seq<Bytes>, b: seq<Bytes>, i: nat)
    requires i <= |b|
    ensures Concat(a + b, |a| + i) == Concat(b, i)
    decreases |b| - i
  {
    if i < |b| {
      ConcatShift(a, b, i + 1);
    }
  }

  lemma {:induction false} ConcatJoin(a: seq<Bytes>, b: seq<Bytes>, i: nat)
    requires i <= |a|
    ensures Concat(a + b, i) == Concat(a, i) + Concat(b, 0)
    decreases |a| - i
  {
    if i < |a| {
      ConcatJoin(a, b, i + 1);
    } else {
      ConcatShift(a, b, 0);
    }
  }

  /** The next piece, and what follows it. */
  lemma NextPiece(s: Bytes, p: nat, pieces: seq<Bytes>, i: nat)
    requires i < |pieces| && At(s, p, Concat(pieces, i))
    ensures At(s, p, pieces[i]) && At(s, p + |pieces[i]|, Concat(pieces, i + 1))
    ensures |Concat(pieces, i)| == |pieces[i]| + |Concat(pieces, i + 1)|
  {
    AtAppend(s, p, pieces[i], Concat(pieces, i + 1));
  }

  /** `b` is what is left of `rep` from `p` on. */
  ghost predicate EndsWith(rep: Bytes, p: nat, b: Bytes) {
    At(rep, p, b) && p + |b| == |rep|
  }
}
