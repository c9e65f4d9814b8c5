/**
 The Protocol Buffers wire format of a message: what nanopb writes, and how
 one value is read back.
 */
module PbWire {
  import opened Basics
  import opened Coding
  import opened PbTypes

  /** `pb_wire_type_t`. */
  function WireType(k: Kind): (w: nat)
    ensures w < 8
  {
    match k
    case Fixed64 => 1
    case Fixed32 => 5
    case Blob(_) => 2
    case Text(_) => 2
    case Sub(_) => 2
    case _ => 0
  }

  function TagBytes(tag: nat, wt: nat): Bytes {
    Varint(tag * 8 + wt)
  }

  // ---------------------------------------------------------------------
  // What is written
  // ---------------------------------------------------------------------

  function ZigZagOf(n: int): nat {
    if n < 0 then -2 * n - 1 else 2 * n
  }

  /** The unsigned number a scalar is sent as: negative numbers take all 64 bits. */
  function WordOf(k: Kind, n: int): (w: nat)
    ensures w < TWO64
  {
    if k.ZigZag? then ZigZagOf(n) % TWO64 else n % TWO64
  }

  function Delimited(b: Bytes): Bytes {
    Varint(|b|) + b
  }

  function FixedSize(k: Kind): nat {
    if k.Fixed32? then 4 else 8
  }

  function WordBytes(k: Kind, x: nat): (b: Bytes)
    ensures b != []
  {
    if k.Fixed32? || k.Fixed64? then EncodeFixed(x, FixedSize(k)) else Varint(x)
  }

  function ScalarBytes(k: Kind, v: Value): (b: Bytes)
    requires !k.Sub?
    ensures Packable(k) ==> b != []
  {
    if Packable(k) then WordBytes(k, if v.Num? then WordOf(k, v.n) else 0)
    else if v.Raw? then Delimited(v.b)
    else []
  }

  function ValueBytes(k: Kind, v: Value): Bytes
    decreases k, 4
  {
    if k.Sub? then Delimited(Body(k, v)) else ScalarBytes(k, v)
  }

  /** A message: its fields in the order of the descriptor. */
  function Body(k: Kind, v: Value): Bytes
    requires k.Sub?
    decreases k, 3
  {
    if v.Msg? && |v.slots| == |k.fields| then FieldsFrom(k, v.slots, 0) else []
  }

  function FieldsFrom(k: Kind, slots: seq<seq<Value>>, i: nat): Bytes
    requires k.Sub? && |slots| == |k.fields| && i <= |slots|
    decreases k, 2, |slots| - i
  {
    if i == |slots| then [] else FieldBytes(k, i, slots[i]) + FieldsFrom(k, slots, i + 1)
  }

  /** A singular field is left out when it holds its zero value. */
  predicate Omitted(k: Kind, i: nat, items: seq<Value>)
    requires k.Sub? && i < |k.fields|
  {
    items == [] || (k.fields[i].rule.Singular? && IsZero(k.fields[i].kind, items[0]))
  }

  predicate Packed(f: Field) {
    f.rule.Repeated? && Packable(f.kind)
  }

  function FieldBytes(k: Kind, i: nat, items: seq<Value>): Bytes
    requires k.Sub? && i < |k.fields|
    decreases k, 1
  {
    var f := k.fields[i];
    if Omitted(k, i, items) then []
    else if Packed(f) then TagBytes(f.tag, 2) + Delimited(Payload(f.kind, items, 0))
    else Records(k, i, items, 0)
  }

  /** A packed array's values, without tags. */
  function Payload(k: Kind, items: seq<Value>, j: nat): Bytes
    requires !k.Sub? && j <= |items|
    decreases |items| - j
  {
    if j == |items| then [] else ScalarBytes(k, items[j]) + Payload(k, items, j + 1)
  }

  /** Values each with its tag. */
  function Records(k: Kind, i: nat, items: seq<Value>, j: nat): Bytes
    requires k.Sub? && i < |k.fields| && j <= |items|
    decreases k, 0, |items| - j
  {
    if j == |items| then [] else Record(k, i, items[j]) + Records(k, i, items, j + 1)
  }

  function Record(k: Kind, i: nat, v: Value): Bytes
    requires k.Sub? && i < |k.fields|
    decreases k, 0, 0
  {
    TagBytes(k.fields[i].tag, WireType(k.fields[i].kind)) + ValueBytes(k.fields[i].kind, v)
  }

  // ---------------------------------------------------------------------
  // Reading 32-bit varints
  // ---------------------------------------------------------------------

  /**
   `pb_decode_varint32`, from the `g`-th byte with `acc` read so far: five
   bytes carry the value, and further ones may only extend its sign.  The bit
   position is `7 * g`; where `uint_fast8_t` has eight bits it wraps past 255,
   so the two agree on varints of up to 37 bytes, and an encoder writes ten at
   most.
   */
  function Word32From(s: Bytes, p: nat, g: nat, acc: nat): (r: Option<(nat, nat)>)
    requires acc < TWO32
    ensures r.Some? ==> p < r.value.1 <= |s| && r.value.0 < TWO32
    decreases |s| - p
  {
    if p >= |s| then None
    else if g >= 5 && s[p] % 128 != 0 && (acc < 0x8000_0000 || s[p] != (if g < 9 then 255 else 1)) then None
    else
      var acc' := if g >= 5 then acc else (acc + s[p] % 128 * Pow128(g)) % TWO32;
      if s[p] >= 128 then Word32From(s, p + 1, g + 1, acc')
      else if g == 4 && s[p] >= 16 then None
      else Some((acc', p + 1))
  }

  function Word32(s: Bytes, p: nat): (r: Option<(nat, nat)>)
    ensures r.Some? ==> p < r.value.1 <= |s| && r.value.0 < TWO32
  {
    Word32From(s, p, 0, 0)
  }

  lemma Shift(v: nat, g: nat, acc: nat)
    requires acc + v * Pow128(g) < TWO32 && (v > 0 || g == 0)
    ensures g <= 4 && (g == 4 ==> v < 16)
    ensures acc + v * Pow128(g) == acc + v % 128 * Pow128(g) + v / 128 * Pow128(g + 1)
  {
    var q, r := v / 128, v % 128;
    Distribute(q, r, Pow128(g));
    if g >= 4 {
      Growth(g);
      AtLeast(v, Pow128(g));
    }
  }

  lemma Distribute(q: nat, r: nat, x: nat)
    ensures (128 * q + r) * x == r * x + q * (128 * x)
  {
  }

  lemma AtLeast(v: nat, x: nat)
    requires v > 0
    ensures v * x >= x && (v >= 16 ==> v * x >= 16 * x)
  {
    if v >= 16 {
      assert v * x == 16 * x + (v - 16) * x;
    }
    assert v * x == x + (v - 1) * x;
  }

  lemma {:induction false} Growth(g: nat)
    requires g >= 4
    ensures Pow128(4) == 0x1000_0000 && Pow128(g) >= 0x1000_0000 && (g > 4 ==> Pow128(g) > TWO32)
  {
    assert Pow128(2) == 16384;
    assert Pow128(4) == 16384 * Pow128(2);
    if g > 4 {
      Growth(g - 1);
    }
  }

  /** `whole` is `acc` with `v` still to be added from the `g`-th group on. */
  ghost predicate Adds(acc: nat, g: nat, v: nat, whole: nat) {
    whole == acc + v * Pow128(g) && whole < TWO32 && (v > 0 || g == 0)
  }

  lemma LastGroup(s: Bytes, p: nat, g: nat, acc: nat, v: nat, whole: nat)
    requires p < |s| && s[p] == v < 128 && Adds(acc, g, v, whole)
    ensures Word32From(s, p, g, acc) == Some((whole, p + 1))
  {
    Shift(v, g, acc);
  }

  lemma OneGroup(s: Bytes, p: nat, g: nat, acc: nat, low: nat, next: nat)
    requires p < |s| && s[p] == 128 + low && g <= 4 && next == acc + low * Pow128(g) < TWO32
    ensures Word32From(s, p, g, acc) == Word32From(s, p + 1, g + 1, next)
  {
    assert s[p] % 128 == low && next % TWO32 == next;
  }

  lemma AddGroup(acc: nat, g: nat, v: nat, whole: nat) returns (next: nat)
    requires v >= 128 && Adds(acc, g, v, whole)
    ensures Adds(next, g + 1, v / 128, whole) && next <= whole
    ensures g <= 4 && next == acc + v % 128 * Pow128(g)
  {
    Shift(v, g, acc);
    next := acc + v % 128 * Pow128(g);
  }

  lemma MoreGroups(s: Bytes, p: nat, g: nat, acc: nat, v: nat, whole: nat) returns (next: nat)
    requires p < |s| && v >= 128 && s[p] == 128 + v % 128 && Adds(acc, g, v, whole)
    ensures Adds(next, g + 1, v / 128, whole) && next < TWO32
    ensures Word32From(s, p, g, acc) == Word32From(s, p + 1, g + 1, next)
  {
    next := AddGroup(acc, g, v, whole);
    OneGroup(s, p, g, acc, v % 128, next);
  }

  lemma {:induction false} Word32FromReads(s: Bytes, p: nat, g: nat, acc: nat, v: nat, whole: nat)
    requires Adds(acc, g, v, whole) && At(s, p, Varint(v))
    ensures acc < TWO32 && Word32From(s, p, g, acc) == Some((whole, p + |Varint(v)|))
    decreases v
  {
    VarintHead(s, p, v);
    if v < 128 {
      LastGroup(s, p, g, acc, v, whole);
    } else {
      var next := MoreGroups(s, p, g, acc, v, whole);
      Word32FromReads(s, p + 1, g + 1, next, v / 128, whole);
    }
  }

  lemma VarintHead(s: Bytes, p: nat, v: nat)
    requires At(s, p, Varint(v))
    ensures p < |s|
    ensures v < 128 ==> s[p] == v && |Varint(v)| == 1
    ensures v >= 128 ==> s[p] == 128 + v % 128 && At(s, p + 1, Varint(v / 128)) && |Varint(v)| == 1 + |Varint(v / 128)|
  {
    assert s[p + 0] == Varint(v)[0];
    if v >= 128 {
      AtAppend(s, p, [128 + v % 128], Varint(v / 128));
    }
  }

  lemma Word32Reads(s: Bytes, p: nat, v: nat)
    requires v < TWO32 && At(s, p, Varint(v))
    ensures Word32(s, p) == Some((v, p + |Varint(v)|))
  {
    Word32FromReads(s, p, 0, 0, v, v);
  }

  // ---------------------------------------------------------------------
  // Reading scalars
  // ---------------------------------------------------------------------

  /** The low `width` bits as a two's complement number. */
  function AsSigned(x: nat, width: nat): int {
    var low: int := x % Top(width);
    if 2 * low < Top(width) then low else low - Top(width)
  }

  function UnZigZag(x: nat): int {
    if x % 2 == 1 then -(x / 2) - 1 else x / 2
  }

  /** `pb_dec_varint` and its relatives: the casts, and the check that nothing was lost. */
  function FromWord(k: Kind, x: nat): Option<Value>
    requires Packable(k)
  {
    match k
    case UInt(w) => if x < Top(w) then Some(Num(x)) else None
    case SInt(w) =>
      var n := if w == 64 then AsSigned(x, 64) else AsSigned(x, 32);
      if Signed(n, w) then Some(Num(n)) else None
    case ZigZag(w) => if Signed(UnZigZag(x), w) then Some(Num(UnZigZag(x))) else None
    case _ => Some(Num(x))
  }

  function Counted(s: Bytes, p: nat): (r: Option<(Bytes, nat)>)
    ensures r.Some? ==> p < r.value.1 <= |s|
  {
    var n := Word32(s, p);
    if n.None? || n.value.0 > |s| - n.value.1 then None
    else Some((s[n.value.1..n.value.1 + n.value.0], n.value.1 + n.value.0))
  }

  function ReadFixed(s: Bytes, p: nat, n: nat): (r: Option<(Value, nat)>)
    ensures r.Some? ==> p + n == r.value.1 <= |s|
  {
    if p + n > |s| then None else Some((Num(DecodeFixed(s, p, n)), p + n))
  }

  function ReadBool(s: Bytes, p: nat): (r: Option<(Value, nat)>)
    ensures r.Some? ==> p < r.value.1 <= |s|
  {
    var x := Word32(s, p);
    if x.None? then None else Some((Num(if x.value.0 != 0 then 1 else 0), x.value.1))
  }

  function ReadVarint(k: Kind, s: Bytes, p: nat): (r: Option<(Value, nat)>)
    requires Packable(k)
    ensures r.Some? ==> p < r.value.1 <= |s|
  {
    var x := VarintAt(s, p, W64);
    if x.None? then None
    else
      var v := FromWord(k, x.value.0);
      if v.None? then None else Some((v.value, x.value.1))
  }

  function ReadBytes(s: Bytes, p: nat, max: int): (r: Option<(Value, nat)>)
    ensures r.Some? ==> p < r.value.1 <= |s|
  {
    var b := Counted(s, p);
    if b.None? || |b.value.0| > max then None else Some((Raw(b.value.0), b.value.1))
  }

  /** One value that is not a message; a string also needs room for its terminator. */
  function ReadScalar(k: Kind, s: Bytes, p: nat): (r: Option<(Value, nat)>)
    requires !k.Sub?
    ensures r.Some? ==> p < r.value.1 <= |s|
  {
    if k.Bool? then ReadBool(s, p)
    else if k.Fixed32? || k.Fixed64? then ReadFixed(s, p, FixedSize(k))
    else if k.Blob? then ReadBytes(s, p, k.max)
    else if k.Text? then ReadBytes(s, p, k.size - 1)
    else ReadVarint(k, s, p)
  }

  lemma SignedWord(n: int, top: int)
    requires top > 0 && -top <= 2 * n < top
    ensures n % top == if n < 0 then n + top else n
  {
    if n < 0 {
      assert n == -1 * top + (n + top);
    }
  }

  lemma NestedModulus(n: int)
    ensures n % TWO64 % TWO32 == n % TWO32
  {
    assert n == n / TWO64 * TWO64 + n % TWO64;
    assert n / TWO64 * TWO64 == (n / TWO64 * TWO32) * TWO32;
  }

  lemma SignedRoundTrip(w: nat, n: int)
    requires w == 32 || w == 64
    requires Signed(n, w)
    ensures AsSigned(n % TWO64, w) == n
  {
    NestedModulus(n);
    SignedWord(n, Top(w));
  }

  lemma ZigZagRoundTrip(n: int)
    requires Signed(n, 64)
    ensures 0 <= ZigZagOf(n) < TWO64 && UnZigZag(ZigZagOf(n)) == n
  {
  }

  lemma Widen(n: int, w: nat)
    requires IsWidth(w) && Signed(n, w)
    ensures Signed(n, 64) && (w != 64 ==> Signed(n, 32))
  {
  }

  lemma SignedFrom(w: nat, n: int)
    requires IsWidth(w) && Signed(n, w)
    ensures FromWord(SInt(w), n % TWO64) == Some(Num(n))
  {
    Widen(n, w);
    SignedRoundTrip(if w == 64 then 64 else 32, n);
  }

  lemma ZigZagFrom(w: nat, n: int)
    requires IsWidth(w) && Signed(n, w)
    ensures 0 <= ZigZagOf(n) < TWO64 && FromWord(ZigZag(w), ZigZagOf(n)) == Some(Num(n))
  {
    Widen(n, w);
    ZigZagRoundTrip(n);
  }

  /** Casting to 64 bits, sending, and casting back. */
  lemma WordRoundTrip(k: Kind, v: Value)
    requires WellFormed(k) && (k.UInt? || k.SInt? || k.ZigZag?) && Typed(k, v, false)
    ensures FromWord(k, WordOf(k, v.n)) == Some(v)
  {
    if k.SInt? {
      SignedFrom(k.width, v.n);
    } else if k.ZigZag? {
      ZigZagFrom(k.width, v.n);
    } else {
      PlainWord(k, v);
    }
  }

  lemma PlainWord(k: Kind, v: Value)
    requires (k.Bool? || k.UInt? || k.Fixed32? || k.Fixed64?) && Typed(k, v, false)
    ensures WordOf(k, v.n) == v.n
  {
  }

  lemma CountedReads(s: Bytes, p: nat, b: Bytes)
    requires |b| < TWO32 && At(s, p, Delimited(b))
    ensures Counted(s, p) == Some((b, p + |Delimited(b)|))
  {
    AtAppend(s, p, Varint(|b|), b);
    Word32Reads(s, p, |b|);
    AtSlice(s, p + |Varint(|b|)|, b);
  }

  lemma FixedReads(k: Kind, x: nat, s: Bytes, p: nat)
    requires (k.Fixed32? && x < TWO32) || (k.Fixed64? && x < TWO64)
    requires At(s, p, WordBytes(k, x))
    ensures ReadFixed(s, p, FixedSize(k)) == Some((Num(x), p + |WordBytes(k, x)|))
  {
    FixedWidths();
    FixedRoundTrip(s, p, x, FixedSize(k));
  }

  lemma BytesRead(s: Bytes, p: nat, b: Bytes, max: int)
    requires |Delimited(b)| < TWO32 && At(s, p, Delimited(b))
    ensures ReadBytes(s, p, max) == if |b| <= max then Some((Raw(b), p + |Delimited(b)|)) else None
  {
    CountedReads(s, p, b);
  }

  lemma VarintReads(k: Kind, v: Value, s: Bytes, p: nat)
    requires WellFormed(k) && (k.UInt? || k.SInt? || k.ZigZag?) && Typed(k, v, false)
    requires At(s, p, Varint(WordOf(k, v.n)))
    ensures ReadVarint(k, s, p) == Some((v, p + |Varint(WordOf(k, v.n))|))
  {
    Varint64RoundTrip(s, p, WordOf(k, v.n));
    WordRoundTrip(k, v);
  }

  lemma BoolReads(v: nat, s: Bytes, p: nat)
    requires v <= 1 && At(s, p, Varint(v))
    ensures ReadBool(s, p) == Some((Num(v), p + |Varint(v)|))
  {
    Word32Reads(s, p, v);
  }

  lemma NumberReads(k: Kind, v: Value, s: Bytes, p: nat)
    requires WellFormed(k) && Packable(k) && Typed(k, v, false)
    requires At(s, p, ScalarBytes(k, v))
    ensures ReadScalar(k, s, p) == Some((v, p + |ScalarBytes(k, v)|))
  {
    if k.Bool? {
      PlainWord(k, v);
      BoolReads(v.n, s, p);
    } else if k.Fixed32? || k.Fixed64? {
      PlainWord(k, v);
      FixedReads(k, v.n, s, p);
    } else {
      VarintReads(k, v, s, p);
    }
  }

  /**
   A scalar the encoder accepts is read back exactly when the receiver's
   array has room for it.
   */
  lemma ScalarReads(k: Kind, v: Value, s: Bytes, p: nat)
    requires WellFormed(k) && !k.Sub? && Typed(k, v, true) && |ScalarBytes(k, v)| < TWO32
    requires At(s, p, ScalarBytes(k, v))
    ensures ReadScalar(k, s, p) == if HasRoom(k, v) then Some((v, p + |ScalarBytes(k, v)|)) else None
  {
    if Packable(k) {
      NumberReads(k, v, s, p);
    } else {
      BytesRead(s, p, v.b, if k.Blob? then k.max else k.size - 1);
    }
  }

  /** A string that fills its array is sent, and then refused by its own descriptor. */
  lemma FullStringIsRefused()
    ensures Typed(Text(1), Raw([65]), true) && ReadScalar(Text(1), ScalarBytes(Text(1), Raw([65])), 0) == None
  {
    ScalarReads(Text(1), Raw([65]), ScalarBytes(Text(1), Raw([65])), 0);
  }

  // ---------------------------------------------------------------------
  // Skipping
  // ---------------------------------------------------------------------

  function SkipVarint(s: Bytes, p: nat): (r: Option<nat>)
    ensures r.Some? ==> p < r.value <= |s|
    decreases |s| - p
  {
    if p >= |s| then None else if s[p] >= 128 then SkipVarint(s, p + 1) else Some(p + 1)
  }

  /** `pb_skip_field`. */
  function SkipField(s: Bytes, p: nat, wt: nat): (r: Option<nat>)
    ensures r.Some? ==> p < r.value <= |s|
  {
    if wt == 0 then SkipVarint(s, p)
    else if wt == 1 || wt == 5 then
      var n := if wt == 1 then 8 else 4;
      if p + n > |s| then None else Some(p + n)
    else if wt == 2 then
      var b := Counted(s, p);
      if b.None? then None else Some(b.value.1)
    else None
  }

  lemma {:induction false} SkipVarintEnds(s: Bytes, p: nat, v: nat)
    requires At(s, p, Varint(v))
    ensures SkipVarint(s, p) == Some(p + |Varint(v)|)
    decreases v
  {
    assert s[p + 0] == Varint(v)[0];
    if v >= 128 {
      AtAppend(s, p, [128 + v % 128], Varint(v / 128));
      SkipVarintEnds(s, p + 1, v / 128);
    }
  }

  /** A value of any type, known to the receiver or not, is skipped exactly. */
  lemma SkipsValue(k: Kind, v: Value, s: Bytes, p: nat)
    requires Typed(k, v, false) && |ValueBytes(k, v)| < TWO32 && At(s, p, ValueBytes(k, v))
    ensures SkipField(s, p, WireType(k)) == Some(p + |ValueBytes(k, v)|)
  {
    match k
    case Fixed32 =>
    case Fixed64 =>
    case Blob(_) => CountedReads(s, p, v.b);
    case Text(_) => CountedReads(s, p, v.b);
    case Sub(_) => CountedReads(s, p, Body(k, v));
    case _ => SkipVarintEnds(s, p, WordOf(k, v.n));
  }

  lemma TagReads(s: Bytes, p: nat, tag: nat, wt: nat)
    requires 0 < tag < 0x2000_0000 && wt < 8 && At(s, p, TagBytes(tag, wt))
    ensures Word32(s, p) == Some((tag * 8 + wt, p + |TagBytes(tag, wt)|))
    ensures (tag * 8 + wt) / 8 == tag && (tag * 8 + wt) % 8 == wt
  {
    Word32Reads(s, p, tag * 8 + wt);
  }
}
