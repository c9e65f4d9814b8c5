/**
 The checksum of log records and table blocks, a byte at a time (section 12.1
 of RFC 3720), and the rotation under which it is stored.
 */
module Crc32c {
  import opened Basics
  import opened Coding

  type Word32 = x: nat | x < TWO32

  const WORD_BITS: nat := 32
  const BYTE_BITS: nat := 8

  const POLYNOMIAL: Word32 := 0x82f6_3b78

  /** Exclusive or of the low `n` bits. */
  function XorBits(a: nat, b: nat, n: nat): (r: nat)
    ensures r < Pow2(n)
    decreases n
  {
    if n == 0 then 0 else (a + b) % 2 + 2 * XorBits(a / 2, b / 2, n - 1)
  }

  function Xor(a: Word32, b: Word32): Word32 {
    Pow2Of32();
    XorBits(a, b, WORD_BITS)
  }

  lemma Pow2Of32()
    ensures Pow2(32) == TWO32
  {
    assert Pow2(8) == 256;
    assert Pow2(16) == 256 * Pow2(8);
    assert Pow2(24) == 256 * Pow2(16);
    assert Pow2(32) == 256 * Pow2(24);
  }

  function ShiftBits(x: Word32, n: nat): Word32
    decreases n
  {
    if n == 0 then x
    else if x % 2 == 1 then ShiftBits(Xor(x / 2, POLYNOMIAL), n - 1)
    else ShiftBits(x / 2, n - 1)
  }

  function Shift(x: Word32, data: Bytes): Word32 {
    if data == [] then x
    else
      var b: nat := data[|data| - 1];
      ShiftBits(Xor(Shift(x, data[..|data| - 1]), b), BYTE_BITS)
  }

  /** The checksum is kept complemented before and after. */
  function Flip(x: Word32): Word32 { 0xffff_ffff - x }

  function Extend(crc: Word32, data: Bytes): Word32 {
    Flip(Shift(Flip(crc), data))
  }

  function Value(data: Bytes): Word32 {
    Extend(0, data)
  }

  lemma {:induction false} ShiftConcat(x: Word32, a: Bytes, b: Bytes)
    ensures Shift(x, a + b) == Shift(Shift(x, a), b)
  {
    if b == [] {
      assert a + b == a;
    } else {
      assert (a + b)[..|a + b| - 1] == a + b[..|b| - 1];
      ShiftConcat(x, a, b[..|b| - 1]);
    }
  }

  /** The checksum of a concatenation extends the checksum of its first part. */
  lemma ExtendConcat(crc: Word32, a: Bytes, b: Bytes)
    ensures Extend(crc, a + b) == Extend(Extend(crc, a), b)
  {
    hide Shift;
    ShiftConcat(Flip(crc), a, b);
  }

  const MASK_DELTA: nat := 0xa282_ead8

  /** Rotated right by fifteen bits, plus a constant, in 32 bits. */
  function Mask(crc: nat): (m: nat)
    requires crc < TWO32
    ensures m < TWO32
  {
    (crc / 0x8000 + crc % 0x8000 * 0x2_0000 + MASK_DELTA) % TWO32
  }

  function Unmask(masked: nat): nat
    requires masked < TWO32
  {
    var rot := (masked + TWO32 - MASK_DELTA) % TWO32;
    rot / 0x2_0000 + rot % 0x2_0000 * 0x8000
  }

  lemma Digits(high: nat, low: nat)
    requires low < 0x2_0000
    ensures (low + high * 0x2_0000) / 0x2_0000 == high && (low + high * 0x2_0000) % 0x2_0000 == low
  {
  }

  lemma Shifted(rot: nat)
    requires rot < TWO32
    ensures ((rot + MASK_DELTA) % TWO32 + TWO32 - MASK_DELTA) % TWO32 == rot
  {
  }

  lemma UnmaskMask(crc: nat)
    requires crc < TWO32
    ensures Unmask(Mask(crc)) == crc
  {
    var rot := crc / 0x8000 + crc % 0x8000 * 0x2_0000;
    Digits(crc % 0x8000, crc / 0x8000);
    Shifted(rot);
  }

  // ---------------------------------------------------------------------
  // The seal of a log record
  // ---------------------------------------------------------------------

  /** The four bytes in front of a record of a given type and payload. */
  type Seal = (byte, Bytes) -> Four

  /** The writer's seal: a checksum of the type byte prepared in advance, extended by the payload, masked. */
  function LogSeal(kind: byte, payload: Bytes): Four {
    EncodeFixed(Mask(Extend(Value([kind]), payload)), 4)
  }

  /** The reader's test: unmask what is stored, compare with the checksum of type byte and payload in one go. */
  predicate Sealed(stored: Four, kind: byte, payload: Bytes) {
    var masked := DecodeFixed(stored, 0, 4);
    masked < TWO32 && Unmask(masked) == Value([kind] + payload)
  }

  lemma MaskUnmask(masked: nat)
    requires masked < TWO32
    ensures Unmask(masked) < TWO32 && Mask(Unmask(masked)) == masked
  {
    var rot := (masked + TWO32 - MASK_DELTA) % TWO32;
    var high, low := rot / 0x2_0000, rot % 0x2_0000;
    assert rot == low + high * 0x2_0000 && high < 0x8000;
    assert (high + low * 0x8000) / 0x8000 == low && (high + low * 0x8000) % 0x8000 == high;
    assert (rot + MASK_DELTA) % TWO32 == masked;
  }

  lemma {:induction false} EncodeDecode(b: Bytes, p: nat, n: nat)
    requires p + n <= |b|
    ensures EncodeFixed(DecodeFixed(b, p, n), n) == b[p..p + n] && DecodeFixed(b, p, n) < Pow256(n)
    decreases n
  {
    if n > 0 {
      EncodeDecode(b, p + 1, n - 1);
      assert b[p..p + n] == [b[p]] + b[p + 1..p + n];
    }
  }

  /** The reader accepts exactly what the writer stores. */
  lemma SealedIff(stored: Four, kind: byte, payload: Bytes)
    ensures Sealed(stored, kind, payload) <==> stored == LogSeal(kind, payload)
  {
    var crc := Value([kind] + payload);
    ExtendConcat(0, [kind], payload);
    FixedWidths();
    EncodeDecode(stored, 0, 4);
    UnmaskMask(crc);
    MaskUnmask(DecodeFixed(stored, 0, 4));
    FixedRoundTrip(LogSeal(kind, payload), 0, Mask(crc), 4);
    assert stored[0..4] == stored;
  }
}
