/**
 nanopb's encoder: a stream that either fills a buffer or only counts, and the
 two passes over every nested message.
 */
module PbEncode {
  import opened Basics
  import opened Coding
  import opened PbTypes
  import opened PbWire

  /** How far a stream is: bytes counted, and bytes in the buffer. */
  datatype Out = Out(written: nat, state: Bytes)

  /**
   `b` was written from `was` to `now`.  It fails exactly when the structure is
   not `good`, or the buffer too small; a sizing stream is never full.
   */
  ghost predicate Wrote(sizing: bool, max: nat, was: Out, b: Bytes, good: bool, ok: bool, now: Out) {
    && (ok <==> good && (sizing || was.written + |b| <= max))
    && (ok ==> now == Out(was.written + |b|, if sizing then was.state else was.state + b))
  }

  lemma Then(sizing: bool, max: nat, was: Out, a: Bytes, goodA: bool, mid: Out, b: Bytes, goodB: bool, ok: bool, now: Out)
    requires Wrote(sizing, max, was, a, goodA, true, mid) && Wrote(sizing, max, mid, b, goodB, ok, now)
    ensures Wrote(sizing, max, was, a + b, goodA && goodB, ok, now)
  {
    assert was.state + (a + b) == was.state + a + b;
  }

  /** A failure after `done` was written, on a part `b` of what was to be written. */
  lemma Stops(sizing: bool, max: nat, was: Out, done: Bytes, mid: Out, b: Bytes, goodB: bool, now: Out, all: Bytes, good: bool)
    requires Wrote(sizing, max, was, done, true, true, mid) && Wrote(sizing, max, mid, b, goodB, false, now)
    requires |done| + |b| <= |all| && (good ==> goodB)
    ensures Wrote(sizing, max, was, all, good, false, now)
  {
  }

  /** What `pb_encode` checks of one field. */
  ghost predicate FieldFits(k: Kind, i: nat, items: seq<Value>)
    requires k.Sub? && i < |k.fields|
  {
    Count(k.fields[i].rule, |items|, true) && AllTyped(k, i, items, true)
  }

  ghost predicate FieldTyped(k: Kind, i: nat, items: seq<Value>)
    requires k.Sub? && i < |k.fields|
  {
    Count(k.fields[i].rule, |items|, false) && AllTyped(k, i, items, false)
  }

  lemma {:induction false} ZeroFits(k: Kind, v: Value)
    requires IsZero(k, v)
    ensures Typed(k, v, true)
    decreases k
  {
    if k.Sub? {
      forall i | 0 <= i < |k.fields| ensures Count(k.fields[i].rule, |v.slots[i]|, true) && AllTyped(k, i, v.slots[i], true) {
        assert ZeroSlot(k, v, i);
        if k.fields[i].rule.Singular? {
          ZeroFits(k.fields[i].kind, v.slots[i][0]);
        }
      }
      forall i, j | 0 <= i < j < |k.fields| && k.fields[i].rule.OneOf? && k.fields[i].rule == k.fields[j].rule
        ensures v.slots[i] == [] || v.slots[j] == []
      {
        assert ZeroSlot(k, v, i);
      }
    }
  }

  lemma OmittedFits(k: Kind, i: nat, items: seq<Value>)
    requires k.Sub? && i < |k.fields| && FieldTyped(k, i, items) && Omitted(k, i, items)
    ensures FieldFits(k, i, items) && FieldBytes(k, i, items) == []
  {
    if items != [] {
      ZeroFits(k.fields[i].kind, items[0]);
    }
  }

  lemma NumberFits(k: Kind, items: seq<Value>, j: nat)
    requires Packable(k) && Numbers(k, items) && j < |items|
    ensures Typed(k, items[j], false) && Typed(k, items[j], true)
  {
  }

  lemma {:induction false} FixedPayload(k: Kind, items: seq<Value>, j: nat)
    requires (k.Fixed32? || k.Fixed64?) && j <= |items|
    ensures |Payload(k, items, j)| == FixedSize(k) * (|items| - j)
    decreases |items| - j
  {
    if j < |items| {
      FixedPayload(k, items, j + 1);
    }
  }

  lemma PackedFits(k: Kind, i: nat, items: seq<Value>)
    requires k.Sub? && i < |k.fields| && Packable(k.fields[i].kind) && AllTyped(k, i, items, false)
    ensures AllTyped(k, i, items, true) && Numbers(k.fields[i].kind, items)
  {
    forall j | 0 <= j < |items| ensures Typed(k.fields[i].kind, items[j], true) {
      assert Typed(k.fields[i].kind, items[j], false);
    }
  }

  lemma OneFits(k: Kind, i: nat, items: seq<Value>)
    requires k.Sub? && i < |k.fields| && FieldTyped(k, i, items) && !k.fields[i].rule.Repeated? && !Omitted(k, i, items)
    ensures items == [items[0]] && Typed(k.fields[i].kind, items[0], false)
    ensures FieldBytes(k, i, items) == Record(k, i, items[0])
    ensures FieldFits(k, i, items) <==> Typed(k.fields[i].kind, items[0], true)
  {
    assert Records(k, i, items, 1) == [];
  }

  class OStream {
    const sizing: bool
    const max: nat
    var written: nat
    var state: Bytes

    function Look(): Out
      reads this
    {
      Out(written, state)
    }

    /** `PB_OSTREAM_SIZING`. */
    constructor Sizing()
      ensures sizing && Look() == Out(0, [])
    {
      sizing, max, written, state := true, 0, 0, [];
    }

    /** `pb_ostream_from_buffer`, or a substream that goes on in its parent's buffer. */
    constructor Writing(size: nat, at: Bytes)
      ensures !sizing && max == size && Look() == Out(0, at)
    {
      sizing, max, written, state := false, size, 0, at;
    }

    /** A stream never counts past the end of its buffer. */
    ghost predicate Valid()
      reads this
    {
      sizing || written <= max
    }

    /** `pb_write`. */
    method Write(b: Bytes) returns (ok: bool)
      requires Valid()
      modifies this
      ensures Valid() && Wrote(sizing, max, old(Look()), b, true, ok, Look())
    {
      if |b| > 0 && !sizing {
        if written + |b| > max {
          return false;
        }
        state := state + b;
      }
      written := written + |b|;
      ok := true;
      assert !sizing ==> state == old(state) + b;
    }

    /** `pb_write` of a length alone, on a sizing stream. */
    method CountOnly(n: nat, ghost b: Bytes)
      requires sizing && n == |b|
      modifies this
      ensures Valid() && Wrote(sizing, max, old(Look()), b, true, true, Look())
    {
      written := written + n;
    }

    method EncodeVarint(v: nat) returns (ok: bool)
      requires v < TWO64 && Valid()
      modifies this
      ensures Valid() && Wrote(sizing, max, old(Look()), Varint(v), true, ok, Look())
    {
      var b := EncodeVarint64(v);
      ok := Write(b);
    }

    method EncodeTag(tag: nat, wt: nat) returns (ok: bool)
      requires tag < 0x2000_0000 && wt < 8 && Valid()
      modifies this
      ensures Valid() && Wrote(sizing, max, old(Look()), TagBytes(tag, wt), true, ok, Look())
    {
      ok := EncodeVarint(tag * 8 + wt);
    }

    method EncodeString(b: Bytes) returns (ok: bool)
      requires |b| < TWO64 && Valid()
      modifies this
      ensures Valid() && Wrote(sizing, max, old(Look()), Delimited(b), true, ok, Look())
    {
      ok := EncodeVarint(|b|);
      if !ok {
        Stops(sizing, max, old(Look()), [], old(Look()), Varint(|b|), true, Look(), Delimited(b), true);
        return;
      }
      ghost var mid := Look();
      ok := Write(b);
      Then(sizing, max, old(Look()), Varint(|b|), true, mid, b, true, ok, Look());
    }

    /** The encoders of `PB_ENCODERS` for types that are not messages. */
    method EncodeScalar(k: Kind, v: Value) returns (ok: bool)
      requires !k.Sub? && Typed(k, v, false) && |ScalarBytes(k, v)| < TWO64 && Valid()
      modifies this
      ensures Valid() && Wrote(sizing, max, old(Look()), ScalarBytes(k, v), Typed(k, v, true), ok, Look())
    {
      if k.Blob? {
        if |v.b| > k.max {
          return false;
        }
        ok := EncodeString(v.b);
      } else if k.Text? {
        ok := EncodeString(v.b);
      } else if k.Fixed32? || k.Fixed64? {
        ok := Write(WordBytes(k, WordOf(k, v.n)));
      } else {
        ok := EncodeVarint(WordOf(k, v.n));
      }
    }

    /** The next value of a packed array, after those in `done`. */
    method EncodeNext(k: Kind, items: seq<Value>, j: nat, ghost was: Out, ghost done: Bytes, ghost all: Bytes) returns (ok: bool)
      requires Packable(k) && Numbers(k, items) && j < |items| && |all| < TWO64 && Valid()
      requires all == done + Payload(k, items, j) && Wrote(sizing, max, was, done, true, true, Look())
      modifies this
      ensures Valid() && all == done + ScalarBytes(k, items[j]) + Payload(k, items, j + 1)
      ensures Wrote(sizing, max, was, if ok then done + ScalarBytes(k, items[j]) else all, true, ok, Look())
    {
      ghost var mid, b := Look(), ScalarBytes(k, items[j]);
      assert all == done + b + Payload(k, items, j + 1);
      NumberFits(k, items, j);
      ok := EncodeScalar(k, items[j]);
      if ok {
        Then(sizing, max, was, done, true, mid, b, true, true, Look());
      } else {
        Stops(sizing, max, was, done, mid, b, true, Look(), all, true);
      }
    }

    /** The values of a packed array. */
    method EncodeItems(k: Kind, items: seq<Value>) returns (ok: bool)
      requires Packable(k) && Numbers(k, items) && |Payload(k, items, 0)| < TWO64 && Valid()
      modifies this
      ensures Valid() && Wrote(sizing, max, old(Look()), Payload(k, items, 0), true, ok, Look())
    {
      var j := 0;
      ghost var done: Bytes := [];
      while j < |items|
        invariant j <= |items| && Valid() && Payload(k, items, 0) == done + Payload(k, items, j)
        invariant Wrote(sizing, max, old(Look()), done, true, true, Look())
      {
        ok := EncodeNext(k, items, j, old(Look()), done, Payload(k, items, 0));
        if !ok {
          return;
        }
        done, j := done + ScalarBytes(k, items[j]), j + 1;
      }
      ok := true;
    }

    /** The size of a packed array: by multiplication, or by a sizing pass. */
    method PackedSize(k: Kind, items: seq<Value>) returns (size: nat)
      requires Packable(k) && Numbers(k, items) && |Payload(k, items, 0)| < TWO64
      ensures size == |Payload(k, items, 0)|
    {
      if k.Fixed32? || k.Fixed64? {
        FixedPayload(k, items, 0);
        size := FixedSize(k) * |items|;
      } else {
        var sub := new OStream.Sizing();
        var ok := sub.EncodeItems(k, items);
        size := sub.written;
      }
    }

    /** The length of a packed array, and its values. */
    method EncodePayload(k: Kind, items: seq<Value>) returns (ok: bool)
      requires Packable(k) && Numbers(k, items) && |Payload(k, items, 0)| < TWO64 && Valid()
      modifies this
      ensures Valid() && Wrote(sizing, max, old(Look()), Delimited(Payload(k, items, 0)), true, ok, Look())
    {
      ghost var was, data := Look(), Payload(k, items, 0);
      var size := PackedSize(k, items);
      ok := EncodeVarint(size);
      if !ok {
        Stops(sizing, max, was, [], was, Varint(size), true, Look(), Delimited(data), true);
        return;
      }
      ghost var mid := Look();
      if sizing {
        CountOnly(size, data);
      } else {
        ok := EncodeItems(k, items);
      }
      Then(sizing, max, was, Varint(size), true, mid, data, true, ok, Look());
    }

    /** The packed form of `encode_array`. */
    method EncodePacked(f: Field, items: seq<Value>) returns (ok: bool)
      requires f.tag < 0x2000_0000 && Packable(f.kind) && Numbers(f.kind, items) && |Payload(f.kind, items, 0)| < TWO64 && Valid()
      modifies this
      ensures Valid() && Wrote(sizing, max, old(Look()), TagBytes(f.tag, 2) + Delimited(Payload(f.kind, items, 0)), true, ok, Look())
    {
      ghost var was, tag, data := Look(), TagBytes(f.tag, 2), Delimited(Payload(f.kind, items, 0));
      ok := EncodeTag(f.tag, 2);
      if !ok {
        Stops(sizing, max, was, [], was, tag, true, Look(), tag + data, true);
        return;
      }
      ghost var mid := Look();
      ok := EncodePayload(f.kind, items);
      Then(sizing, max, was, tag, true, mid, data, true, ok, Look());
    }

    /** `encode_array`. */
    method EncodeArray(k: Kind, i: nat, items: seq<Value>) returns (ok: bool)
      requires k.Sub? && i < |k.fields| && k.fields[i].rule.Repeated? && k.fields[i].tag < 0x2000_0000
      requires WellFormed(k) && AllTyped(k, i, items, false) && |FieldBytes(k, i, items)| < TWO64 && Valid()
      modifies this
      ensures Valid() && Wrote(sizing, max, old(Look()), FieldBytes(k, i, items), FieldFits(k, i, items), ok, Look())
      decreases k, 2
    {
      var f := k.fields[i];
      if |items| == 0 {
        return true;
      }
      if |items| > f.rule.max {
        return false;
      }
      if Packable(f.kind) {
        PackedFits(k, i, items);
        ok := EncodePacked(f, items);
      } else {
        ok := EncodeRecords(k, i, items);
      }
    }

    /** The next entry of an array that is not packed, after those in `done`. */
    method EncodeNextRecord(k: Kind, i: nat, items: seq<Value>, j: nat, ghost was: Out, ghost done: Bytes, ghost all: Bytes) returns (ok: bool)
      requires k.Sub? && i < |k.fields| && j < |items| && k.fields[i].tag < 0x2000_0000
      requires WellFormed(k) && AllTyped(k, i, items, false) && |all| < TWO64 && Valid()
      requires all == done + Records(k, i, items, j) && Wrote(sizing, max, was, done, true, true, Look())
      modifies this
      ensures Valid() && all == done + Record(k, i, items[j]) + Records(k, i, items, j + 1)
      ensures ok ==> Typed(k.fields[i].kind, items[j], true) && Wrote(sizing, max, was, done + Record(k, i, items[j]), true, true, Look())
      ensures !ok ==> Wrote(sizing, max, was, all, AllTyped(k, i, items, true), false, Look())
      decreases k, 1, 0
    {
      ghost var mid, b := Look(), Record(k, i, items[j]);
      assert all == done + b + Records(k, i, items, j + 1);
      ok := EncodeRecord(k, i, items[j]);
      if ok {
        Then(sizing, max, was, done, true, mid, b, true, true, Look());
      } else {
        Stops(sizing, max, was, done, mid, b, Typed(k.fields[i].kind, items[j], true), Look(), all, AllTyped(k, i, items, true));
      }
    }

    /** The loop of `encode_array` for values that are not packed. */
    method EncodeRecords(k: Kind, i: nat, items: seq<Value>) returns (ok: bool)
      requires k.Sub? && i < |k.fields| && k.fields[i].tag < 0x2000_0000
      requires WellFormed(k) && AllTyped(k, i, items, false) && |Records(k, i, items, 0)| < TWO64 && Valid()
      modifies this
      ensures Valid() && Wrote(sizing, max, old(Look()), Records(k, i, items, 0), AllTyped(k, i, items, true), ok, Look())
      decreases k, 1, 1
    {
      var j := 0;
      ghost var done: Bytes := [];
      while j < |items|
        invariant j <= |items| && Valid() && Records(k, i, items, 0) == done + Records(k, i, items, j)
        invariant Wrote(sizing, max, old(Look()), done, true, true, Look())
        invariant forall y :: 0 <= y < j ==> Typed(k.fields[i].kind, items[y], true)
      {
        ok := EncodeNextRecord(k, i, items, j, old(Look()), done, Records(k, i, items, 0));
        if !ok {
          return;
        }
        done, j := done + Record(k, i, items[j]), j + 1;
      }
      ok := true;
    }

    /** A tag and a value. */
    method EncodeRecord(k: Kind, i: nat, v: Value) returns (ok: bool)
      requires k.Sub? && i < |k.fields| && k.fields[i].tag < 0x2000_0000 && WellFormed(k)
      requires Typed(k.fields[i].kind, v, false) && |Record(k, i, v)| < TWO64 && Valid()
      modifies this
      ensures Valid() && Wrote(sizing, max, old(Look()), Record(k, i, v), Typed(k.fields[i].kind, v, true), ok, Look())
      decreases k, 0
    {
      var f := k.fields[i];
      ghost var was, tag, b := Look(), TagBytes(f.tag, WireType(f.kind)), ValueBytes(f.kind, v);
      ok := EncodeTag(f.tag, WireType(f.kind));
      if !ok {
        Stops(sizing, max, was, [], was, tag, true, Look(), tag + b, Typed(f.kind, v, true));
        return;
      }
      ghost var mid := Look();
      ok := EncodeValue(f.kind, v);
      Then(sizing, max, was, tag, true, mid, b, Typed(f.kind, v, true), ok, Look());
    }

    method EncodeValue(k: Kind, v: Value) returns (ok: bool)
      requires WellFormed(k) && Typed(k, v, false) && |ValueBytes(k, v)| < TWO64 && Valid()
      modifies this
      ensures Valid() && Wrote(sizing, max, old(Look()), ValueBytes(k, v), Typed(k, v, true), ok, Look())
      decreases k, 6
    {
      if k.Sub? {
        ok := EncodeSubmessage(k, v.slots);
      } else {
        ok := EncodeScalar(k, v);
      }
    }

    /**
     `pb_encode_submessage`: a sizing pass, the length, and a second pass into
     a substream that must come to the same length.
     */
    method EncodeSubmessage(k: Kind, slots: seq<seq<Value>>) returns (ok: bool)
      requires k.Sub? && WellFormed(k) && Typed(k, Msg(slots), false) && |Delimited(FieldsFrom(k, slots, 0))| < TWO64 && Valid()
      modifies this
      ensures Valid() && Wrote(sizing, max, old(Look()), Delimited(FieldsFrom(k, slots, 0)), Typed(k, Msg(slots), true), ok, Look())
      decreases k, 5
    {
      ghost var was, body, good := Look(), FieldsFrom(k, slots, 0), Typed(k, Msg(slots), true);
      var counting := new OStream.Sizing();
      ok := counting.Encode(k, slots);
      if !ok {
        return;
      }
      var size := counting.written;
      ok := EncodeVarint(size);
      if !ok {
        Stops(sizing, max, was, [], was, Varint(size), true, Look(), Delimited(body), good);
        return;
      }
      ghost var mid := Look();
      if sizing {
        CountOnly(size, body);
        Then(sizing, max, was, Varint(size), true, mid, body, true, true, Look());
        return;
      }
      if written + size > max {
        return false;
      }
      var sub := new OStream.Writing(size, state);
      var status := sub.Encode(k, slots);
      written := written + sub.written;
      state := sub.state;
      if sub.written != size {
        return false;
      }
      ok := status;
      Then(sizing, max, was, Varint(size), true, mid, body, true, ok, Look());
    }

    /** `encode_basic_field`. */
    method EncodeField(k: Kind, i: nat, items: seq<Value>) returns (ok: bool)
      requires k.Sub? && i < |k.fields| && k.fields[i].tag < 0x2000_0000 && WellFormed(k)
      requires FieldTyped(k, i, items) && |FieldBytes(k, i, items)| < TWO64 && Valid()
      modifies this
      ensures Valid() && Wrote(sizing, max, old(Look()), FieldBytes(k, i, items), FieldFits(k, i, items), ok, Look())
      decreases k, 3
    {
      if k.fields[i].rule.Repeated? {
        ok := EncodeArray(k, i, items);
      } else if items == [] || (k.fields[i].rule.Singular? && IsZero(k.fields[i].kind, items[0])) {
        OmittedFits(k, i, items);
        ok := true;
      } else {
        OneFits(k, i, items);
        ok := EncodeRecord(k, i, items[0]);
      }
    }

    /** The next field, after those in `done`. */
    method EncodeNextField(k: Kind, slots: seq<seq<Value>>, i: nat, ghost was: Out, ghost done: Bytes, ghost all: Bytes) returns (ok: bool)
      requires k.Sub? && WellFormed(k) && Typed(k, Msg(slots), false) && i < |slots| && |all| < TWO64 && Valid()
      requires all == done + FieldsFrom(k, slots, i) && Wrote(sizing, max, was, done, true, true, Look())
      modifies this
      ensures Valid() && all == done + FieldBytes(k, i, slots[i]) + FieldsFrom(k, slots, i + 1)
      ensures ok ==> FieldFits(k, i, slots[i]) && Wrote(sizing, max, was, done + FieldBytes(k, i, slots[i]), true, true, Look())
      ensures !ok ==> Wrote(sizing, max, was, all, Typed(k, Msg(slots), true), false, Look())
      decreases k, 4, 0
    {
      ghost var mid, b := Look(), FieldBytes(k, i, slots[i]);
      assert all == done + b + FieldsFrom(k, slots, i + 1);
      ok := EncodeField(k, i, slots[i]);
      if ok {
        Then(sizing, max, was, done, true, mid, b, true, true, Look());
      } else {
        Stops(sizing, max, was, done, mid, b, FieldFits(k, i, slots[i]), Look(), all, Typed(k, Msg(slots), true));
      }
    }

    /** `pb_encode`: the fields in the order of the descriptor. */
    method Encode(k: Kind, slots: seq<seq<Value>>) returns (ok: bool)
      requires k.Sub? && WellFormed(k) && Typed(k, Msg(slots), false) && |FieldsFrom(k, slots, 0)| < TWO64 && Valid()
      modifies this
      ensures Valid() && Wrote(sizing, max, old(Look()), FieldsFrom(k, slots, 0), Typed(k, Msg(slots), true), ok, Look())
      decreases k, 4, 1
    {
      var i := 0;
      ghost var done: Bytes := [];
      while i < |slots|
        invariant i <= |slots| && Valid() && FieldsFrom(k, slots, 0) == done + FieldsFrom(k, slots, i)
        invariant Wrote(sizing, max, old(Look()), done, true, true, Look())
        invariant forall y :: 0 <= y < i ==> FieldFits(k, y, slots[y])
      {
        ok := EncodeNextField(k, slots, i, old(Look()), done, FieldsFrom(k, slots, 0));
        if !ok {
          return;
        }
        done, i := done + FieldBytes(k, i, slots[i]), i + 1;
      }
      ok := true;
    }
  }

  /** `pb_get_encoded_size`: it tells how large a buffer `Encode` needs. */
  method GetEncodedSize(k: Kind, slots: seq<seq<Value>>) returns (ok: bool, size: nat)
    requires k.Sub? && WellFormed(k) && Typed(k, Msg(slots), false) && |FieldsFrom(k, slots, 0)| < TWO64
    ensures ok <==> Typed(k, Msg(slots), true)
    ensures ok ==> size == |Body(k, Msg(slots))|
  {
    var stream := new OStream.Sizing();
    ok := stream.Encode(k, slots);
    size := stream.written;
  }
}
