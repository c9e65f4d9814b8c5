/**
 nanopb's decoder: a stream over a buffer, with substreams for everything that
 carries its length.
 */
module PbDecode {
  import opened Basics
  import opened Coding
  import opened PbTypes
  import opened PbWire
  import opened PbRead

  lemma SlicePart(buf: Bytes, base: nat, s: Bytes, p: nat, n: nat)
    requires At(buf, base, s) && p + n <= |s|
    ensures At(buf, base + p, s[p..p + n]) && buf[base + p..base + p + n] == s[p..p + n]
  {
    var part := s[p..p + n];
    forall j | 0 <= j < |part| ensures buf[base + p + j] == part[j] {
      assert buf[base + (p + j)] == s[p + j];
    }
  }

  lemma ByteOf(buf: Bytes, base: nat, s: Bytes, p: nat)
    requires At(buf, base, s) && p < |s|
    ensures base + p < |buf| && buf[base + p] == s[p]
  {
  }

  class IStream {
    const buf: Bytes
    ghost const base: nat
    var state: nat
    var left: nat

    /** The stream was opened on `s`, and stands at `p`. */
    ghost predicate Reads(s: Bytes, p: nat)
      reads this
    {
      p <= |s| && state == base + p && left == |s| - p && At(buf, base, s)
    }

    /** A reader did to the stream what `f` says. */
    ghost predicate Took<T>(s: Bytes, r: Option<T>, f: Option<(T, nat)>)
      reads this
    {
      && (r.None? <==> f.None?)
      && (r.Some? ==> r.value == f.value.0 && Reads(s, f.value.1))
    }

    /** `pb_istream_from_buffer`. */
    constructor (b: Bytes)
      ensures Reads(b, 0)
    {
      buf, base, state, left := b, 0, 0, |b|;
    }

    /** A copy of a stream cut down to its next `n` bytes. */
    constructor Sub(b: Bytes, at: nat, n: nat)
      requires at + n <= |b|
      ensures Reads(b[at..at + n], 0) && buf == b && base == at
    {
      buf, base, state, left := b, at, at, n;
    }

    method ReadByte(ghost s: Bytes, ghost p: nat) returns (r: Option<byte>)
      requires Reads(s, p)
      modifies this
      ensures r == if p < |s| then Some(s[p]) else None
      ensures if r.Some? then Reads(s, p + 1) else Reads(s, p)
    {
      if left == 0 {
        return None;
      }
      ByteOf(buf, base, s, p);
      r := Some(buf[state]);
      state, left := state + 1, left - 1;
    }

    method Read(n: nat, ghost s: Bytes, ghost p: nat) returns (r: Option<Bytes>)
      requires Reads(s, p)
      modifies this
      ensures r == if p + n <= |s| then Some(s[p..p + n]) else None
      ensures r.Some? ==> Reads(s, p + n)
    {
      if left < n {
        return None;
      }
      SlicePart(buf, base, s, p, n);
      r := Some(buf[state..state + n]);
      state, left := state + n, left - n;
    }

    /** The loop of `pb_decode_varint32_eof`. */
    method DecodeVarint32(ghost s: Bytes, ghost p: nat) returns (r: Option<nat>)
      requires Reads(s, p)
      modifies this
      ensures Took(s, r, Word32(s, p))
    {
      var b := ReadByte(s, p);
      if b.None? {
        return None;
      }
      if b.value < 128 {
        return Some(b.value);
      }
      var acc: nat, scale: nat, g: nat := b.value - 128, 128, 1;
      ghost var q: nat := p + 1;
      while true
        invariant g > 0 && acc < TWO32 && scale == Pow128(g) && Reads(s, q)
        invariant Word32From(s, q, g, acc) == Word32(s, p)
        decreases left
      {
        b := ReadByte(s, q);
        if b.None? {
          return None;
        }
        if g >= 5 {
          if b.value % 128 != 0 && (acc < 0x8000_0000 || b.value != (if g < 9 then 255 else 1)) {
            return None;
          }
        } else {
          acc := (acc + b.value % 128 * scale) % TWO32;
        }
        q, scale, g := q + 1, 128 * scale, g + 1;
        if b.value < 128 {
          break;
        }
      }
      if g == 5 && b.value >= 16 {
        return None;
      }
      return Some(acc);
    }

    /** The loop of `pb_decode_varint`. */
    method DecodeVarint(ghost s: Bytes, ghost p: nat) returns (r: Option<nat>)
      requires Reads(s, p)
      modifies this
      ensures Took(s, r, VarintAt(s, p, W64))
    {
      var acc: nat, scale: nat, n: nat := 0, 1, 10;
      ghost var whole: nat, q: nat := 0, p;
      ghost var goal := Spelled(s, p, 10);
      while true
        invariant Reads(s, q) && n <= 10 && acc == W64.Low(whole)
        invariant goal.Some? <==> Spelled(s, q, n).Some?
        invariant goal.Some? ==> goal.value == (whole + Times(scale, Spelled(s, q, n).value.0), Spelled(s, q, n).value.1)
        decreases n
      {
        if n == 0 {
          return None;
        }
        var b := ReadByte(s, q);
        if b.None? {
          return None;
        }
        if b.value < 128 {
          Wraps(W64, acc, whole, Times(scale, b.value));
          return Some(W64.Low(acc + Times(scale, b.value)));
        }
        var low: nat := b.value - 128;
        Wraps(W64, acc, whole, Times(scale, low));
        TakeGroup(s, q, n, whole, scale);
        acc := W64.Low(acc + Times(scale, low));
        whole := whole + Times(scale, low);
        q, scale, n := q + 1, scale * 128, n - 1;
      }
    }

    // -------------------------------------------------------------------
    // Skipping
    // -------------------------------------------------------------------

    method SkipPastVarint(ghost s: Bytes, ghost p: nat) returns (ok: bool)
      requires Reads(s, p)
      modifies this
      ensures ok <==> SkipVarint(s, p).Some?
      ensures ok ==> Reads(s, SkipVarint(s, p).value)
    {
      ghost var q: nat := p;
      while true
        invariant Reads(s, q) && SkipVarint(s, q) == SkipVarint(s, p)
        decreases left
      {
        var b := ReadByte(s, q);
        if b.None? {
          return false;
        }
        if b.value < 128 {
          return true;
        }
        q := q + 1;
      }
    }

    method SkipString(ghost s: Bytes, ghost p: nat) returns (ok: bool)
      requires Reads(s, p)
      modifies this
      ensures ok <==> Counted(s, p).Some?
      ensures ok ==> Reads(s, Counted(s, p).value.1)
    {
      var n := DecodeVarint32(s, p);
      if n.None? {
        return false;
      }
      var b := Read(n.value, s, Word32(s, p).value.1);
      return b.Some?;
    }

    /** `pb_skip_field`. */
    method Skip(wt: nat, ghost s: Bytes, ghost p: nat) returns (ok: bool)
      requires Reads(s, p)
      modifies this
      ensures ok <==> SkipField(s, p, wt).Some?
      ensures ok ==> Reads(s, SkipField(s, p, wt).value)
    {
      if wt == 0 {
        ok := SkipPastVarint(s, p);
      } else if wt == 1 {
        var b := Read(8, s, p);
        ok := b.Some?;
      } else if wt == 2 {
        ok := SkipString(s, p);
      } else if wt == 5 {
        var b := Read(4, s, p);
        ok := b.Some?;
      } else {
        ok := false;
      }
    }

    // -------------------------------------------------------------------
    // Substreams
    // -------------------------------------------------------------------

    /** `pb_make_string_substream`: until it is closed, the parent only knows what will remain. */
    method MakeSubstream(ghost s: Bytes, ghost p: nat) returns (sub: Option<IStream>)
      requires Reads(s, p)
      modifies this
      ensures sub.None? <==> Counted(s, p).None?
      ensures sub.Some? ==>
        && fresh(sub.value) && sub.value.Reads(Counted(s, p).value.0, 0)
        && sub.value.base + |Counted(s, p).value.0| == base + Counted(s, p).value.1
        && left == |s| - Counted(s, p).value.1 && At(buf, base, s)
    {
      var n := DecodeVarint32(s, p);
      if n.None? || left < n.value {
        return None;
      }
      ghost var q := Word32(s, p).value.1;
      SlicePart(buf, base, s, q, n.value);
      var slice := new IStream.Sub(buf, state, n.value);
      left := left - n.value;
      return Some(slice);
    }

    /** `pb_close_string_substream`: what was left unread is skipped. */
    method CloseSubstream(sub: IStream, ghost t: Bytes, ghost at: nat, ghost s: Bytes, ghost p: nat)
      requires sub != this && sub.Reads(t, at) && sub.base + |t| == base + p
      requires p <= |s| && left == |s| - p && At(buf, base, s)
      modifies this, sub
      ensures Reads(s, p)
    {
      if sub.left > 0 {
        var b := sub.Read(sub.left, t, at);
      }
      state := sub.state;
    }

    // -------------------------------------------------------------------
    // Values
    // -------------------------------------------------------------------

    method DecodeBytes(max: int, ghost s: Bytes, ghost p: nat) returns (r: Option<Value>)
      requires Reads(s, p)
      modifies this
      ensures Took(s, r, ReadBytes(s, p, max))
    {
      var n := DecodeVarint32(s, p);
      if n.None? || n.value > max {
        return None;
      }
      var b := Read(n.value, s, Word32(s, p).value.1);
      if b.None? {
        return None;
      }
      return Some(Raw(b.value));
    }

    method DecodeFixedWidth(n: nat, ghost s: Bytes, ghost p: nat) returns (r: Option<Value>)
      requires Reads(s, p)
      modifies this
      ensures Took(s, r, ReadFixed(s, p, n))
    {
      var b := Read(n, s, p);
      if b.None? {
        return None;
      }
      FixedOfSlice(s, p, n, b.value, 0, n);
      return Some(Num(DecodeFixed(b.value, 0, n)));
    }

    /** The decoders of `PB_DECODERS` for types that are not messages. */
    method DecodeScalar(k: Kind, ghost s: Bytes, ghost p: nat) returns (r: Option<Value>)
      requires !k.Sub? && Reads(s, p)
      modifies this
      ensures Took(s, r, ReadScalar(k, s, p))
    {
      if k.Bool? {
        var x := DecodeVarint32(s, p);
        r := if x.None? then None else Some(Num(if x.value != 0 then 1 else 0));
      } else if k.Fixed32? || k.Fixed64? {
        r := DecodeFixedWidth(FixedSize(k), s, p);
      } else if k.Blob? {
        r := DecodeBytes(k.max, s, p);
      } else if k.Text? {
        r := DecodeBytes(k.size - 1, s, p);
      } else {
        var x := DecodeVarint(s, p);
        r := if x.None? then None else FromWord(k, x.value);
      }
    }

    /** The packed loop of `decode_static_field`, on its substream. */
    method DecodePacked(k: Kind, items0: seq<Value>, max: nat, ghost s: Bytes) returns (r: Option<seq<Value>>, ghost end: nat)
      requires Packable(k) && Reads(s, 0)
      modifies this
      ensures r == ReadPacked(k, s, 0, items0, max) && (r.Some? ==> Reads(s, end))
    {
      var items := items0;
      end := 0;
      while left > 0 && |items| < max
        invariant Reads(s, end) && ReadPacked(k, s, end, items, max) == ReadPacked(k, s, 0, items0, max)
        decreases left
      {
        var v := DecodeScalar(k, s, end);
        if v.None? {
          return None, end;
        }
        end := ReadScalar(k, s, end).value.1;
        items := items + [v.value];
      }
      if left != 0 {
        return None, end;
      }
      return Some(items), end;
    }

    // -------------------------------------------------------------------
    // Fields and messages
    // -------------------------------------------------------------------

    method DecodePackedField(k: Kind, items: seq<Value>, max: nat, ghost s: Bytes, ghost p: nat) returns (r: Option<seq<Value>>)
      requires Packable(k) && Reads(s, p)
      modifies this
      ensures r.None? <==> Counted(s, p).None? || ReadPacked(k, Counted(s, p).value.0, 0, items, max).None?
      ensures r.Some? ==> Reads(s, Counted(s, p).value.1) && r == ReadPacked(k, Counted(s, p).value.0, 0, items, max)
    {
      var sub := MakeSubstream(s, p);
      if sub.None? {
        return None;
      }
      ghost var b := Counted(s, p).value;
      ghost var end: nat;
      r, end := sub.value.DecodePacked(k, items, max, b.0);
      if r.Some? {
        CloseSubstream(sub.value, b.0, end, s, b.1);
      }
    }

    /** `decode_static_field`. */
    method DecodeField(k: Kind, i: nat, wt: nat, items: seq<Value>, ghost s: Bytes, ghost p: nat) returns (r: Option<seq<Value>>)
      requires k.Sub? && i < |k.fields| && WellFormed(k) && Reads(s, p)
      modifies this
      ensures Took(s, r, ReadField(k, i, s, p, wt, items))
      decreases k, 0
    {
      var f := k.fields[i];
      if !f.rule.Repeated? {
        var v := DecodeValue(f.kind, if items == [] then Default(f.kind) else items[0], s, p);
        r := if v.None? then None else Some([v.value]);
      } else if wt == 2 && Packable(f.kind) {
        r := DecodePackedField(f.kind, items, f.rule.max, s, p);
      } else if |items| >= f.rule.max {
        r := None;
      } else {
        var v := DecodeValue(f.kind, Default(f.kind), s, p);
        r := if v.None? then None else Some(items + [v.value]);
      }
    }

    /** A value over the present one; messages by `pb_dec_submessage`. */
    method DecodeValue(k: Kind, over: Value, ghost s: Bytes, ghost p: nat) returns (r: Option<Value>)
      requires WellFormed(k) && Reads(s, p)
      modifies this
      ensures Took(s, r, ReadValue(k, s, p, over))
      decreases k, 2
    {
      if !k.Sub? {
        r := DecodeScalar(k, s, p);
        return;
      }
      var sub := MakeSubstream(s, p);
      if sub.None? || !over.Msg? || |over.slots| != |k.fields| {
        return None;
      }
      ghost var b := Counted(s, p).value;
      ghost var end: nat;
      var slots: Option<Slots>;
      slots, end := sub.value.DecodeNoInit(k, over.slots, b.0);
      if slots.None? {
        return None;
      }
      CloseSubstream(sub.value, b.0, end, s, b.1);
      return Some(Msg(slots.value));
    }

    /** `pb_decode_noinit`. */
    method DecodeNoInit(k: Kind, slots0: Slots, ghost s: Bytes) returns (r: Option<Slots>, ghost end: nat)
      requires k.Sub? && WellFormed(k) && |slots0| == |k.fields| && Reads(s, 0)
      modifies this
      ensures r == ReadBody(k, s, 0, slots0, {}) && (r.Some? ==> Reads(s, end))
      decreases k, 1
    {
      var slots, seen: set<nat>, pos: nat := slots0, {}, 0;
      end := 0;
      while left > 0
        invariant Reads(s, end) && |slots| == |k.fields| && (pos < |k.fields| || pos == 0)
        invariant ReadBody(k, s, end, slots, seen) == ReadBody(k, s, 0, slots0, {})
        decreases left
      {
        ghost var p := end;
        var t := DecodeVarint32(s, p);
        if t.None? {
          return None, end;
        }
        end := Word32(s, p).value.1;
        if t.value == 0 {
          break;
        }
        var found: bool;
        found, pos := FindField(k.fields, pos, t.value / 8);
        if !found {
          var ok := Skip(t.value % 8, s, end);
          if !ok {
            return None, end;
          }
          end := SkipField(s, end, t.value % 8).value;
        } else {
          var items := DecodeField(k, pos, t.value % 8, slots[pos], s, end);
          if items.None? {
            return None, end;
          }
          end := ReadField(k, pos, s, end, t.value % 8, slots[pos]).value.1;
          slots, seen := Put(k.fields, slots, pos, items.value), Mark(k.fields, pos, seen);
        }
      }
      var complete := CheckRequired(k.fields, seen);
      r := if complete then Some(slots) else None;
    }
  }

  lemma {:induction false} FixedOfSlice(s: Bytes, p: nat, n: nat, b: Bytes, x: nat, m: nat)
    requires p + n <= |s| && b == s[p..p + n] && x + m <= n
    ensures DecodeFixed(s, p + x, m) == DecodeFixed(b, x, m)
    decreases m
  {
    if m > 0 {
      FixedOfSlice(s, p, n, b, x + 1, m - 1);
    }
  }

  /** `pb_field_iter_find`: once around the descriptor from the last field found. */
  method FindField(fs: seq<Field>, start: nat, tag: nat) returns (found: bool, pos: nat)
    requires DistinctTags(fs) && (start < |fs| || start == 0)
    ensures found <==> FindTag(fs, tag).Some?
    ensures found ==> FindTag(fs, tag) == Some(pos)
    ensures !found ==> pos == start
  {
    pos := start;
    if fs == [] {
      return false, start;
    }
    ghost var n := 0;
    while true
      invariant n < |fs| && pos < |fs| && pos == (if start + n < |fs| then start + n else start + n - |fs|)
      invariant forall i :: 0 <= i < |fs| && (if i >= start then i - start else i + |fs| - start) < n ==> fs[i].tag != tag
      decreases |fs| - n
    {
      if fs[pos].tag == tag {
        TagIsOwn(fs, pos);
        return true, pos;
      }
      pos := if pos + 1 == |fs| then 0 else pos + 1;
      n := n + 1;
      if pos == start {
        return false, start;
      }
    }
  }

  /** The check of `fields_seen` at the end of a message. */
  method CheckRequired(fs: seq<Field>, seen: set<nat>) returns (ok: bool)
    ensures ok == Complete(fs, seen)
  {
    var i, count := 0, 0;
    while i < |fs|
      invariant i <= |fs| && count == RequiredBefore(fs, i)
      invariant forall x :: 0 <= x < i && Tracked(fs, x) ==> x in seen
    {
      if fs[i].rule.Required? {
        if count < 64 && i !in seen {
          return false;
        }
        count := count + 1;
      }
      i := i + 1;
    }
    ok := true;
  }

  /** `pb_decode` of a whole buffer. */
  method Decode(k: Kind, b: Bytes) returns (r: Option<Value>)
    requires k.Sub? && WellFormed(k)
    ensures r == Read(k, b)
  {
    var stream := new IStream(b);
    var slots: Option<Slots>;
    ghost var end: nat;
    slots, end := stream.DecodeNoInit(k, DefaultSlots(k, |k.fields|), b);
    r := if slots.None? then None else Some(Msg(slots.value));
  }
}
