/**
 How a message is read: a record at a time, each into the field with its tag.
 Reading what was written gives the message back, or as much of it as the
 receiver's descriptor knows.
 */
module PbRead {
  import opened Basics
  import opened Coding
  import opened PbTypes
  import opened PbWire

  type Slots = seq<seq<Value>>

  // ---------------------------------------------------------------------
  // One field
  // ---------------------------------------------------------------------

  /** Storing a member of a union overwrites the others. */
  function Cleared(fs: seq<Field>, slots: Slots, i: nat, n: nat): (r: Slots)
    requires |slots| == |fs| && i < |fs| && n <= |fs|
    ensures |r| == n
    ensures forall j :: 0 <= j < n ==> r[j] == if j != i && fs[j].rule == fs[i].rule then [] else slots[j]
  {
    if n == 0 then []
    else Cleared(fs, slots, i, n - 1) + [if n - 1 != i && fs[n - 1].rule == fs[i].rule then [] else slots[n - 1]]
  }

  function Put(fs: seq<Field>, slots: Slots, i: nat, items: seq<Value>): (r: Slots)
    requires |slots| == |fs| && i < |fs|
    ensures |r| == |fs|
  {
    if fs[i].rule.OneOf? then Cleared(fs, slots, i, |fs|)[i := items] else slots[i := items]
  }

  /** The array loop of `decode_static_field`, for packed values. */
  function ReadPacked(k: Kind, s: Bytes, p: nat, items: seq<Value>, max: nat): Option<seq<Value>>
    requires !k.Sub? && p <= |s|
    decreases |s| - p
  {
    if p == |s| then Some(items)
    else if |items| >= max then None
    else
      var r := ReadScalar(k, s, p);
      if r.None? then None else ReadPacked(k, s, r.value.1, items + [r.value.0], max)
  }

  /** The number of required fields before field `i`. */
  function RequiredBefore(fs: seq<Field>, i: nat): nat
    requires i <= |fs|
  {
    if i == 0 then 0 else RequiredBefore(fs, i - 1) + if fs[i - 1].rule.Required? then 1 else 0
  }

  /** The bitmap of required fields has 64 bits; later ones are not checked. */
  predicate Tracked(fs: seq<Field>, i: nat)
    requires i < |fs|
  {
    fs[i].rule.Required? && RequiredBefore(fs, i) < 64
  }

  predicate Complete(fs: seq<Field>, seen: set<nat>) {
    forall i :: 0 <= i < |fs| && Tracked(fs, i) ==> i in seen
  }

  function Mark(fs: seq<Field>, i: nat, seen: set<nat>): set<nat>
    requires i < |fs|
  {
    if Tracked(fs, i) then seen + {i} else seen
  }

  // ---------------------------------------------------------------------
  // Messages
  // ---------------------------------------------------------------------

  datatype Outcome = Stop | Fail | More(slots: Slots, seen: set<nat>, next: nat)

  /** `pb_decode_noinit` from position `p`; a zero tag ends the message early. */
  function ReadBody(k: Kind, s: Bytes, p: nat, slots: Slots, seen: set<nat>): (r: Option<Slots>)
    requires k.Sub? && |slots| == |k.fields| && p <= |s|
    ensures r.Some? ==> |r.value| == |k.fields|
    decreases k, 3, |s| - p
  {
    if p == |s| then Finish(k, slots, seen)
    else
      match ReadRecord(k, s, p, slots, seen)
      case Fail => None
      case Stop => Finish(k, slots, seen)
      case More(slots', seen', next) => ReadBody(k, s, next, slots', seen')
  }

  function Finish(k: Kind, slots: Slots, seen: set<nat>): Option<Slots>
    requires k.Sub?
  {
    if Complete(k.fields, seen) then Some(slots) else None
  }

  /** One turn of the loop: a tag, and a field decoded or skipped. */
  function ReadRecord(k: Kind, s: Bytes, p: nat, slots: Slots, seen: set<nat>): (r: Outcome)
    requires k.Sub? && |slots| == |k.fields| && p < |s|
    ensures r.More? ==> |r.slots| == |k.fields| && p < r.next <= |s|
    decreases k, 2
  {
    var t := Word32(s, p);
    if t.None? then Fail
    else if t.value.0 == 0 then Stop
    else
      var at := FindTag(k.fields, t.value.0 / 8);
      if at.None? then
        var e := SkipField(s, t.value.1, t.value.0 % 8);
        if e.None? then Fail else More(slots, seen, e.value)
      else
        var r := ReadField(k, at.value, s, t.value.1, t.value.0 % 8, slots[at.value]);
        Stored(k, at.value, slots, seen, r)
  }

  /** The message after one field was decoded. */
  function Stored(k: Kind, i: nat, slots: Slots, seen: set<nat>, r: Option<(seq<Value>, nat)>): Outcome
    requires k.Sub? && i < |k.fields| && |slots| == |k.fields|
  {
    if r.None? then Fail else More(Put(k.fields, slots, i, r.value.0), Mark(k.fields, i, seen), r.value.1)
  }

  /** `decode_static_field`: only an array looks at the wire type. */
  function ReadField(k: Kind, i: nat, s: Bytes, p: nat, wt: nat, items: seq<Value>): (r: Option<(seq<Value>, nat)>)
    requires k.Sub? && i < |k.fields|
    ensures r.Some? ==> p < r.value.1 <= |s|
    decreases k, 1
  {
    var f := k.fields[i];
    if !f.rule.Repeated? then
      var r := ReadValue(f.kind, s, p, if items == [] then Default(f.kind) else items[0]);
      if r.None? then None else Some(([r.value.0], r.value.1))
    else if wt == 2 && Packable(f.kind) then
      var b := Counted(s, p);
      if b.None? then None
      else
        var r := ReadPacked(f.kind, b.value.0, 0, items, f.rule.max);
        if r.None? then None else Some((r.value, b.value.1))
    else if |items| >= f.rule.max then None
    else
      var r := ReadValue(f.kind, s, p, Default(f.kind));
      if r.None? then None else Some((items + [r.value.0], r.value.1))
  }

  /** A value, read over the present one: a message is merged into it. */
  function ReadValue(k: Kind, s: Bytes, p: nat, over: Value): (r: Option<(Value, nat)>)
    ensures r.Some? ==> p < r.value.1 <= |s|
    decreases k, 4
  {
    if !k.Sub? then ReadScalar(k, s, p)
    else
      var b := Counted(s, p);
      if b.None? || !over.Msg? || |over.slots| != |k.fields| then None
      else
        var r := ReadBody(k, b.value.0, 0, over.slots, {});
        if r.None? then None else Some((Msg(r.value), b.value.1))
  }

  /** `pb_decode`. */
  function Read(k: Kind, s: Bytes): Option<Value>
    requires k.Sub?
  {
    var r := ReadBody(k, s, 0, DefaultSlots(k, |k.fields|), {});
    if r.None? then None else Some(Msg(r.value))
  }
}
