/**
 nanopb's field descriptors and message structures.  A message holds, for each
 field of its descriptor, the list of values present.
 */
module PbTypes {
  import opened Basics
  import opened Coding

  /** `PB_LTYPE`, with the field's data size where it matters. */
  datatype Kind =
    | Bool
    | UInt(width: nat)
    | SInt(width: nat)
    | ZigZag(width: nat)
    | Fixed32
    | Fixed64
    | Blob(max: nat)
    | Text(size: nat)
    | Sub(fields: seq<Field>)

  /** `PB_HTYPE`; `Singular` is an optional field without a has-flag. */
  datatype Rule = Required | Optional | Singular | Repeated(max: nat) | OneOf(group: nat)

  datatype Field = Field(tag: nat, rule: Rule, kind: Kind)

  datatype Value = Num(n: int) | Raw(b: Bytes) | Msg(slots: seq<seq<Value>>)

  /** One more than the largest unsigned number of a width. */
  function Top(width: nat): (t: nat)
    ensures t >= 256
  {
    if width == 8 then 0x100 else if width == 16 then 0x1_0000 else if width == 32 then TWO32 else TWO64
  }

  predicate IsWidth(w: nat) {
    w == 8 || w == 16 || w == 32 || w == 64
  }

  function Packable(k: Kind): bool {
    !(k.Blob? || k.Text? || k.Sub?)
  }

  // ---------------------------------------------------------------------
  // Descriptors
  // ---------------------------------------------------------------------

  ghost predicate DistinctTags(fs: seq<Field>) {
    forall i, j :: 0 <= i < j < |fs| ==> fs[i].tag != fs[j].tag
  }

  ghost predicate WellFormed(k: Kind)
    decreases k
  {
    match k
    case UInt(w) => IsWidth(w)
    case SInt(w) => IsWidth(w)
    case ZigZag(w) => IsWidth(w)
    case Text(size) => size > 0
    case Sub(fs) => DistinctTags(fs) && forall i :: 0 <= i < |fs| ==> 0 < fs[i].tag < 0x2000_0000 && WellFormed(fs[i].kind)
    case _ => true
  }

  // ---------------------------------------------------------------------
  // Values of a descriptor
  // ---------------------------------------------------------------------

  /** How many values a rule allows; `bounded` holds repeated fields to their array size. */
  predicate Count(rule: Rule, n: nat, bounded: bool) {
    match rule
    case Required => n == 1
    case Singular => n == 1
    case Optional => n <= 1
    case OneOf(_) => n <= 1
    case Repeated(max) => bounded ==> n <= max
  }

  /** At most one member of a union is set. */
  ghost predicate Exclusive(fs: seq<Field>, slots: seq<seq<Value>>)
    requires |slots| == |fs|
  {
    forall i, j :: 0 <= i < j < |fs| && fs[i].rule.OneOf? && fs[i].rule == fs[j].rule ==> slots[i] == [] || slots[j] == []
  }

  predicate Signed(n: int, width: nat) {
    var top: int := Top(width);
    -top <= 2 * n < top
  }

  predicate NoNul(b: Bytes) {
    forall i :: 0 <= i < |b| ==> b[i] != 0
  }

  /**
   The structure holds values of the descriptor's C types; `bounded` if its
   counts and lengths are within the arrays, which is what the encoder checks.
   A string without a terminator fills its array.
   */
  ghost predicate Typed(k: Kind, v: Value, bounded: bool)
    decreases k
  {
    match k
    case Bool => v.Num? && 0 <= v.n <= 1
    case UInt(w) => v.Num? && 0 <= v.n < Top(w)
    case SInt(w) => v.Num? && Signed(v.n, w)
    case ZigZag(w) => v.Num? && Signed(v.n, w)
    case Fixed32 => v.Num? && 0 <= v.n < TWO32
    case Fixed64 => v.Num? && 0 <= v.n < TWO64
    case Blob(max) => v.Raw? && (bounded ==> |v.b| <= max)
    case Text(size) => v.Raw? && NoNul(v.b) && |v.b| <= size
    case Sub(fs) =>
      && v.Msg? && |v.slots| == |fs| && Exclusive(fs, v.slots)
      && forall i :: 0 <= i < |fs| ==> Count(fs[i].rule, |v.slots[i]|, bounded) && AllTyped(k, i, v.slots[i], bounded)
  }

  /** The values of field `i`. */
  ghost predicate AllTyped(k: Kind, i: nat, items: seq<Value>, bounded: bool)
    requires k.Sub? && i < |k.fields|
    decreases k, 0
  {
    forall j :: 0 <= j < |items| ==> Typed(k.fields[i].kind, items[j], bounded)
  }

  ghost predicate Numbers(k: Kind, items: seq<Value>) {
    forall j :: 0 <= j < |items| ==> Typed(k, items[j], false)
  }

  // ---------------------------------------------------------------------
  // Defaults
  // ---------------------------------------------------------------------

  /** `pb_message_set_to_defaults`, for descriptors without explicit defaults. */
  function Default(k: Kind): Value
    decreases k, 1
  {
    match k
    case Blob(_) => Raw([])
    case Text(_) => Raw([])
    case Sub(fs) => Msg(DefaultSlots(k, |fs|))
    case _ => Num(0)
  }

  function DefaultSlots(k: Kind, n: nat): (r: seq<seq<Value>>)
    requires k.Sub? && n <= |k.fields|
    ensures |r| == n
    decreases k, 0, n
  {
    if n == 0 then [] else DefaultSlots(k, n - 1) + [DefaultSlot(k, n - 1)]
  }

  function DefaultSlot(k: Kind, i: nat): seq<Value>
    requires k.Sub? && i < |k.fields|
    decreases k, 0, 0
  {
    if k.fields[i].rule.Required? || k.fields[i].rule.Singular? then [Default(k.fields[i].kind)] else []
  }

  lemma {:induction false} DefaultAt(k: Kind, n: nat, i: nat)
    requires k.Sub? && i < n <= |k.fields|
    ensures DefaultSlots(k, n)[i] == DefaultSlot(k, i)
  {
    if i < n - 1 {
      DefaultAt(k, n - 1, i);
    }
  }

  /** `pb_check_proto3_default_value`: a singular field that need not be sent. */
  predicate IsZero(k: Kind, v: Value)
    decreases k, v, 1
  {
    match k
    case Blob(_) => v == Raw([])
    case Text(_) => v == Raw([])
    case Sub(fs) => v.Msg? && |v.slots| == |fs| && forall i :: 0 <= i < |fs| ==> ZeroSlot(k, v, i)
    case _ => v == Num(0)
  }

  predicate ZeroSlot(k: Kind, v: Value, i: nat)
    requires k.Sub? && v.Msg? && i < |k.fields| && |v.slots| == |k.fields|
    decreases k, v, 0
  {
    var items := v.slots[i];
    if k.fields[i].rule.Required? then false
    else if k.fields[i].rule.Singular? then |items| == 1 && IsZero(k.fields[i].kind, items[0])
    else items == []
  }

  /** What is not sent is what the receiver starts from. */
  lemma {:induction false} ZeroIsDefault(k: Kind, v: Value)
    requires IsZero(k, v)
    ensures v == Default(k)
    decreases k
  {
    if k.Sub? {
      var n := |k.fields|;
      forall i | 0 <= i < n ensures v.slots[i] == Default(k).slots[i] {
        DefaultAt(k, n, i);
        assert ZeroSlot(k, v, i);
        if k.fields[i].rule.Singular? {
          ZeroIsDefault(k.fields[i].kind, v.slots[i][0]);
        }
      }
      assert v.slots == Default(k).slots;
    }
  }

  // ---------------------------------------------------------------------
  // Receivers that know fewer fields
  // ---------------------------------------------------------------------

  /** The field with a tag, if there is one. */
  function FindTag(fs: seq<Field>, tag: nat): (r: Option<nat>)
    ensures r.Some? ==> r.value < |fs| && fs[r.value].tag == tag
    ensures r.None? ==> forall i :: 0 <= i < |fs| ==> fs[i].tag != tag
  {
    if fs == [] then None
    else if fs[|fs| - 1].tag == tag then Some(|fs| - 1)
    else FindTag(fs[..|fs| - 1], tag)
  }

  /** `small` is `big` with some fields left out, at any depth. */
  ghost predicate Narrower(small: Kind, big: Kind)
    decreases small
  {
    if small.Sub? then big.Sub? && forall i :: 0 <= i < |small.fields| ==> FieldOf(small, i, big)
    else small == big
  }

  /** Where the larger descriptor has field `i` of the smaller. */
  ghost function Place(small: Kind, i: nat, big: Kind): (at: nat)
    requires small.Sub? && big.Sub? && i < |small.fields| && FieldOf(small, i, big)
    ensures at < |big.fields| && big.fields[at].tag == small.fields[i].tag && big.fields[at].rule == small.fields[i].rule
    ensures Narrower(small.fields[i].kind, big.fields[at].kind)
    decreases small, 0, 0
  {
    FindTag(big.fields, small.fields[i].tag).value
  }

  ghost predicate FieldOf(small: Kind, i: nat, big: Kind)
    requires small.Sub? && big.Sub? && i < |small.fields|
    decreases small, 0
  {
    var f := small.fields[i];
    var at := FindTag(big.fields, f.tag);
    at.Some? && big.fields[at.value].rule == f.rule && Narrower(f.kind, big.fields[at.value].kind)
  }

  /** The message as a receiver with the smaller descriptor can know it. */
  ghost function Project(small: Kind, big: Kind, v: Value): Value
    requires Narrower(small, big)
    decreases small, 3, 0
  {
    if small.Sub? && v.Msg? && |v.slots| == |big.fields| then Msg(ProjectSlots(small, big, v, |small.fields|)) else v
  }

  ghost function ProjectSlots(small: Kind, big: Kind, v: Value, n: nat): (r: seq<seq<Value>>)
    requires Narrower(small, big) && small.Sub? && v.Msg? && |v.slots| == |big.fields| && n <= |small.fields|
    ensures |r| == n
    decreases small, 2, n
  {
    if n == 0 then []
    else
      assert FieldOf(small, n - 1, big);
      ProjectSlots(small, big, v, n - 1) + [ProjectItems(small, n - 1, big, v.slots[Place(small, n - 1, big)])]
  }

  ghost function ProjectItems(small: Kind, i: nat, big: Kind, items: seq<Value>): (r: seq<Value>)
    requires small.Sub? && big.Sub? && i < |small.fields| && FieldOf(small, i, big)
    ensures |r| == |items|
    decreases small, 1, |items|
  {
    if items == [] then []
    else
      ProjectItems(small, i, big, items[..|items| - 1]) + [Project(small.fields[i].kind, big.fields[Place(small, i, big)].kind, items[|items| - 1])]
  }

  lemma {:induction false} ProjectAt(small: Kind, big: Kind, v: Value, n: nat, i: nat)
    requires Narrower(small, big) && small.Sub? && v.Msg? && |v.slots| == |big.fields| && i < n <= |small.fields|
    ensures FieldOf(small, i, big)
    ensures ProjectSlots(small, big, v, n)[i] == ProjectItems(small, i, big, v.slots[Place(small, i, big)])
    decreases n
  {
    assert FieldOf(small, i, big);
    if i < n - 1 {
      ProjectAt(small, big, v, n - 1, i);
    }
  }

  /**
   The receiver has room for the terminators of all strings it knows.  (Other
   arrays need no room beyond what their sender had.)
   */
  ghost predicate Roomy(small: Kind, big: Kind, v: Value)
    requires Narrower(small, big)
    decreases small, 3, 0
  {
    if small.Sub? then
      v.Msg? && |v.slots| == |big.fields| ==>
        forall i :: 0 <= i < |small.fields| ==> FieldOf(small, i, big) && RoomyItems(small, i, big, v.slots[Place(small, i, big)])
    else HasRoom(small, v)
  }

  predicate HasRoom(k: Kind, v: Value) {
    k.Text? && v.Raw? ==> |v.b| < k.size
  }

  ghost predicate RoomyItems(small: Kind, i: nat, big: Kind, items: seq<Value>)
    requires small.Sub? && big.Sub? && i < |small.fields| && FieldOf(small, i, big)
    decreases small, 1, 0
  {
    forall j :: 0 <= j < |items| ==> Roomy(small.fields[i].kind, big.fields[Place(small, i, big)].kind, items[j])
  }

  /** A default message projects to a default message. */
  lemma {:induction false} ProjectDefault(small: Kind, big: Kind)
    requires Narrower(small, big)
    ensures Project(small, big, Default(big)) == Default(small)
    decreases small
  {
    if small.Sub? {
      var n, v := |small.fields|, Default(big);
      forall i | 0 <= i < n ensures ProjectSlots(small, big, v, n)[i] == DefaultSlots(small, n)[i] {
        ProjectAt(small, big, v, n, i);
        DefaultAt(small, n, i);
        var at := Place(small, i, big);
        DefaultAt(big, |big.fields|, at);
        ProjectDefault(small.fields[i].kind, big.fields[at].kind);
        OneItem(small, i, big, Default(big.fields[at].kind));
      }
      assert ProjectSlots(small, big, v, n) == DefaultSlots(small, n);
    }
  }

  lemma OneItem(small: Kind, i: nat, big: Kind, v: Value)
    requires small.Sub? && big.Sub? && i < |small.fields| && FieldOf(small, i, big)
    ensures ProjectItems(small, i, big, [v]) == [Project(small.fields[i].kind, big.fields[Place(small, i, big)].kind, v)]
  {
    assert [v][..0] == [];
  }

  /** With nothing left out, nothing is lost. */
  lemma {:induction false} NarrowerSelf(k: Kind)
    requires WellFormed(k)
    ensures Narrower(k, k)
    decreases k
  {
    if k.Sub? {
      forall i | 0 <= i < |k.fields| ensures FieldOf(k, i, k) {
        TagIsOwn(k.fields, i);
        NarrowerSelf(k.fields[i].kind);
      }
    }
  }

  lemma TagIsOwn(fs: seq<Field>, i: nat)
    requires DistinctTags(fs) && i < |fs|
    ensures FindTag(fs, fs[i].tag) == Some(i)
  {
  }

  lemma {:induction false} ProjectSelf(k: Kind, v: Value)
    requires WellFormed(k) && Narrower(k, k)
    ensures Project(k, k, v) == v
    decreases k, 1
  {
    if k.Sub? && v.Msg? && |v.slots| == |k.fields| {
      var n := |k.fields|;
      forall i | 0 <= i < n ensures ProjectSlots(k, k, v, n)[i] == v.slots[i] {
        TagIsOwn(k.fields, i);
        ProjectAt(k, k, v, n, i);
        ProjectItemsSelf(k, i, v.slots[i]);
      }
      assert ProjectSlots(k, k, v, n) == v.slots;
    }
  }

  lemma {:induction false} ProjectItemsSelf(k: Kind, i: nat, items: seq<Value>)
    requires WellFormed(k) && k.Sub? && i < |k.fields| && FieldOf(k, i, k) && FindTag(k.fields, k.fields[i].tag) == Some(i)
    ensures ProjectItems(k, i, k, items) == items
    decreases k, 0, |items|
  {
    if items != [] {
      ProjectItemsSelf(k, i, items[..|items| - 1]);
      ProjectSelf(k.fields[i].kind, items[|items| - 1]);
    }
  }
}
