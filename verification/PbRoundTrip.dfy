/**
 Reading back what was written.  The receiver may use a smaller descriptor than
 the sender: it gets the projection of the message onto the fields it knows.
 */
module PbRoundTrip {
  import opened Basics
  import opened Coding
  import opened PbTypes
  import opened PbWire
  import opened PbRead

  // ---------------------------------------------------------------------
  // Descriptors side by side
  // ---------------------------------------------------------------------

  /** Field `j` of the receiver is field `i` of the sender. */
  ghost predicate Knows(small: Kind, j: nat, big: Kind, i: nat)
    requires small.Sub? && big.Sub?
  {
    j < |small.fields| && FieldOf(small, j, big) && Place(small, j, big) == i
  }

  lemma Known(small: Kind, big: Kind, i: nat)
    requires Narrower(small, big) && small.Sub? && WellFormed(big) && i < |big.fields|
    requires FindTag(small.fields, big.fields[i].tag).Some?
    ensures Knows(small, FindTag(small.fields, big.fields[i].tag).value, big, i)
  {
    var j := FindTag(small.fields, big.fields[i].tag).value;
    assert FieldOf(small, j, big);
    TagIsOwn(big.fields, i);
  }

  lemma KnownOnce(small: Kind, big: Kind, i: nat, j: nat)
    requires Narrower(small, big) && small.Sub? && WellFormed(small) && Knows(small, j, big, i)
    ensures i < |big.fields| && FindTag(small.fields, big.fields[i].tag) == Some(j)
  {
    TagIsOwn(small.fields, j);
  }

  // ---------------------------------------------------------------------
  // The state after the first fields
  // ---------------------------------------------------------------------

  ghost predicate SlotUpto(small: Kind, big: Kind, ms: Slots, i: nat, slots: Slots, j: nat)
    requires small.Sub? && big.Sub? && |ms| == |big.fields| && |slots| == |small.fields| && j < |slots| && FieldOf(small, j, big)
  {
    var at := Place(small, j, big);
    slots[j] == if at < i then ProjectItems(small, j, big, ms[at]) else DefaultSlot(small, j)
  }

  /** The first `i` fields of the sender have been read, and nothing else. */
  ghost predicate Upto(small: Kind, big: Kind, ms: Slots, i: nat, slots: Slots)
    requires small.Sub? && big.Sub?
  {
    && |ms| == |big.fields| && |slots| == |small.fields|
    && forall j :: 0 <= j < |small.fields| ==> FieldOf(small, j, big) && SlotUpto(small, big, ms, i, slots, j)
  }

  ghost predicate SeenUpto(small: Kind, big: Kind, i: nat, seen: set<nat>)
    requires small.Sub? && big.Sub?
  {
    forall j :: 0 <= j < |small.fields| && Tracked(small.fields, j) ==> FieldOf(small, j, big) && (Place(small, j, big) < i ==> j in seen)
  }

  lemma UptoStart(small: Kind, big: Kind, ms: Slots)
    requires Narrower(small, big) && small.Sub? && |ms| == |big.fields|
    ensures Upto(small, big, ms, 0, DefaultSlots(small, |small.fields|)) && SeenUpto(small, big, 0, {})
  {
    forall j | 0 <= j < |small.fields| ensures FieldOf(small, j, big) && SlotUpto(small, big, ms, 0, DefaultSlots(small, |small.fields|), j) {
      assert FieldOf(small, j, big);
      DefaultAt(small, |small.fields|, j);
    }
    forall j | 0 <= j < |small.fields| && Tracked(small.fields, j) ensures FieldOf(small, j, big) {
    }
  }

  lemma UptoEnd(small: Kind, big: Kind, v: Value, slots: Slots, seen: set<nat>)
    requires Narrower(small, big) && small.Sub? && v.Msg?
    requires Upto(small, big, v.slots, |big.fields|, slots) && SeenUpto(small, big, |big.fields|, seen)
    ensures Finish(small, slots, seen) == Some(ProjectSlots(small, big, v, |small.fields|))
  {
    var n := |small.fields|;
    forall j | 0 <= j < n ensures slots[j] == ProjectSlots(small, big, v, n)[j] {
      ProjectAt(small, big, v, n, j);
      assert SlotUpto(small, big, v.slots, |big.fields|, slots, j);
    }
    assert slots == ProjectSlots(small, big, v, n);
  }

  /** A field the receiver does not know changes nothing. */
  lemma UptoUnknown(small: Kind, big: Kind, ms: Slots, i: nat, slots: Slots, seen: set<nat>)
    requires Narrower(small, big) && small.Sub? && Upto(small, big, ms, i, slots) && SeenUpto(small, big, i, seen)
    requires i < |big.fields| && FindTag(small.fields, big.fields[i].tag).None?
    ensures Upto(small, big, ms, i + 1, slots) && SeenUpto(small, big, i + 1, seen)
  {
    forall j | 0 <= j < |small.fields| ensures FieldOf(small, j, big) && SlotUpto(small, big, ms, i + 1, slots, j) {
      assert SlotUpto(small, big, ms, i, slots, j);
      assert small.fields[j].tag != big.fields[i].tag;
    }
  }

  lemma PutSlot(small: Kind, big: Kind, ms: Slots, i: nat, j: nat, slots: Slots, x: nat)
    requires Narrower(small, big) && small.Sub? && WellFormed(small) && Upto(small, big, ms, i, slots) && x < |small.fields|
    requires i < |big.fields| && Knows(small, j, big, i) && Exclusive(big.fields, ms) && ms[i] != []
    ensures FieldOf(small, x, big) && SlotUpto(small, big, ms, i + 1, Put(small.fields, slots, j, ProjectItems(small, j, big, ms[i])), x)
  {
    assert SlotUpto(small, big, ms, i, slots, x);
    var at := Place(small, x, big);
    if x != j {
      assert small.fields[x].tag != small.fields[j].tag;
      if small.fields[j].rule.OneOf? && small.fields[x].rule == small.fields[j].rule {
        assert ms[at] == [];
      }
    }
  }

  lemma SeenPut(small: Kind, big: Kind, i: nat, j: nat, seen: set<nat>)
    requires Narrower(small, big) && small.Sub? && WellFormed(small) && SeenUpto(small, big, i, seen) && Knows(small, j, big, i)
    ensures SeenUpto(small, big, i + 1, Mark(small.fields, j, seen))
  {
    forall x | 0 <= x < |small.fields| && Tracked(small.fields, x) && Place(small, x, big) < i + 1 ensures x in Mark(small.fields, j, seen) {
      assert x != j ==> small.fields[x].tag != small.fields[j].tag;
    }
  }

  /** Storing a known field's values, all of them. */
  lemma UptoPut(small: Kind, big: Kind, ms: Slots, i: nat, j: nat, slots: Slots, after: Slots)
    requires Narrower(small, big) && small.Sub? && WellFormed(small) && Upto(small, big, ms, i, slots)
    requires i < |big.fields| && Knows(small, j, big, i) && Exclusive(big.fields, ms) && ms[i] != []
    requires after == Put(small.fields, slots, j, ProjectItems(small, j, big, ms[i]))
    ensures Upto(small, big, ms, i + 1, after)
  {
    hide SlotUpto, WellFormed, Exclusive, Put;
    forall x | 0 <= x < |small.fields| ensures FieldOf(small, x, big) && SlotUpto(small, big, ms, i + 1, after, x) {
      PutSlot(small, big, ms, i, j, slots, x);
    }
  }

  /** A field that is not sent is what the receiver starts with. */
  lemma UptoOmitted(small: Kind, big: Kind, ms: Slots, i: nat, slots: Slots, seen: set<nat>)
    requires Narrower(small, big) && small.Sub? && WellFormed(small) && WellFormed(big)
    requires Upto(small, big, ms, i, slots) && SeenUpto(small, big, i, seen)
    requires i < |big.fields| && Count(big.fields[i].rule, |ms[i]|, true) && Omitted(big, i, ms[i])
    ensures Upto(small, big, ms, i + 1, slots) && SeenUpto(small, big, i + 1, seen)
  {
    forall j | 0 <= j < |small.fields| ensures FieldOf(small, j, big) && SlotUpto(small, big, ms, i + 1, slots, j) {
      assert SlotUpto(small, big, ms, i, slots, j);
      if Place(small, j, big) == i {
        OmittedIsDefault(small, j, big, i, ms[i]);
      }
    }
  }

  lemma OmittedIsDefault(small: Kind, j: nat, big: Kind, i: nat, items: seq<Value>)
    requires Narrower(small, big) && small.Sub? && i < |big.fields| && Knows(small, j, big, i)
    requires Count(big.fields[i].rule, |items|, true) && Omitted(big, i, items)
    ensures ProjectItems(small, j, big, items) == DefaultSlot(small, j)
  {
    if items != [] {
      assert items == [items[0]];
      ZeroIsDefault(big.fields[i].kind, items[0]);
      OneItem(small, j, big, items[0]);
      ProjectDefault(small.fields[j].kind, big.fields[i].kind);
    }
  }

  // ---------------------------------------------------------------------
  // Room
  // ---------------------------------------------------------------------

  /** The receiver has room for field `i` of the sender, or does not know it. */
  ghost predicate RoomyAt(small: Kind, big: Kind, ms: Slots, i: nat)
    requires small.Sub? && big.Sub? && |ms| == |big.fields| && i < |ms|
  {
    forall j :: 0 <= j < |small.fields| && Knows(small, j, big, i) ==> RoomyItems(small, j, big, ms[i])
  }

  ghost predicate RoomyFrom(small: Kind, big: Kind, ms: Slots, i: nat)
    requires small.Sub? && big.Sub? && |ms| == |big.fields|
  {
    forall x :: i <= x < |ms| ==> RoomyAt(small, big, ms, x)
  }

  lemma RoomyParts(small: Kind, big: Kind, v: Value)
    requires Narrower(small, big) && small.Sub? && v.Msg? && |v.slots| == |big.fields|
    ensures Roomy(small, big, v) <==> RoomyFrom(small, big, v.slots, 0)
  {
    if Roomy(small, big, v) {
      forall x | 0 <= x < |v.slots| ensures RoomyAt(small, big, v.slots, x) {
      }
    }
    if RoomyFrom(small, big, v.slots, 0) {
      forall j | 0 <= j < |small.fields| ensures FieldOf(small, j, big) && RoomyItems(small, j, big, v.slots[Place(small, j, big)]) {
        assert FieldOf(small, j, big);
        assert RoomyAt(small, big, v.slots, Place(small, j, big));
        assert Knows(small, j, big, Place(small, j, big));
      }
    }
  }

  /** What is not sent needs no room. */
  lemma {:induction false} ZeroIsRoomy(small: Kind, big: Kind, v: Value)
    requires Narrower(small, big) && WellFormed(small) && IsZero(big, v)
    ensures Roomy(small, big, v)
    decreases small
  {
    if small.Sub? {
      forall j | 0 <= j < |small.fields| ensures FieldOf(small, j, big) && RoomyItems(small, j, big, v.slots[Place(small, j, big)]) {
        assert FieldOf(small, j, big);
        var at := Place(small, j, big);
        assert ZeroSlot(big, v, at);
        if big.fields[at].rule.Singular? {
          ZeroIsRoomy(small.fields[j].kind, big.fields[at].kind, v.slots[at][0]);
        }
      }
    }
  }

  lemma OmittedIsRoomy(small: Kind, big: Kind, ms: Slots, i: nat)
    requires Narrower(small, big) && small.Sub? && WellFormed(small) && |ms| == |big.fields| && i < |ms|
    requires Count(big.fields[i].rule, |ms[i]|, true) && Omitted(big, i, ms[i])
    ensures RoomyAt(small, big, ms, i)
  {
    forall j | 0 <= j < |small.fields| && Knows(small, j, big, i) ensures RoomyItems(small, j, big, ms[i]) {
      if ms[i] != [] {
        ZeroIsRoomy(small.fields[j].kind, big.fields[i].kind, ms[i][0]);
      }
    }
  }

  /** Packed arrays are read by receivers of any kind that knows them, and lose nothing. */
  lemma {:induction false} ScalarItems(small: Kind, j: nat, big: Kind, items: seq<Value>)
    requires small.Sub? && big.Sub? && j < |small.fields| && FieldOf(small, j, big) && !small.fields[j].kind.Sub?
    ensures ProjectItems(small, j, big, items) == items
    decreases |items|
  {
    if items != [] {
      ScalarItems(small, j, big, items[..|items| - 1]);
    }
  }

  // ---------------------------------------------------------------------
  // The reader as a function of where it stands
  // ---------------------------------------------------------------------

  datatype Point = Point(p: nat, slots: Slots, seen: set<nat>)

  predicate In(k: Kind, s: Bytes, a: Point) {
    k.Sub? && |a.slots| == |k.fields| && a.p <= |s|
  }

  function Reader(k: Kind, s: Bytes): Point -> Option<Slots> {
    (a: Point) => if In(k, s, a) then ReadBody(k, s, a.p, a.slots, a.seen) else None
  }

  ghost predicate Faithful(read: Point -> Option<Slots>, k: Kind, s: Bytes) {
    forall a: Point {:trigger In(k, s, a)} :: In(k, s, a) ==> read(a) == ReadBody(k, s, a.p, a.slots, a.seen)
  }

  lemma ReaderIsFaithful(k: Kind, s: Bytes)
    ensures Faithful(Reader(k, s), k, s)
  {
  }

  // ---------------------------------------------------------------------
  // One record
  // ---------------------------------------------------------------------

  lemma KnownRecord(k: Kind, j: nat, tag: nat, wt: nat, s: Bytes, p: nat, q: nat, slots: Slots, seen: set<nat>)
    requires k.Sub? && |slots| == |k.fields| && 0 < tag < 0x2000_0000 && wt < 8
    requires At(s, p, TagBytes(tag, wt)) && q == p + |TagBytes(tag, wt)| && FindTag(k.fields, tag) == Some(j)
    ensures p < |s| && ReadRecord(k, s, p, slots, seen) == Stored(k, j, slots, seen, ReadField(k, j, s, q, wt, slots[j]))
  {
    TagReads(s, p, tag, wt);
  }

  /** A record of a known field: what is decoded is stored. */
  lemma KnownStep(read: Point -> Option<Slots>, k: Kind, j: nat, tag: nat, wt: nat, s: Bytes, p: nat, q: nat, slots: Slots, seen: set<nat>, items: seq<Value>, end: nat)
    requires Faithful(read, k, s)
    requires k.Sub? && |slots| == |k.fields| && 0 < tag < 0x2000_0000 && wt < 8
    requires At(s, p, TagBytes(tag, wt)) && q == p + |TagBytes(tag, wt)| && FindTag(k.fields, tag) == Some(j)
    requires ReadField(k, j, s, q, wt, slots[j]) == Some((items, end))
    ensures read(Point(p, slots, seen)) == read(Point(end, Put(k.fields, slots, j, items), Mark(k.fields, j, seen)))
  {
    KnownRecord(k, j, tag, wt, s, p, q, slots, seen);
    assert In(k, s, Point(p, slots, seen)) && In(k, s, Point(end, Put(k.fields, slots, j, items), Mark(k.fields, j, seen)));
  }

  /** What cannot be decoded ends it all. */
  lemma KnownFails(read: Point -> Option<Slots>, k: Kind, j: nat, tag: nat, wt: nat, s: Bytes, p: nat, q: nat, slots: Slots, seen: set<nat>)
    requires Faithful(read, k, s)
    requires k.Sub? && |slots| == |k.fields| && 0 < tag < 0x2000_0000 && wt < 8
    requires At(s, p, TagBytes(tag, wt)) && q == p + |TagBytes(tag, wt)| && FindTag(k.fields, tag) == Some(j)
    requires ReadField(k, j, s, q, wt, slots[j]) == None
    ensures read(Point(p, slots, seen)) == None
  {
    KnownRecord(k, j, tag, wt, s, p, q, slots, seen);
    assert In(k, s, Point(p, slots, seen));
  }

  lemma UnknownRecord(k: Kind, tag: nat, wt: nat, s: Bytes, p: nat, slots: Slots, seen: set<nat>, end: nat)
    requires k.Sub? && |slots| == |k.fields| && 0 < tag < 0x2000_0000 && wt < 8 && At(s, p, TagBytes(tag, wt))
    requires FindTag(k.fields, tag) == None
    requires SkipField(s, p + |TagBytes(tag, wt)|, wt) == Some(end)
    ensures p < end <= |s| && ReadRecord(k, s, p, slots, seen) == More(slots, seen, end)
  {
    TagReads(s, p, tag, wt);
  }

  lemma UnknownStep(read: Point -> Option<Slots>, k: Kind, tag: nat, wt: nat, s: Bytes, p: nat, slots: Slots, seen: set<nat>, end: nat)
    requires Faithful(read, k, s)
    requires k.Sub? && |slots| == |k.fields| && 0 < tag < 0x2000_0000 && wt < 8 && At(s, p, TagBytes(tag, wt))
    requires FindTag(k.fields, tag) == None
    requires SkipField(s, p + |TagBytes(tag, wt)|, wt) == Some(end)
    ensures read(Point(p, slots, seen)) == read(Point(end, slots, seen))
  {
    UnknownRecord(k, tag, wt, s, p, slots, seen, end);
    assert In(k, s, Point(p, slots, seen)) && In(k, s, Point(end, slots, seen));
  }

  lemma SkipsRecord(read: Point -> Option<Slots>, small: Kind, f: Field, v: Value, s: Bytes, p: nat, slots: Slots, seen: set<nat>)
    requires Faithful(read, small, s)
    requires small.Sub? && |slots| == |small.fields| && 0 < f.tag < 0x2000_0000
    requires FindTag(small.fields, f.tag) == None && Typed(f.kind, v, false)
    requires |s| < TWO32 && At(s, p, TagBytes(f.tag, WireType(f.kind)))
    requires At(s, p + |TagBytes(f.tag, WireType(f.kind))|, ValueBytes(f.kind, v))
    ensures read(Point(p, slots, seen))
      == read(Point(p + |TagBytes(f.tag, WireType(f.kind))| + |ValueBytes(f.kind, v)|, slots, seen))
  {
    var q := p + |TagBytes(f.tag, WireType(f.kind))|;
    SkipsValue(f.kind, v, s, q);
    UnknownStep(read, small, f.tag, WireType(f.kind), s, p, slots, seen, q + |ValueBytes(f.kind, v)|);
  }

  /** The first of several records, in its two parts. */
  lemma FirstRecord(k: Kind, i: nat, items: seq<Value>, x: nat, s: Bytes, p: nat) returns (q: nat, next: nat)
    requires k.Sub? && i < |k.fields| && x < |items| && At(s, p, Records(k, i, items, x))
    ensures At(s, p, TagBytes(k.fields[i].tag, WireType(k.fields[i].kind))) && q == p + |TagBytes(k.fields[i].tag, WireType(k.fields[i].kind))|
    ensures At(s, q, ValueBytes(k.fields[i].kind, items[x])) && next == q + |ValueBytes(k.fields[i].kind, items[x])|
    ensures At(s, next, Records(k, i, items, x + 1)) && p + |Records(k, i, items, x)| == next + |Records(k, i, items, x + 1)|
  {
    var t, v := TagBytes(k.fields[i].tag, WireType(k.fields[i].kind)), ValueBytes(k.fields[i].kind, items[x]);
    q, next := p + |t|, p + |t| + |v|;
    assert Records(k, i, items, x) == (t + v) + Records(k, i, items, x + 1);
    AtAppend(s, p, t + v, Records(k, i, items, x + 1));
    AtAppend(s, p, t, v);
  }

  /** Values the receiver does not know are skipped, whatever their type. */
  lemma {:induction false} SkipsRecords(read: Point -> Option<Slots>, small: Kind, big: Kind, i: nat, items: seq<Value>, x: nat,
                                        s: Bytes, p: nat, slots: Slots, seen: set<nat>)
    requires Faithful(read, small, s)
    requires small.Sub? && big.Sub? && |slots| == |small.fields| && i < |big.fields| && x <= |items|
    requires 0 < big.fields[i].tag < 0x2000_0000
    requires FindTag(small.fields, big.fields[i].tag) == None && AllTyped(big, i, items, false)
    requires |s| < TWO32 && At(s, p, Records(big, i, items, x))
    ensures read(Point(p, slots, seen)) == read(Point(p + |Records(big, i, items, x)|, slots, seen))
    decreases |items| - x
  {
    if x < |items| {
      var q, next := FirstRecord(big, i, items, x, s, p);
      SkipsRecord(read, small, big.fields[i], items[x], s, p, slots, seen);
      SkipsRecords(read, small, big, i, items, x + 1, s, next, slots, seen);
    }
  }

  lemma {:induction false} Unbounded(k: Kind, v: Value)
    requires Typed(k, v, true)
    ensures Typed(k, v, false)
    decreases k
  {
    if k.Sub? {
      forall i | 0 <= i < |k.fields| ensures AllTyped(k, i, v.slots[i], false) {
        forall j | 0 <= j < |v.slots[i]| ensures Typed(k.fields[i].kind, v.slots[i][j], false) {
          Unbounded(k.fields[i].kind, v.slots[i][j]);
        }
      }
    }
  }

  lemma SkipsPacked(read: Point -> Option<Slots>, small: Kind, tag: nat, payload: Bytes, s: Bytes, p: nat, q: nat, slots: Slots, seen: set<nat>)
    requires Faithful(read, small, s)
    requires small.Sub? && |slots| == |small.fields| && 0 < tag < 0x2000_0000 && FindTag(small.fields, tag) == None
    requires |s| < TWO32 && At(s, p, TagBytes(tag, 2)) && q == p + |TagBytes(tag, 2)| && At(s, q, Delimited(payload))
    ensures read(Point(p, slots, seen)) == read(Point(q + |Delimited(payload)|, slots, seen))
  {
    CountedReads(s, q, payload);
    UnknownStep(read, small, tag, 2, s, p, slots, seen, q + |Delimited(payload)|);
  }

  lemma OnePacked(k: Kind, items: seq<Value>, v: Value, b: Bytes, p: nat, max: nat)
    requires WellFormed(k) && Packable(k) && Typed(k, v, false) && |items| < max
    requires At(b, p, ScalarBytes(k, v))
    ensures p < |b| && ReadPacked(k, b, p, items, max) == ReadPacked(k, b, p + |ScalarBytes(k, v)|, items + [v], max)
  {
    NumberReads(k, v, b, p);
  }

  lemma FirstNumber(k: Kind, items: seq<Value>, x: nat, b: Bytes, p: nat) returns (q: nat)
    requires Packable(k) && x < |items| && EndsWith(b, p, Payload(k, items, x))
    ensures At(b, p, ScalarBytes(k, items[x])) && q == p + |ScalarBytes(k, items[x])| && EndsWith(b, q, Payload(k, items, x + 1))
  {
    AtAppend(b, p, ScalarBytes(k, items[x]), Payload(k, items, x + 1));
    q := p + |ScalarBytes(k, items[x])|;
  }

  lemma NextPacked(k: Kind, items: seq<Value>, x: nat, b: Bytes, p: nat, max: nat) returns (q: nat)
    requires WellFormed(k) && Packable(k) && x < |items| <= max && Numbers(k, items)
    requires EndsWith(b, p, Payload(k, items, x))
    ensures EndsWith(b, q, Payload(k, items, x + 1))
    ensures ReadPacked(k, b, p, items[..x], max) == ReadPacked(k, b, q, items[..x + 1], max)
  {
    hide WellFormed, EndsWith, Payload, ReadPacked;
    q := FirstNumber(k, items, x, b, p);
    OnePacked(k, items[..x], items[x], b, p, max);
    assert items[..x] + [items[x]] == items[..x + 1];
  }

  lemma {:induction false} PayloadReads(k: Kind, items: seq<Value>, x: nat, b: Bytes, p: nat, max: nat)
    requires WellFormed(k) && Packable(k) && x <= |items| <= max && Numbers(k, items)
    requires EndsWith(b, p, Payload(k, items, x))
    ensures ReadPacked(k, b, p, items[..x], max) == Some(items)
    decreases |items| - x
  {
    hide WellFormed, Numbers, Packable, ScalarBytes;
    if x == |items| {
      assert items[..x] == items;
    } else {
      var q := NextPacked(k, items, x, b, p, max);
      PayloadReads(k, items, x + 1, b, q, max);
    }
  }

  /** A packed array is read in one piece. */
  lemma PackedField(k: Kind, j: nat, items: seq<Value>, s: Bytes, p: nat, payload: Bytes, was: seq<Value>)
    requires WellFormed(k) && k.Sub? && j < |k.fields| && Packed(k.fields[j])
    requires |items| <= k.fields[j].rule.max && Numbers(k.fields[j].kind, items)
    requires payload == Payload(k.fields[j].kind, items, 0) && |s| < TWO32 && At(s, p, Delimited(payload)) && was == []
    ensures ReadField(k, j, s, p, 2, was) == Some((items, p + |Delimited(payload)|))
  {
    CountedReads(s, p, payload);
    assert items[..0] == was;
    PayloadReads(k.fields[j].kind, items, 0, payload, 0, k.fields[j].rule.max);
  }

  // ---------------------------------------------------------------------
  // Fields and messages
  // ---------------------------------------------------------------------

  /** Two descriptors a sender and a receiver may use. */
  ghost predicate Pair(small: Kind, big: Kind) {
    Narrower(small, big) && WellFormed(small) && WellFormed(big)
  }

  lemma PairBelow(small: Kind, j: nat, big: Kind, i: nat)
    requires Pair(small, big) && small.Sub? && Knows(small, j, big, i)
    ensures i < |big.fields| && Pair(small.fields[j].kind, big.fields[i].kind) && small.fields[j].rule == big.fields[i].rule
    ensures small.fields[j].tag == big.fields[i].tag && 0 < small.fields[j].tag < 0x2000_0000
    ensures FindTag(small.fields, small.fields[j].tag) == Some(j)
    ensures WireType(small.fields[j].kind) == WireType(big.fields[i].kind) && Packable(small.fields[j].kind) == Packable(big.fields[i].kind)
  {
    TagIsOwn(small.fields, j);
  }

  ghost predicate RoomyItemsFrom(small: Kind, j: nat, big: Kind, items: seq<Value>, x: nat)
    requires small.Sub? && big.Sub? && j < |small.fields| && FieldOf(small, j, big)
  {
    forall y :: x <= y < |items| ==> Roomy(small.fields[j].kind, big.fields[Place(small, j, big)].kind, items[y])
  }

  lemma ProjectNext(small: Kind, j: nat, big: Kind, items: seq<Value>, x: nat)
    requires small.Sub? && big.Sub? && j < |small.fields| && FieldOf(small, j, big) && x < |items|
    ensures ProjectItems(small, j, big, items[..x + 1])
      == ProjectItems(small, j, big, items[..x]) + [Project(small.fields[j].kind, big.fields[Place(small, j, big)].kind, items[x])]
  {
    assert items[..x + 1][..x] == items[..x];
  }

  /**
   One value, read over its default, is its projection; and it cannot be read
   at all exactly when the receiver lacks room for one of its strings.
   */
  lemma {:induction false} ValueReads(small: Kind, big: Kind, v: Value, s: Bytes, p: nat)
    requires Pair(small, big) && Typed(big, v, true) && |s| < TWO32 && At(s, p, ValueBytes(big, v))
    ensures ReadValue(small, s, p, Default(small))
      == if Roomy(small, big, v) then Some((Project(small, big, v), p + |ValueBytes(big, v)|)) else None
    decreases small, 4
  {
    hide Body;
    if small.Sub? {
      CountedReads(s, p, Body(big, v));
      BodyReads(small, big, v);
    } else {
      ScalarReads(big, v, s, p);
    }
  }

  lemma {:induction false} BodyReads(small: Kind, big: Kind, v: Value)
    requires Pair(small, big) && small.Sub? && Typed(big, v, true) && |Body(big, v)| < TWO32
    ensures ReadBody(small, Body(big, v), 0, DefaultSlots(small, |small.fields|), {})
      == if Roomy(small, big, v) then Some(ProjectSlots(small, big, v, |small.fields|)) else None
    decreases small, 3
  {
    var read := Reader(small, Body(big, v));
    ReaderIsFaithful(small, Body(big, v));
    UptoStart(small, big, v.slots);
    RoomyParts(small, big, v);
    FieldsRead(read, small, big, v, 0, Body(big, v), 0, DefaultSlots(small, |small.fields|), {});
  }

  lemma {:induction false} FieldsRead(read: Point -> Option<Slots>, small: Kind, big: Kind, v: Value, i: nat, s: Bytes, p: nat, slots: Slots, seen: set<nat>)
    requires Faithful(read, small, s)
    requires Pair(small, big) && small.Sub? && Typed(big, v, true) && |s| < TWO32 && i <= |v.slots|
    requires Upto(small, big, v.slots, i, slots) && SeenUpto(small, big, i, seen)
    requires EndsWith(s, p, FieldsFrom(big, v.slots, i))
    ensures read(Point(p, slots, seen))
      == if RoomyFrom(small, big, v.slots, i) then Some(ProjectSlots(small, big, v, |small.fields|)) else None
    decreases small, 2, |v.slots| - i
  {
    if i == |v.slots| {
      UptoEnd(small, big, v, slots, seen);
      assert In(small, s, Point(p, slots, seen));
    } else {
      AtAppend(s, p, FieldBytes(big, i, v.slots[i]), FieldsFrom(big, v.slots, i + 1));
      var slots', seen' := FieldReads(read, small, big, v.slots, i, s, p, slots, seen);
      if RoomyAt(small, big, v.slots, i) {
        FieldsRead(read, small, big, v, i + 1, s, p + |FieldBytes(big, i, v.slots[i])|, slots', seen');
      }
    }
  }

  ghost predicate Sendable(big: Kind, ms: Slots, i: nat)
    requires big.Sub? && |ms| == |big.fields| && i < |ms|
  {
    Exclusive(big.fields, ms) && Count(big.fields[i].rule, |ms[i]|, true) && AllTyped(big, i, ms[i], true)
  }

  /** One field of the sender, in whatever form it was sent. */
  lemma {:induction false} FieldReads(read: Point -> Option<Slots>, small: Kind, big: Kind, ms: Slots, i: nat, s: Bytes, p: nat, slots: Slots, seen: set<nat>)
    returns (slots': Slots, seen': set<nat>)
    requires Faithful(read, small, s)
    requires Pair(small, big) && small.Sub? && |ms| == |big.fields| && i < |ms| && Sendable(big, ms, i) && |s| < TWO32
    requires Upto(small, big, ms, i, slots) && SeenUpto(small, big, i, seen)
    requires At(s, p, FieldBytes(big, i, ms[i]))
    ensures Upto(small, big, ms, i + 1, slots') && SeenUpto(small, big, i + 1, seen')
    ensures read(Point(p, slots, seen))
      == if RoomyAt(small, big, ms, i) then read(Point(p + |FieldBytes(big, i, ms[i])|, slots', seen')) else None
    decreases small, 1
  {
    var f := FindTag(small.fields, big.fields[i].tag);
    slots', seen' := slots, seen;
    if Omitted(big, i, ms[i]) {
      UptoOmitted(small, big, ms, i, slots, seen);
      OmittedIsRoomy(small, big, ms, i);
    } else if f.None? {
      UptoUnknown(small, big, ms, i, slots, seen);
      UnknownField(read, small, big, ms, i, s, p, slots, seen);
    } else {
      var j := f.value;
      Known(small, big, i);
      slots', seen' := Put(small.fields, slots, j, ProjectItems(small, j, big, ms[i])), Mark(small.fields, j, seen);
      UptoPut(small, big, ms, i, j, slots, slots');
      SeenPut(small, big, i, j, seen);
      KnownField(read, small, big, ms, i, j, s, p, slots, seen);
    }
  }

  lemma NotKnown(small: Kind, big: Kind, i: nat)
    requires Pair(small, big) && small.Sub? && i < |big.fields| && FindTag(small.fields, big.fields[i].tag) == None
    ensures forall j :: 0 <= j < |small.fields| ==> !Knows(small, j, big, i)
  {
    forall j | 0 <= j < |small.fields| ensures !Knows(small, j, big, i) {
      if Knows(small, j, big, i) {
        KnownOnce(small, big, i, j);
      }
    }
  }

  lemma UnknownField(read: Point -> Option<Slots>, small: Kind, big: Kind, ms: Slots, i: nat, s: Bytes, p: nat, slots: Slots, seen: set<nat>)
    requires Faithful(read, small, s)
    requires Pair(small, big) && small.Sub? && |ms| == |big.fields| && i < |ms| && Sendable(big, ms, i) && |s| < TWO32
    requires |slots| == |small.fields| && FindTag(small.fields, big.fields[i].tag) == None && !Omitted(big, i, ms[i])
    requires At(s, p, FieldBytes(big, i, ms[i]))
    ensures RoomyAt(small, big, ms, i)
    ensures read(Point(p, slots, seen)) == read(Point(p + |FieldBytes(big, i, ms[i])|, slots, seen))
  {
    NotKnown(small, big, i);
    var f := big.fields[i];
    if Packed(f) {
      var payload := Payload(f.kind, ms[i], 0);
      AtAppend(s, p, TagBytes(f.tag, 2), Delimited(payload));
      SkipsPacked(read, small, f.tag, payload, s, p, p + |TagBytes(f.tag, 2)|, slots, seen);
    } else {
      AllUnbounded(big, i, ms[i]);
      SkipsRecords(read, small, big, i, ms[i], 0, s, p, slots, seen);
    }
  }

  lemma AllUnbounded(k: Kind, i: nat, items: seq<Value>)
    requires k.Sub? && i < |k.fields| && AllTyped(k, i, items, true)
    ensures AllTyped(k, i, items, false)
  {
    forall y | 0 <= y < |items| ensures Typed(k.fields[i].kind, items[y], false) {
      Unbounded(k.fields[i].kind, items[y]);
    }
  }

  lemma {:induction false} KnownField(read: Point -> Option<Slots>, small: Kind, big: Kind, ms: Slots, i: nat, j: nat, s: Bytes, p: nat, slots: Slots, seen: set<nat>)
    requires Faithful(read, small, s)
    requires Pair(small, big) && small.Sub? && |ms| == |big.fields| && i < |ms| && Sendable(big, ms, i) && |s| < TWO32
    requires Upto(small, big, ms, i, slots) && Knows(small, j, big, i) && !Omitted(big, i, ms[i])
    requires At(s, p, FieldBytes(big, i, ms[i]))
    ensures read(Point(p, slots, seen))
      == if RoomyAt(small, big, ms, i)
         then read(Point(p + |FieldBytes(big, i, ms[i])|, Put(small.fields, slots, j, ProjectItems(small, j, big, ms[i])), Mark(small.fields, j, seen)))
         else None
    decreases small, 0, 1, 0
  {
    hide RoomyAt, ProjectItems;
    RoomyKnown(small, big, ms, i, j);
    assert SlotUpto(small, big, ms, i, slots, j);
    PairBelow(small, j, big, i);
    if Packed(big.fields[i]) {
      PackedKind(small, j, big, i, ms[i]);
      KnownPacked(read, small, big, ms[i], i, j, s, p, slots, seen);
    } else if small.fields[j].rule.Repeated? {
      assert ms[i][..0] == [];
      RepeatedReads(read, small, big, i, j, ms[i], 0, s, p, slots, seen);
    } else {
      assert ms[i] == [ms[i][0]];
      OneItem(small, j, big, ms[i][0]);
      SingleReads(read, small, big, i, j, ms[i][0], s, p, slots, seen);
    }
  }

  lemma RoomyKnown(small: Kind, big: Kind, ms: Slots, i: nat, j: nat)
    requires Pair(small, big) && small.Sub? && |ms| == |big.fields| && i < |ms| && Knows(small, j, big, i)
    ensures RoomyAt(small, big, ms, i) <==> RoomyItemsFrom(small, j, big, ms[i], 0)
  {
    KnownOnce(small, big, i, j);
    assert RoomyItemsFrom(small, j, big, ms[i], 0) <==> RoomyItems(small, j, big, ms[i]);
    forall j2 | 0 <= j2 < |small.fields| && Knows(small, j2, big, i) ensures j2 == j {
      KnownOnce(small, big, i, j2);
    }
  }

  lemma PackedBytes(k: Kind, i: nat, items: seq<Value>, s: Bytes, p: nat) returns (q: nat, payload: Bytes)
    requires k.Sub? && i < |k.fields| && Packed(k.fields[i]) && items != [] && At(s, p, FieldBytes(k, i, items))
    ensures At(s, p, TagBytes(k.fields[i].tag, 2)) && q == p + |TagBytes(k.fields[i].tag, 2)|
    ensures payload == Payload(k.fields[i].kind, items, 0) && At(s, q, Delimited(payload))
    ensures p + |FieldBytes(k, i, items)| == q + |Delimited(payload)|
  {
    q, payload := p + |TagBytes(k.fields[i].tag, 2)|, Payload(k.fields[i].kind, items, 0);
    AtAppend(s, p, TagBytes(k.fields[i].tag, 2), Delimited(payload));
  }

  lemma PackedKind(small: Kind, j: nat, big: Kind, i: nat, items: seq<Value>)
    requires Pair(small, big) && small.Sub? && Knows(small, j, big, i) && i < |big.fields| && Packed(big.fields[i])
    requires Count(big.fields[i].rule, |items|, true) && AllTyped(big, i, items, true)
    ensures small.fields[j] == big.fields[i] && WellFormed(small) && |items| <= small.fields[j].rule.max && Numbers(small.fields[j].kind, items)
    ensures ProjectItems(small, j, big, items) == items && RoomyItemsFrom(small, j, big, items, 0)
  {
    PairBelow(small, j, big, i);
    AllUnbounded(big, i, items);
    ScalarItems(small, j, big, items);
  }

  lemma KnownPacked(read: Point -> Option<Slots>, small: Kind, big: Kind, items: seq<Value>, i: nat, j: nat, s: Bytes, p: nat, slots: Slots, seen: set<nat>)
    requires Faithful(read, small, s)
    requires Pair(small, big) && small.Sub? && Knows(small, j, big, i) && i < |big.fields| && Packed(big.fields[i]) && |s| < TWO32
    requires items != [] && Count(big.fields[i].rule, |items|, true) && AllTyped(big, i, items, true)
    requires |slots| == |small.fields| && slots[j] == [] && At(s, p, FieldBytes(big, i, items))
    ensures read(Point(p, slots, seen)) == read(Point(p + |FieldBytes(big, i, items)|, Put(small.fields, slots, j, items), Mark(small.fields, j, seen)))
  {
    hide Faithful, Knows, Count, AllTyped, Delimited;
    PairBelow(small, j, big, i);
    PackedKind(small, j, big, i, items);
    var q, payload := PackedBytes(big, i, items, s, p);
    PackedField(small, j, items, s, q, payload, slots[j]);
    KnownStep(read, small, j, small.fields[j].tag, 2, s, p, q, slots, seen, items, q + |Delimited(payload)|);
  }

  /** A field that is not an array is read over its default. */
  lemma StoreSingle(read: Point -> Option<Slots>, k: Kind, j: nat, s: Bytes, p: nat, q: nat, slots: Slots, seen: set<nat>, r: Option<(Value, nat)>)
    requires Faithful(read, k, s)
    requires k.Sub? && j < |k.fields| && |slots| == |k.fields| && !k.fields[j].rule.Repeated? && slots[j] == DefaultSlot(k, j)
    requires 0 < k.fields[j].tag < 0x2000_0000 && FindTag(k.fields, k.fields[j].tag) == Some(j)
    requires At(s, p, TagBytes(k.fields[j].tag, WireType(k.fields[j].kind))) && q == p + |TagBytes(k.fields[j].tag, WireType(k.fields[j].kind))|
    requires ReadValue(k.fields[j].kind, s, q, Default(k.fields[j].kind)) == r
    ensures read(Point(p, slots, seen))
      == if r.None? then None else read(Point(r.value.1, Put(k.fields, slots, j, [r.value.0]), Mark(k.fields, j, seen)))
  {
    var tag, wt := k.fields[j].tag, WireType(k.fields[j].kind);
    if r.Some? {
      KnownStep(read, k, j, tag, wt, s, p, q, slots, seen, [r.value.0], r.value.1);
    } else {
      KnownFails(read, k, j, tag, wt, s, p, q, slots, seen);
    }
  }

  /** A new array entry is read over its default. */
  lemma StoreItem(read: Point -> Option<Slots>, k: Kind, j: nat, s: Bytes, p: nat, q: nat, slots: Slots, seen: set<nat>, v: Value, next: nat, more: Slots)
    requires Faithful(read, k, s)
    requires k.Sub? && j < |k.fields| && |slots| == |k.fields| && k.fields[j].rule.Repeated? && |slots[j]| < k.fields[j].rule.max
    requires !Packable(k.fields[j].kind) && more == slots[j := slots[j] + [v]]
    requires 0 < k.fields[j].tag < 0x2000_0000 && FindTag(k.fields, k.fields[j].tag) == Some(j)
    requires At(s, p, TagBytes(k.fields[j].tag, WireType(k.fields[j].kind))) && q == p + |TagBytes(k.fields[j].tag, WireType(k.fields[j].kind))|
    requires ReadValue(k.fields[j].kind, s, q, Default(k.fields[j].kind)) == Some((v, next))
    ensures read(Point(p, slots, seen)) == read(Point(next, more, seen))
  {
    KnownStep(read, k, j, k.fields[j].tag, WireType(k.fields[j].kind), s, p, q, slots, seen, more[j], next);
  }

  lemma StoreFails(read: Point -> Option<Slots>, k: Kind, j: nat, s: Bytes, p: nat, q: nat, slots: Slots, seen: set<nat>)
    requires Faithful(read, k, s)
    requires k.Sub? && j < |k.fields| && |slots| == |k.fields| && k.fields[j].rule.Repeated? && !Packable(k.fields[j].kind)
    requires 0 < k.fields[j].tag < 0x2000_0000 && FindTag(k.fields, k.fields[j].tag) == Some(j)
    requires At(s, p, TagBytes(k.fields[j].tag, WireType(k.fields[j].kind))) && q == p + |TagBytes(k.fields[j].tag, WireType(k.fields[j].kind))|
    requires ReadValue(k.fields[j].kind, s, q, Default(k.fields[j].kind)) == None
    ensures read(Point(p, slots, seen)) == None
  {
    KnownFails(read, k, j, k.fields[j].tag, WireType(k.fields[j].kind), s, p, q, slots, seen);
  }

  lemma NextItem(small: Kind, j: nat, big: Kind, items: seq<Value>, x: nat, slots: Slots) returns (more: Slots)
    requires small.Sub? && big.Sub? && j < |small.fields| && FieldOf(small, j, big) && x < |items|
    requires |slots| == |small.fields| && slots[j] == ProjectItems(small, j, big, items[..x])
    ensures more == slots[j := slots[j] + [Project(small.fields[j].kind, big.fields[Place(small, j, big)].kind, items[x])]]
    ensures more[j] == ProjectItems(small, j, big, items[..x + 1])
    ensures slots[j := ProjectItems(small, j, big, items)] == more[j := ProjectItems(small, j, big, items)]
  {
    ProjectNext(small, j, big, items, x);
    more := slots[j := ProjectItems(small, j, big, items[..x + 1])];
  }

  /** One entry of an array: either it is stored and the reader goes on, or it is refused. */
  lemma {:induction false} ItemReads(read: Point -> Option<Slots>, small: Kind, big: Kind, i: nat, j: nat, items: seq<Value>, x: nat,
                                     s: Bytes, p: nat, slots: Slots, seen: set<nat>)
    returns (next: nat, more: Slots)
    requires Faithful(read, small, s)
    requires Pair(small, big) && small.Sub? && Knows(small, j, big, i) && |slots| == |small.fields| && |s| < TWO32
    requires small.fields[j].rule.Repeated? && |items| <= small.fields[j].rule.max && !Packable(small.fields[j].kind)
    requires i < |big.fields| && AllTyped(big, i, items, true) && x < |items|
    requires slots[j] == ProjectItems(small, j, big, items[..x]) && At(s, p, Records(big, i, items, x))
    ensures At(s, next, Records(big, i, items, x + 1)) && p + |Records(big, i, items, x)| == next + |Records(big, i, items, x + 1)|
    ensures |more| == |slots| && more[j] == ProjectItems(small, j, big, items[..x + 1])
    ensures slots[j := ProjectItems(small, j, big, items)] == more[j := ProjectItems(small, j, big, items)]
    ensures read(Point(p, slots, seen))
      == if Roomy(small.fields[j].kind, big.fields[i].kind, items[x]) then read(Point(next, more, seen)) else None
    decreases small, 0, 0, 0
  {
    PairBelow(small, j, big, i);
    more := NextItem(small, j, big, items, x, slots);
    var f, q := small.fields[j], 0;
    q, next := FirstRecord(big, i, items, x, s, p);
    ValueReads(f.kind, big.fields[i].kind, items[x], s, q);
    if Roomy(f.kind, big.fields[i].kind, items[x]) {
      StoreItem(read, small, j, s, p, q, slots, seen, Project(f.kind, big.fields[i].kind, items[x]), next, more);
    } else {
      StoreFails(read, small, j, s, p, q, slots, seen);
    }
  }

  lemma {:induction false} RepeatedReads(read: Point -> Option<Slots>, small: Kind, big: Kind, i: nat, j: nat, items: seq<Value>, x: nat,
                                         s: Bytes, p: nat, slots: Slots, seen: set<nat>)
    requires Faithful(read, small, s)
    requires Pair(small, big) && small.Sub? && Knows(small, j, big, i) && |slots| == |small.fields| && |s| < TWO32
    requires small.fields[j].rule.Repeated? && |items| <= small.fields[j].rule.max && !Packable(small.fields[j].kind)
    requires i < |big.fields| && AllTyped(big, i, items, true) && x <= |items|
    requires slots[j] == ProjectItems(small, j, big, items[..x]) && At(s, p, Records(big, i, items, x))
    ensures read(Point(p, slots, seen))
      == if RoomyItemsFrom(small, j, big, items, x)
         then read(Point(p + |Records(big, i, items, x)|, slots[j := ProjectItems(small, j, big, items)], seen))
         else None
    decreases small, 0, 0, |items| - x
  {
    hide AllTyped, ProjectItems, At, Roomy;
    if x == |items| {
      assert items[..x] == items;
      assert slots[j := slots[j]] == slots;
    } else {
      var next, more := ItemReads(read, small, big, i, j, items, x, s, p, slots, seen);
      if Roomy(small.fields[j].kind, big.fields[i].kind, items[x]) {
        RepeatedReads(read, small, big, i, j, items, x + 1, s, next, more, seen);
      }
    }
  }

  lemma {:induction false} SingleReads(read: Point -> Option<Slots>, small: Kind, big: Kind, i: nat, j: nat, v: Value, s: Bytes, p: nat, slots: Slots, seen: set<nat>)
    requires Faithful(read, small, s)
    requires Pair(small, big) && small.Sub? && Knows(small, j, big, i) && |slots| == |small.fields| && |s| < TWO32
    requires !small.fields[j].rule.Repeated? && slots[j] == DefaultSlot(small, j)
    requires i < |big.fields| && Typed(big.fields[i].kind, v, true) && At(s, p, Records(big, i, [v], 0))
    ensures read(Point(p, slots, seen))
      == if Roomy(small.fields[j].kind, big.fields[i].kind, v)
         then read(Point(p + |Records(big, i, [v], 0)|, Put(small.fields, slots, j, [Project(small.fields[j].kind, big.fields[i].kind, v)]), Mark(small.fields, j, seen)))
         else None
    decreases small, 0, 0, 0
  {
    PairBelow(small, j, big, i);
    var q, next := FirstRecord(big, i, [v], 0, s, p);
    var f := small.fields[j];
    ValueReads(f.kind, big.fields[i].kind, v, s, q);
    StoreSingle(read, small, j, s, p, q, slots, seen, ReadValue(f.kind, s, q, Default(f.kind)));
  }

  // ---------------------------------------------------------------------
  // Theorems
  // ---------------------------------------------------------------------

  /**
   A receiver whose descriptor lacks some of the sender's fields reads the
   message as far as it knows it, provided it has room for the strings; and
   otherwise it refuses it.
   */
  lemma ForwardCompatible(small: Kind, big: Kind, v: Value)
    requires small.Sub? && WellFormed(small) && WellFormed(big) && Narrower(small, big)
    requires Typed(big, v, true) && |Body(big, v)| < TWO32
    ensures Read(small, Body(big, v)) == if Roomy(small, big, v) then Some(Project(small, big, v)) else None
  {
    BodyReads(small, big, v);
  }

  /** The same descriptor on both sides: what was sent is what is read. */
  lemma RoundTrip(k: Kind, v: Value)
    requires k.Sub? && WellFormed(k) && Typed(k, v, true) && |Body(k, v)| < TWO32
    ensures Narrower(k, k) && Read(k, Body(k, v)) == if Roomy(k, k, v) then Some(v) else None
  {
    NarrowerSelf(k);
    ProjectSelf(k, v);
    ForwardCompatible(k, k, v);
  }
}
