/** `VersionEdit`: encoding writes every field that is set; decoding an encoding gives the fields back. */
module VersionEdit {
  import opened Basics
  import opened Coding
  import opened EditCodec

  /** The deleted files are kept in the order of a `std::set` of (level, number) pairs. */
  datatype Edit = Edit(comparator: Option<Bytes>, logNumber: Option<nat>, prevLogNumber: Option<nat>, nextFileNumber: Option<nat>,
                       lastSequence: Option<nat>, pointers: seq<(nat, Bytes)>, deleted: seq<(nat, nat)>, added: seq<NewFile>)

  const BLANK := Edit(None, None, None, None, None, [], [], [])

  predicate PairLess(a: (nat, nat), b: (nat, nat)) {
    a.0 < b.0 || (a.0 == b.0 && a.1 < b.1)
  }

  ghost predicate PairsAscend(s: seq<(nat, nat)>) {
    forall i, j :: 0 <= i < j < |s| ==> PairLess(s[i], s[j])
  }

  /** `std::set::insert`. */
  function InsertPair(s: seq<(nat, nat)>, x: (nat, nat)): seq<(nat, nat)> {
    if s == [] || PairLess(s[|s| - 1], x) then s + [x]
    else if s[|s| - 1] == x then s
    else InsertPair(s[..|s| - 1], x) + [s[|s| - 1]]
  }

  // ---------------------------------------------------------------------
  // An edit as a list of items
  // ---------------------------------------------------------------------

  function OptionalItems(e: Edit): seq<Item> {
    (if e.comparator.Some? then [Comparator(e.comparator.value)] else [])
    + (if e.logNumber.Some? then [LogNumber(e.logNumber.value)] else [])
    + (if e.prevLogNumber.Some? then [PrevLogNumber(e.prevLogNumber.value)] else [])
    + (if e.nextFileNumber.Some? then [NextFileNumber(e.nextFileNumber.value)] else [])
    + (if e.lastSequence.Some? then [LastSequence(e.lastSequence.value)] else [])
  }

  function PointerItems(s: seq<(nat, Bytes)>): (r: seq<Item>)
    ensures |r| == |s| && forall i :: 0 <= i < |s| ==> r[i] == CompactPointer(s[i].0, s[i].1)
  {
    if s == [] then [] else PointerItems(s[..|s| - 1]) + [CompactPointer(s[|s| - 1].0, s[|s| - 1].1)]
  }

  function DeletedItems(s: seq<(nat, nat)>): (r: seq<Item>)
    ensures |r| == |s| && forall i :: 0 <= i < |s| ==> r[i] == DeletedFile(s[i].0, s[i].1)
  {
    if s == [] then [] else DeletedItems(s[..|s| - 1]) + [DeletedFile(s[|s| - 1].0, s[|s| - 1].1)]
  }

  function AddedItems(s: seq<NewFile>): (r: seq<Item>)
    ensures |r| == |s| && forall i :: 0 <= i < |s| ==> r[i] == Added(s[i])
  {
    if s == [] then [] else AddedItems(s[..|s| - 1]) + [Added(s[|s| - 1])]
  }

  /** What `EncodeTo` writes, in order. */
  function Items(e: Edit): seq<Item> {
    OptionalItems(e) + PointerItems(e.pointers) + DeletedItems(e.deleted) + AddedItems(e.added)
  }

  /** What decoding one item does to the edit. */
  function ApplyItem(e: Edit, item: Item): Edit {
    match item
    case Comparator(b) => e.(comparator := Some(b))
    case LogNumber(n) => e.(logNumber := Some(n))
    case NextFileNumber(n) => e.(nextFileNumber := Some(n))
    case LastSequence(n) => e.(lastSequence := Some(n))
    case CompactPointer(l, k) => e.(pointers := e.pointers + [(l, k)])
    case DeletedFile(l, n) => e.(deleted := InsertPair(e.deleted, (l, n)))
    case Added(f) => e.(added := e.added + [f])
    case PrevLogNumber(n) => e.(prevLogNumber := Some(n))
  }

  function ApplyItems(e: Edit, items: seq<Item>): Edit {
    if items == [] then e else ApplyItem(ApplyItems(e, items[..|items| - 1]), items[|items| - 1])
  }

  lemma {:induction false} ApplyConcat(e: Edit, a: seq<Item>, b: seq<Item>)
    ensures ApplyItems(e, a + b) == ApplyItems(ApplyItems(e, a), b)
  {
    if b == [] {
      assert a + b == a;
    } else {
      assert (a + b)[..|a + b| - 1] == a + b[..|b| - 1];
      ApplyConcat(e, a, b[..|b| - 1]);
    }
  }

  lemma ApplyOne(e: Edit, item: Item)
    ensures ApplyItems(e, [item]) == ApplyItem(e, item) && ApplyItems(e, []) == e
  {
    assert [item][..0] == [];
  }

  lemma ApplyOptional(e: Edit)
    ensures ApplyItems(BLANK, OptionalItems(e)) == e.(pointers := [], deleted := [], added := [])
  {
    var a := if e.comparator.Some? then [Comparator(e.comparator.value)] else [];
    var b := if e.logNumber.Some? then [LogNumber(e.logNumber.value)] else [];
    var c := if e.prevLogNumber.Some? then [PrevLogNumber(e.prevLogNumber.value)] else [];
    var d := if e.nextFileNumber.Some? then [NextFileNumber(e.nextFileNumber.value)] else [];
    var f := if e.lastSequence.Some? then [LastSequence(e.lastSequence.value)] else [];
    ApplyConcat(BLANK, a + b + c + d, f);
    ApplyConcat(BLANK, a + b + c, d);
    ApplyConcat(BLANK, a + b, c);
    ApplyConcat(BLANK, a, b);
    forall x, item ensures ApplyItems(x, [item]) == ApplyItem(x, item) && ApplyItems(x, []) == x {
      ApplyOne(x, item);
    }
  }

  lemma {:induction false} ApplyPointers(e: Edit, s: seq<(nat, Bytes)>)
    requires e.pointers == []
    ensures ApplyItems(e, PointerItems(s)) == e.(pointers := s)
  {
    if s != [] {
      var init := s[..|s| - 1];
      ApplyPointers(e, init);
      assert PointerItems(s)[..|s| - 1] == PointerItems(init);
      assert s == init + [(s[|s| - 1].0, s[|s| - 1].1)];
    }
  }

  lemma {:induction false} ApplyDeleted(e: Edit, s: seq<(nat, nat)>)
    requires e.deleted == [] && PairsAscend(s)
    ensures ApplyItems(e, DeletedItems(s)) == e.(deleted := s)
  {
    if s != [] {
      var init, last := s[..|s| - 1], s[|s| - 1];
      ApplyDeleted(e, init);
      assert DeletedItems(s)[..|s| - 1] == DeletedItems(init);
      assert init == [] || PairLess(init[|init| - 1], last);
      assert s == init + [(last.0, last.1)];
    }
  }

  lemma {:induction false} ApplyAdded(e: Edit, s: seq<NewFile>)
    requires e.added == []
    ensures ApplyItems(e, AddedItems(s)) == e.(added := s)
  {
    if s != [] {
      var init := s[..|s| - 1];
      ApplyAdded(e, init);
      assert AddedItems(s)[..|s| - 1] == AddedItems(init);
      assert s == init + [s[|s| - 1]];
    }
  }

  /** The items of an edit, applied to a blank one, rebuild it. */
  lemma ItemsRebuild(e: Edit)
    requires PairsAscend(e.deleted)
    ensures ApplyItems(BLANK, Items(e)) == e
  {
    var o, p, d, a := OptionalItems(e), PointerItems(e.pointers), DeletedItems(e.deleted), AddedItems(e.added);
    ApplyConcat(BLANK, o + p + d, a);
    ApplyConcat(BLANK, o + p, d);
    ApplyConcat(BLANK, o, p);
    ApplyOptional(e);
    ApplyPointers(e.(pointers := [], deleted := [], added := []), e.pointers);
    ApplyDeleted(e.(deleted := [], added := []), e.deleted);
    ApplyAdded(e.(added := []), e.added);
  }

  // ---------------------------------------------------------------------
  // Items as bytes
  // ---------------------------------------------------------------------

  ghost predicate IsItem(pieces: seq<Bytes>, items: seq<Item>, i: nat)
    requires i < |items| == |pieces|
  {
    Small(items[i]) && pieces[i] == ItemBytes(items[i])
  }

  ghost predicate PiecesOf(pieces: seq<Bytes>, items: seq<Item>) {
    |pieces| == |items| && forall i :: 0 <= i < |items| ==> IsItem(pieces, items, i)
  }

  /** `src` is the encoding of the items. */
  ghost predicate Encodes(src: Bytes, pieces: seq<Bytes>, items: seq<Item>) {
    PiecesOf(pieces, items) && src == Concat(pieces, 0)
  }

  lemma EncodesSnoc(src: Bytes, pieces: seq<Bytes>, items: seq<Item>, item: Item, piece: Bytes)
    requires Encodes(src, pieces, items) && Small(item) && piece == ItemBytes(item)
    ensures Encodes(src + piece, pieces + [piece], items + [item])
  {
    ConcatJoin(pieces, [piece], 0);
    assert Concat([piece], 1) == [];
    forall i | 0 <= i < |items + [item]| ensures IsItem(pieces + [piece], items + [item], i) {
      if i < |items| {
        assert IsItem(pieces, items, i);
      }
    }
  }

  ghost predicate AllSmall(items: seq<Item>) {
    forall i :: 0 <= i < |items| ==> Small(items[i])
  }

  /** Writes a run of items. */
  method PutItems(dst: Bytes, items: seq<Item>, ghost pieces: seq<Bytes>, ghost before: seq<Item>)
    returns (r: Bytes, ghost more: seq<Bytes>)
    requires AllSmall(items) && Encodes(dst, pieces, before)
    ensures Encodes(r, more, before + items)
  {
    r, more := dst, pieces;
    assert before + items[..0] == before;
    for i := 0 to |items|
      invariant Encodes(r, more, before + items[..i])
    {
      var piece := ItemBytes(items[i]);
      EncodesSnoc(r, more, before + items[..i], items[i], piece);
      assert before + items[..i] + [items[i]] == before + items[..i + 1];
      r := r + piece;
      more := more + [piece];
    }
    assert items[..|items|] == items;
  }

  lemma SmallParts(a: seq<Item>, b: seq<Item>)
    requires AllSmall(a + b)
    ensures AllSmall(a) && AllSmall(b)
  {
    forall i | 0 <= i < |a| ensures Small(a[i]) {
      assert (a + b)[i] == a[i];
    }
    forall i | 0 <= i < |b| ensures Small(b[i]) {
      assert (a + b)[|a| + i] == b[i];
    }
  }

  method EncodeTo(e: Edit) returns (dst: Bytes, ghost pieces: seq<Bytes>)
    requires AllSmall(Items(e))
    ensures Encodes(dst, pieces, Items(e))
  {
    var o, p, d, a := OptionalItems(e), PointerItems(e.pointers), DeletedItems(e.deleted), AddedItems(e.added);
    SmallParts(o + p + d, a);
    SmallParts(o + p, d);
    SmallParts(o, p);
    assert Concat([], 0) == [];
    dst, pieces := PutItems([], o, [], []);
    assert [] + o == o;
    dst, pieces := PutItems(dst, p, pieces, o);
    dst, pieces := PutItems(dst, d, pieces, o + p);
    dst, pieces := PutItems(dst, a, pieces, o + p + d);
  }

  // ---------------------------------------------------------------------
  // Decoding
  // ---------------------------------------------------------------------

  /** Items up to number `i` have been read; the next one starts at `p`. */
  ghost predicate AtItem(src: Bytes, pieces: seq<Bytes>, items: seq<Item>, p: nat, i: nat) {
    PiecesOf(pieces, items) && i <= |items| && EndsWith(src, p, Concat(pieces, i))
  }

  lemma NextItem(src: Bytes, pieces: seq<Bytes>, items: seq<Item>, p: nat, i: nat)
    requires AtItem(src, pieces, items, p, i) && i < |items|
    ensures VarintAt(src, p, W32) == Some((Tag(items[i]), p + 1))
    ensures ReadFields(src, p + 1, Tag(items[i])) == Some((items[i], p + |pieces[i]|))
    ensures AtItem(src, pieces, items, p + |pieces[i]|, i + 1)
  {
    assert IsItem(pieces, items, i);
    NextPiece(src, p, pieces, i);
    ReadsItem(src, p, items[i]);
  }

  /** At the end there is no further tag, and before it there is one. */
  lemma ItemOrEnd(src: Bytes, pieces: seq<Bytes>, items: seq<Item>, p: nat, i: nat)
    requires AtItem(src, pieces, items, p, i)
    ensures i == |items| ==> p == |src| && VarintAt(src, p, W32) == None
    ensures i < |items| ==> p < |src|
  {
    if i < |items| {
      NextItem(src, pieces, items, p, i);
    }
  }

  /** The items at the front of some bytes, and whether the bytes end with them. */
  datatype Scanned = Scanned(items: seq<Item>, complete: bool)

  function Scan(src: Bytes, p: nat): Scanned
    requires p <= |src|
    decreases |src| - p
  {
    match VarintAt(src, p, W32)
    case None => Scanned([], p == |src|)
    case Some((tag, q)) =>
      match ReadFields(src, q, tag)
      case None => Scanned([], false)
      case Some((item, next)) => var more := Scan(src, next); Scanned([item] + more.items, more.complete)
  }

  lemma {:induction false} ScanFrom(src: Bytes, pieces: seq<Bytes>, items: seq<Item>, p: nat, i: nat)
    requires AtItem(src, pieces, items, p, i) && p <= |src|
    ensures Scan(src, p) == Scanned(items[i..], true)
    decreases |items| - i
  {
    hide ReadFields, Concat;
    ItemOrEnd(src, pieces, items, p, i);
    if i < |items| {
      NextItem(src, pieces, items, p, i);
      ScanFrom(src, pieces, items, p + |pieces[i]|, i + 1);
      assert items[i..] == [items[i]] + items[i + 1..];
    }
  }

  /** What has been encoded is found again, and nothing else. */
  lemma ScansEncoding(src: Bytes, pieces: seq<Bytes>, items: seq<Item>)
    requires Encodes(src, pieces, items)
    ensures Scan(src, 0) == Scanned(items, true)
  {
    ScanFrom(src, pieces, items, 0, 0);
  }

  class VersionEdit {
    var edit: Edit

    constructor ()
      ensures edit == BLANK
    {
      edit := BLANK;
    }

    /** Everything but the compaction pointers, which `Clear` leaves alone. */
    method Clear()
      modifies this
      ensures edit == BLANK.(pointers := old(edit).pointers)
    {
      edit := BLANK.(pointers := edit.pointers);
    }

    /** Applies the items in front of the first malformed one; success means that there is none. */
    method DecodeFrom(src: Bytes) returns (ok: bool)
      modifies this
      ensures ok == Scan(src, 0).complete
      ensures edit == ApplyItems(BLANK.(pointers := old(edit).pointers), Scan(src, 0).items)
    {
      Clear();
      ghost var start, done: seq<Item> := edit, [];
      var p: nat := 0;
      while true
        invariant p <= |src|
        invariant Scan(src, 0) == Scanned(done + Scan(src, p).items, Scan(src, p).complete)
        invariant edit == ApplyItems(start, done)
        decreases |src| - p
      {
        var tag := VarintAt(src, p, W32);
        if tag.None? {
          assert done + [] == done;
          return p == |src|;
        }
        var r := ReadFields(src, tag.value.1, tag.value.0);
        if r.None? {
          assert done + [] == done;
          return false;
        }
        Associate(done, [r.value.0], Scan(src, r.value.1).items);
        assert (done + [r.value.0])[..|done|] == done;
        edit, p := ApplyItem(edit, r.value.0), r.value.1;
        done := done + [r.value.0];
      }
    }
  }

  /** Decoding an encoded edit into a fresh object gives it back. */
  method RoundTrip(e: Edit) returns (decoded: Edit, ok: bool)
    requires PairsAscend(e.deleted) && AllSmall(Items(e))
    ensures ok && decoded == e
  {
    var dst, pieces := EncodeTo(e);
    var v := new VersionEdit();
    ScansEncoding(dst, pieces, Items(e));
    ok := v.DecodeFrom(dst);
    ItemsRebuild(e);
    decoded := v.edit;
  }
}
