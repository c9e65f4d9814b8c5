/**
 The bookkeeping of `LRUCache` as a value: entries with reference counts, the
 list of cached entries nobody uses, the list of those in use, and the charge.
 */
module LruState {
  import opened Basics
  import opened HandleTable

  datatype Handle = Handle(tag: Tag, charge: nat, inCache: bool, refs: nat)

  /**
   `held` counts the handles clients have; `deleted` lists the entries whose
   deleter has run; `next` is an address not used yet.
   */
  datatype Lru = Lru(handles: map<Id, Handle>, lru: seq<Id>, inUse: seq<Id>, table: map<Tag, Id>, usage: nat,
                     held: map<Id, nat>, deleted: seq<Id>, next: Id)

  ghost predicate NoRepeats(s: seq<Id>) {
    forall i, j :: 0 <= i < j < |s| ==> s[i] != s[j]
  }

  function Charge(handles: map<Id, Handle>, id: Id): nat {
    if id in handles then handles[id].charge else 0
  }

  function TotalCharge(handles: map<Id, Handle>, ids: seq<Id>): nat {
    if ids == [] then 0 else TotalCharge(handles, ids[..|ids| - 1]) + Charge(handles, ids[|ids| - 1])
  }

  /** One entry: references, cache membership and list membership agree. */
  ghost predicate EntryOk(c: Lru, id: Id)
    requires id in c.handles
  {
    var h := c.handles[id];
    && id in c.held && h.refs == c.held[id] + (if h.inCache then 1 else 0) && h.refs > 0
    && (id in c.lru <==> h.inCache && h.refs == 1)
    && (id in c.inUse <==> h.inCache && h.refs > 1)
  }

  /** The table leads to an entry exactly if it is in the cache, save for `loose`, to which it no longer leads. */
  ghost predicate Tabled(c: Lru, id: Id, loose: Option<Id>)
    requires id in c.handles
  {
    var h := c.handles[id];
    (h.inCache && loose != Some(id)) <==> (h.tag in c.table && c.table[h.tag] == id)
  }

  ghost predicate EntriesOk(c: Lru) {
    c.held.Keys == c.handles.Keys && forall id :: id in c.handles ==> EntryOk(c, id)
  }

  ghost predicate TableOk(c: Lru, loose: Option<Id>) {
    && (forall id :: id in c.handles ==> Tabled(c, id, loose))
    && (forall tag :: tag in c.table ==> c.table[tag] in c.handles && c.handles[c.table[tag]].tag == tag)
  }

  ghost predicate Within(s: seq<Id>, handles: map<Id, Handle>) {
    forall id :: id in s ==> id in handles
  }

  ghost predicate ListsOk(c: Lru) {
    NoRepeats(c.lru) && NoRepeats(c.inUse) && Within(c.lru, c.handles) && Within(c.inUse, c.handles)
  }

  /** A deleter runs at most once, and only for an entry that is gone. */
  ghost predicate DeletedOk(c: Lru) {
    && NoRepeats(c.deleted) && (forall id :: id in c.deleted ==> id !in c.handles && id < c.next)
    && (forall id :: id in c.handles ==> id < c.next)
  }

  ghost predicate UsageOk(c: Lru) {
    c.usage == TotalCharge(c.handles, c.lru) + TotalCharge(c.handles, c.inUse)
  }

  ghost predicate Books(c: Lru, loose: Option<Id>) {
    EntriesOk(c) && TableOk(c, loose) && ListsOk(c) && DeletedOk(c) && UsageOk(c)
  }

  ghost predicate Ok(c: Lru) {
    Books(c, None)
  }

  /** In order, except that a cached entry has already left the table. */
  ghost predicate Loose(c: Lru, id: Id) {
    Books(c, Some(id)) && id in c.handles && c.handles[id].inCache
  }

  // ---------------------------------------------------------------------
  // Lists
  // ---------------------------------------------------------------------

  /** `LRU_Remove`: unlinks an entry from the list it is on. */
  function Without(s: seq<Id>, id: Id): (r: seq<Id>)
    ensures forall x :: x in r <==> x in s && x != id
  {
    if s == [] then []
    else Without(s[..|s| - 1], id) + if s[|s| - 1] == id then [] else [s[|s| - 1]]
  }

  lemma {:induction false} WithoutNoRepeats(s: seq<Id>, id: Id)
    requires NoRepeats(s)
    ensures NoRepeats(Without(s, id))
  {
    if s != [] {
      var init, last := s[..|s| - 1], s[|s| - 1];
      WithoutNoRepeats(init, id);
      assert last !in init;
      assert forall i :: 0 <= i < |Without(init, id)| ==> Without(init, id)[i] in Without(init, id);
    }
  }

  lemma {:induction false} WithoutAbsent(s: seq<Id>, id: Id)
    requires id !in s
    ensures Without(s, id) == s
  {
    if s != [] {
      WithoutAbsent(s[..|s| - 1], id);
    }
  }

  lemma {:induction false} WithoutCharge(handles: map<Id, Handle>, s: seq<Id>, id: Id)
    requires NoRepeats(s) && id in s
    ensures TotalCharge(handles, Without(s, id)) + Charge(handles, id) == TotalCharge(handles, s)
  {
    var init, last := s[..|s| - 1], s[|s| - 1];
    if last == id {
      assert id !in init;
      WithoutAbsent(init, id);
      assert Without(s, id) == init;
    } else {
      assert id in init;
      WithoutCharge(handles, init, id);
      assert (Without(init, id) + [last])[..|Without(init, id)|] == Without(init, id);
    }
  }

  lemma {:induction false} SameCharge(a: map<Id, Handle>, b: map<Id, Handle>, s: seq<Id>)
    requires forall i :: 0 <= i < |s| ==> Charge(a, s[i]) == Charge(b, s[i])
    ensures TotalCharge(a, s) == TotalCharge(b, s)
  {
    if s != [] {
      SameCharge(a, b, s[..|s| - 1]);
    }
  }

  lemma ChargeSnoc(handles: map<Id, Handle>, s: seq<Id>, id: Id)
    ensures TotalCharge(handles, s + [id]) == TotalCharge(handles, s) + Charge(handles, id)
  {
    assert (s + [id])[..|s|] == s;
  }

  lemma SnocNoRepeats(s: seq<Id>, id: Id)
    requires NoRepeats(s) && id !in s
    ensures NoRepeats(s + [id])
  {
  }

  // ---------------------------------------------------------------------
  // Operations
  // ---------------------------------------------------------------------

  /** `Ref` by a client: a first outside reference moves the entry to the in-use list. */
  function Referenced(c: Lru, id: Id): Lru
    requires id in c.handles && id in c.held
  {
    var h := c.handles[id];
    var first := h.refs == 1 && h.inCache;
    c.(handles := c.handles[id := h.(refs := h.refs + 1)], held := c.held[id := c.held[id] + 1],
       lru := if first then Without(c.lru, id) else c.lru,
       inUse := if first then c.inUse + [id] else c.inUse)
  }

  /** `Unref`: the last reference runs the deleter; the last outside one moves the entry to the lru list. */
  function Unreferenced(c: Lru, id: Id): Lru
    requires id in c.handles && c.handles[id].refs > 0
  {
    var h := c.handles[id];
    if h.refs == 1 then c.(handles := c.handles - {id}, held := c.held - {id}, deleted := c.deleted + [id])
    else
      var last := h.inCache && h.refs == 2;
      c.(handles := c.handles[id := h.(refs := h.refs - 1)],
         inUse := if last then Without(c.inUse, id) else c.inUse,
         lru := if last then c.lru + [id] else c.lru)
  }

  /** A client gives back one handle. */
  function Released(c: Lru, id: Id): Lru
    requires id in c.handles && c.handles[id].refs > 0 && id in c.held && c.held[id] > 0
  {
    Unreferenced(c.(held := c.held[id := c.held[id] - 1]), id)
  }

  /** `FinishErase`, the entry having left the table: off its list, off the charge, and one reference less. */
  function Dropped(c: Lru, id: Id): Lru
    requires id in c.handles && c.handles[id].refs > 0 && c.usage >= c.handles[id].charge
  {
    var h := c.handles[id];
    Unreferenced(c.(handles := c.handles[id := h.(inCache := false)], usage := c.usage - h.charge,
                    lru := Without(c.lru, id), inUse := Without(c.inUse, id)), id)
  }

  /** The table entry goes first. */
  function Untabled(c: Lru, tag: Tag): Lru {
    c.(table := c.table - {tag})
  }

  /** A new entry, one handle held by the client, and kept in the cache if that is on. */
  function Added(c: Lru, tag: Tag, charge: nat, cached: bool): Lru {
    var id := c.next;
    if cached then
      c.(handles := c.handles[id := Handle(tag, charge, true, 2)], held := c.held[id := 1], inUse := c.inUse + [id],
         usage := c.usage + charge, table := c.table[tag := id], next := id + 1)
    else c.(handles := c.handles[id := Handle(tag, charge, false, 1)], held := c.held[id := 1], next := id + 1)
  }

  // ---------------------------------------------------------------------
  // Each operation keeps the books in order
  // ---------------------------------------------------------------------

  /** Entries some client holds stay, with all their references. */
  ghost predicate HeldKept(c: Lru, d: Lru) {
    forall id :: id in c.held && c.held[id] > 0 ==> id in d.held && d.held[id] == c.held[id]
  }

  lemma ReferencedUsage(c: Lru, id: Id)
    requires Ok(c) && id in c.handles
    ensures UsageOk(Referenced(c, id))
  {
    assert EntryOk(c, id);
    var r := Referenced(c, id);
    SameCharge(c.handles, r.handles, r.lru);
    SameCharge(c.handles, r.handles, r.inUse);
    if c.handles[id].refs == 1 && c.handles[id].inCache {
      WithoutCharge(c.handles, c.lru, id);
      ChargeSnoc(c.handles, c.inUse, id);
    }
  }

  lemma ReferencedLists(c: Lru, id: Id)
    requires Ok(c) && id in c.handles
    ensures ListsOk(Referenced(c, id))
  {
    assert EntryOk(c, id);
    WithoutNoRepeats(c.lru, id);
    if c.handles[id].refs == 1 && c.handles[id].inCache {
      SnocNoRepeats(c.inUse, id);
    }
  }

  lemma ReferencedEntries(c: Lru, id: Id)
    requires Ok(c) && id in c.handles
    ensures EntriesOk(Referenced(c, id)) && TableOk(Referenced(c, id), None)
  {
    var r := Referenced(c, id);
    assert EntryOk(c, id);
    forall x | x in r.handles ensures EntryOk(r, x) && Tabled(r, x, None) {
      assert EntryOk(c, x) && Tabled(c, x, None);
    }
  }

  lemma ReferencedOk(c: Lru, id: Id)
    requires Ok(c) && id in c.handles
    ensures Ok(Referenced(c, id))
  {
    ReferencedEntries(c, id);
    ReferencedLists(c, id);
    ReferencedUsage(c, id);
  }

  // ---------------------------------------------------------------------

  lemma ReleasedEntries(c: Lru, id: Id)
    requires Ok(c) && id in c.handles && c.held[id] > 0
    ensures EntriesOk(Released(c, id))
  {
    var r := Released(c, id);
    assert EntryOk(c, id);
    forall x | x in r.handles ensures EntryOk(r, x) {
      assert EntryOk(c, x);
    }
  }

  lemma ReleasedTable(c: Lru, id: Id)
    requires Ok(c) && id in c.handles && c.held[id] > 0
    ensures TableOk(Released(c, id), None)
  {
    var r := Released(c, id);
    assert EntryOk(c, id) && Tabled(c, id, None);
    forall x | x in r.handles ensures Tabled(r, x, None) {
      assert Tabled(c, x, None);
    }
  }

  lemma ReleasedLists(c: Lru, id: Id)
    requires Ok(c) && id in c.handles && c.held[id] > 0
    ensures ListsOk(Released(c, id)) && DeletedOk(Released(c, id))
  {
    assert EntryOk(c, id);
    WithoutNoRepeats(c.inUse, id);
    if c.handles[id].refs == 1 {
      SnocNoRepeats(c.deleted, id);
    } else if c.handles[id].inCache && c.handles[id].refs == 2 {
      SnocNoRepeats(c.lru, id);
    }
  }

  lemma ReleasedUsage(c: Lru, id: Id)
    requires Ok(c) && id in c.handles && c.held[id] > 0
    ensures UsageOk(Released(c, id))
  {
    assert EntryOk(c, id);
    var r := Released(c, id);
    SameCharge(c.handles, r.handles, r.lru);
    SameCharge(c.handles, r.handles, r.inUse);
    if c.handles[id].inCache && c.handles[id].refs == 2 {
      WithoutCharge(c.handles, c.inUse, id);
      ChargeSnoc(c.handles, c.lru, id);
    }
  }

  lemma ReleasedOk(c: Lru, id: Id)
    requires Ok(c) && id in c.handles && c.held[id] > 0
    ensures c.handles[id].refs > 0 && Ok(Released(c, id))
  {
    assert EntryOk(c, id);
    ReleasedEntries(c, id);
    ReleasedTable(c, id);
    ReleasedLists(c, id);
    ReleasedUsage(c, id);
  }

  // ---------------------------------------------------------------------

  /** An entry on one list leaves: the two totals shrink by its charge. */
  lemma TotalsWithout(h: map<Id, Handle>, h': map<Id, Handle>, on: seq<Id>, off: seq<Id>, id: Id)
    requires NoRepeats(on) && id in on && id !in off
    requires forall x :: x != id ==> Charge(h, x) == Charge(h', x)
    ensures TotalCharge(h', Without(on, id)) + TotalCharge(h', Without(off, id)) + Charge(h, id) == TotalCharge(h, on) + TotalCharge(h, off)
  {
    WithoutCharge(h, on, id);
    WithoutAbsent(off, id);
    forall i | 0 <= i < |Without(on, id)| ensures Charge(h, Without(on, id)[i]) == Charge(h', Without(on, id)[i]) {
      assert Without(on, id)[i] in Without(on, id);
    }
    OutsideCharge(h, h', off, id);
    SameCharge(h, h', Without(on, id));
  }

  lemma OutsideCharge(h: map<Id, Handle>, h': map<Id, Handle>, s: seq<Id>, id: Id)
    requires id !in s && forall x :: x != id ==> Charge(h, x) == Charge(h', x)
    ensures TotalCharge(h, s) == TotalCharge(h', s)
  {
    forall i | 0 <= i < |s| ensures Charge(h, s[i]) == Charge(h', s[i]) {
      assert s[i] in s;
    }
    SameCharge(h, h', s);
  }

  ghost predicate Droppable(c: Lru, id: Id) {
    id in c.handles && c.handles[id].refs > 0 && c.usage >= c.handles[id].charge
  }

  lemma LooseDroppable(c: Lru, id: Id)
    requires Loose(c, id)
    ensures Droppable(c, id)
  {
    assert EntryOk(c, id);
    if id in c.lru {
      WithoutCharge(c.handles, c.lru, id);
    } else {
      WithoutCharge(c.handles, c.inUse, id);
    }
  }

  lemma DroppedEntries(c: Lru, id: Id)
    requires Loose(c, id) && Droppable(c, id)
    ensures EntriesOk(Dropped(c, id)) && HeldKept(c, Dropped(c, id))
  {
    var r := Dropped(c, id);
    assert EntryOk(c, id);
    forall x | x in r.handles ensures EntryOk(r, x) {
      assert EntryOk(c, x);
    }
  }

  lemma DroppedTable(c: Lru, id: Id)
    requires Loose(c, id) && Droppable(c, id)
    ensures TableOk(Dropped(c, id), None)
  {
    var r := Dropped(c, id);
    assert Tabled(c, id, Some(id));
    forall x | x in r.handles ensures Tabled(r, x, None) {
      assert Tabled(c, x, Some(id));
    }
  }

  lemma DroppedLists(c: Lru, id: Id)
    requires Loose(c, id) && Droppable(c, id)
    ensures ListsOk(Dropped(c, id)) && DeletedOk(Dropped(c, id))
  {
    assert EntryOk(c, id);
    WithoutNoRepeats(c.inUse, id);
    WithoutNoRepeats(c.lru, id);
    SnocNoRepeats(c.deleted, id);
  }

  lemma DroppedUsage(c: Lru, id: Id)
    requires Loose(c, id) && Droppable(c, id)
    ensures UsageOk(Dropped(c, id))
  {
    assert EntryOk(c, id);
    var r := Dropped(c, id);
    if id in c.lru {
      TotalsWithout(c.handles, r.handles, c.lru, c.inUse, id);
    } else {
      TotalsWithout(c.handles, r.handles, c.inUse, c.lru, id);
    }
  }

  /** Dropping a loose entry puts the books in order again; nothing a client holds goes. */
  lemma DroppedOk(c: Lru, id: Id)
    requires Loose(c, id)
    ensures Droppable(c, id) && Ok(Dropped(c, id)) && HeldKept(c, Dropped(c, id))
  {
    LooseDroppable(c, id);
    DroppedEntries(c, id);
    DroppedTable(c, id);
    DroppedLists(c, id);
    DroppedUsage(c, id);
  }

  /** An entry nobody holds is deleted when it is dropped; one in use, only when the last handle is released. */
  lemma DeletedWhenFree(c: Lru, id: Id)
    requires Loose(c, id)
    ensures Droppable(c, id) && id in c.held && (id in Dropped(c, id).deleted <==> c.held[id] == 0)
  {
    LooseDroppable(c, id);
    assert EntryOk(c, id);
  }

  lemma UntabledLoose(c: Lru, tag: Tag)
    requires Ok(c) && tag in c.table
    ensures Loose(Untabled(c, tag), c.table[tag])
  {
    var u, id := Untabled(c, tag), c.table[tag];
    assert Tabled(c, id, None);
    forall x | x in u.handles ensures EntryOk(u, x) && Tabled(u, x, Some(id)) {
      assert EntryOk(c, x) && Tabled(c, x, None);
    }
  }

  // ---------------------------------------------------------------------

  lemma AddedEntries(c: Lru, tag: Tag, charge: nat, cached: bool)
    requires Ok(c)
    ensures EntriesOk(Added(c, tag, charge, cached)) && DeletedOk(Added(c, tag, charge, cached))
  {
    var r := Added(c, tag, charge, cached);
    forall x | x in r.handles ensures EntryOk(r, x) {
      if x in c.handles {
        assert EntryOk(c, x);
      }
    }
  }

  /** An entry with the same tag that was there before is loose now. */
  ghost function Displaced(c: Lru, tag: Tag, cached: bool): Option<Id> {
    if cached && tag in c.table then Some(c.table[tag]) else None
  }

  lemma AddedTable(c: Lru, tag: Tag, charge: nat, cached: bool)
    requires Ok(c)
    ensures TableOk(Added(c, tag, charge, cached), Displaced(c, tag, cached))
  {
    var r := Added(c, tag, charge, cached);
    forall x | x in r.handles ensures Tabled(r, x, Displaced(c, tag, cached)) {
      if x in c.handles {
        assert Tabled(c, x, None);
      }
    }
  }

  lemma AddedUsage(c: Lru, tag: Tag, charge: nat, cached: bool)
    requires Ok(c)
    ensures UsageOk(Added(c, tag, charge, cached)) && ListsOk(Added(c, tag, charge, cached))
  {
    var r := Added(c, tag, charge, cached);
    assert c.next !in c.handles;
    OutsideCharge(c.handles, r.handles, c.lru, c.next);
    OutsideCharge(c.handles, r.handles, c.inUse, c.next);
    ChargeSnoc(r.handles, c.inUse, c.next);
    SnocNoRepeats(c.inUse, c.next);
  }

  lemma AddedOk(c: Lru, tag: Tag, charge: nat, cached: bool)
    requires Ok(c)
    ensures var r := Added(c, tag, charge, cached);
            && (if cached && tag in c.table then Loose(r, c.table[tag]) else Ok(r)) && HeldKept(c, r)
            && c.next in r.handles && c.next in r.held
  {
    AddedEntries(c, tag, charge, cached);
    AddedTable(c, tag, charge, cached);
    AddedUsage(c, tag, charge, cached);
    if tag in c.table {
      assert Tabled(c, c.table[tag], None);
    }
  }
}
