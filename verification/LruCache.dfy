/** `LRUCache`: one shard of the block cache. */
module LruCache {
  import opened Basics
  import opened HandleTable
  import opened LruState

  lemma {:induction false} WithoutShrinks(s: seq<Id>, id: Id)
    ensures |Without(s, id)| <= |s| && (id in s ==> |Without(s, id)| < |s|)
  {
    if s != [] {
      WithoutShrinks(s[..|s| - 1], id);
    }
  }

  lemma OldestInTable(c: Lru)
    requires Ok(c) && c.lru != []
    ensures c.lru[0] in c.handles && c.handles[c.lru[0]].tag in c.table && c.table[c.handles[c.lru[0]].tag] == c.lru[0]
  {
    assert c.lru[0] in c.lru;
    assert EntryOk(c, c.lru[0]) && Tabled(c, c.lru[0], None);
  }

  /** The cache without its oldest unused entry. */
  ghost function WithoutOldest(c: Lru): (r: Lru)
    requires Ok(c) && c.lru != []
    ensures Ok(r) && |r.lru| < |c.lru|
  {
    OldestInTable(c);
    var tag := c.handles[c.lru[0]].tag;
    UntabledLoose(c, tag);
    DroppedOk(Untabled(c, tag), c.lru[0]);
    WithoutShrinks(c.lru, c.lru[0]);
    Dropped(Untabled(c, tag), c.lru[0])
  }

  /** Evicts the oldest unused entries until the charge fits or none is left. */
  ghost function EvictedDown(c: Lru, capacity: nat): (r: Lru)
    requires Ok(c)
    ensures Ok(r) && (r.usage <= capacity || r.lru == [])
    decreases |c.lru|
  {
    if c.usage <= capacity || c.lru == [] then c else EvictedDown(WithoutOldest(c), capacity)
  }

  /** Evicts every entry nobody uses. */
  ghost function Pruned(c: Lru): (r: Lru)
    requires Ok(c)
    ensures Ok(r) && r.lru == []
    decreases |c.lru|
  {
    if c.lru == [] then c else Pruned(WithoutOldest(c))
  }

  /** The least recently used go first, and none goes while the charge fits. */
  lemma {:induction false} OldestGoFirst(c: Lru, capacity: nat) returns (n: nat)
    requires Ok(c)
    ensures n <= |c.lru| && EvictedDown(c, capacity).lru == c.lru[n..]
    ensures EvictedDown(c, capacity).usage == c.usage - TotalCharge(c.handles, c.lru[..n])
    ensures forall m :: 0 <= m < n ==> StillOver(c, capacity, m)
    decreases |c.lru|
  {
    hide WithoutOldest;
    n := 0;
    if c.usage > capacity && c.lru != [] {
      var d := WithoutOldest(c);
      OldestLeavesRest(c);
      var k := OldestGoFirst(d, capacity);
      n := k + 1;
      FirstCharge(c.handles, d.handles, c.lru, k);
      forall m | 0 <= m < n ensures StillOver(c, capacity, m) {
        OverBefore(c, d, capacity, m);
      }
    }
  }

  /** With the first `m` unused entries gone, the charge is still over the capacity. */
  ghost predicate StillOver(c: Lru, capacity: nat, m: nat) {
    m <= |c.lru| && c.usage - TotalCharge(c.handles, c.lru[..m]) > capacity
  }

  lemma OverBefore(c: Lru, d: Lru, capacity: nat, m: nat)
    requires c.usage > capacity && c.lru != [] && (m > 0 ==> StillOver(d, capacity, m - 1))
    requires d.lru == c.lru[1..] && d.usage == c.usage - Charge(c.handles, c.lru[0])
    requires forall i :: 0 < i < |c.lru| ==> Charge(d.handles, c.lru[i]) == Charge(c.handles, c.lru[i])
    ensures StillOver(c, capacity, m)
  {
    if m > 0 {
      FirstCharge(c.handles, d.handles, c.lru, m - 1);
    }
  }

  lemma {:induction false} WithoutFirst(s: seq<Id>)
    requires NoRepeats(s) && s != []
    ensures Without(s, s[0]) == s[1..]
  {
    if |s| > 1 {
      WithoutFirst(s[..|s| - 1]);
      assert s[..|s| - 1][1..] + [s[|s| - 1]] == s[1..];
    }
  }

  lemma OldestFields(c: Lru)
    requires Ok(c) && c.lru != []
    ensures c.lru[0] in c.handles && WithoutOldest(c).lru == Without(c.lru, c.lru[0])
    ensures WithoutOldest(c).usage == c.usage - c.handles[c.lru[0]].charge && WithoutOldest(c).handles == c.handles - {c.lru[0]}
  {
    OldestInTable(c);
    assert c.lru[0] in c.lru;
    assert EntryOk(c, c.lru[0]);
    var h := c.handles[c.lru[0]];
    assert c.handles[c.lru[0] := h.(inCache := false)] - {c.lru[0]} == c.handles - {c.lru[0]};
  }

  lemma OldestLeavesRest(c: Lru)
    requires Ok(c) && c.lru != []
    ensures WithoutOldest(c).lru == c.lru[1..] && WithoutOldest(c).usage == c.usage - Charge(c.handles, c.lru[0])
    ensures forall i :: 0 < i < |c.lru| ==> Charge(WithoutOldest(c).handles, c.lru[i]) == Charge(c.handles, c.lru[i])
  {
    OldestFields(c);
    WithoutFirst(c.lru);
  }

  lemma {:induction false} FirstCharge(h: map<Id, Handle>, h': map<Id, Handle>, s: seq<Id>, m: nat)
    requires m < |s| && forall i :: 0 < i < |s| ==> Charge(h', s[i]) == Charge(h, s[i])
    ensures TotalCharge(h, s[..m + 1]) == Charge(h, s[0]) + TotalCharge(h', s[1..][..m])
    decreases m
  {
    ChargeSnoc(h, s[..m], s[m]);
    assert s[..m + 1] == s[..m] + [s[m]];
    if m == 0 {
      assert s[..0] == [] && s[1..][..0] == [];
    } else {
      FirstCharge(h, h', s, m - 1);
      ChargeSnoc(h', s[1..][..m - 1], s[m]);
      assert s[1..][..m] == s[1..][..m - 1] + [s[m]];
    }
  }

  /** A new entry has been added, and the one it displaces dropped. */
  ghost function Joined(c: Lru, tag: Tag, charge: nat, cached: bool): (r: Lru)
    requires Ok(c)
    ensures Ok(r) && HeldKept(c, r)
  {
    AddedOk(c, tag, charge, cached);
    var a := Added(c, tag, charge, cached);
    if cached && tag in c.table then
      DroppedOk(a, c.table[tag]);
      HeldKeptTwice(c, a, Dropped(a, c.table[tag]));
      Dropped(a, c.table[tag])
    else a
  }

  lemma OldestLeaves(c: Lru, id: Id)
    requires Ok(c) && c.lru != [] && id in c.held && c.held[id] > 0
    ensures id in c.handles && id in WithoutOldest(c).handles && WithoutOldest(c).handles[id] == c.handles[id]
    ensures id in WithoutOldest(c).held && WithoutOldest(c).held[id] == c.held[id]
  {
    OldestInTable(c);
    assert c.lru[0] in c.lru;
    assert EntryOk(c, c.lru[0]) && EntryOk(c, id);
  }

  lemma OldestKeepsHeld(c: Lru)
    requires Ok(c) && c.lru != []
    ensures HeldKept(c, WithoutOldest(c))
  {
    forall id | id in c.held && c.held[id] > 0 ensures id in WithoutOldest(c).held && WithoutOldest(c).held[id] == c.held[id] {
      OldestLeaves(c, id);
    }
  }

  /** Making room leaves alone whatever a client holds. */
  lemma {:induction false} EvictedDownLeaves(c: Lru, capacity: nat, id: Id)
    requires Ok(c) && id in c.held && c.held[id] > 0
    ensures var r := EvictedDown(c, capacity);
            id in c.handles && id in r.handles && r.handles[id] == c.handles[id] && id in r.held && r.held[id] == c.held[id]
    decreases |c.lru|
  {
    if c.usage > capacity && c.lru != [] {
      OldestLeaves(c, id);
      EvictedDownLeaves(WithoutOldest(c), capacity, id);
    }
  }

  lemma HeldKeptTwice(a: Lru, b: Lru, c: Lru)
    requires HeldKept(a, b) && HeldKept(b, c)
    ensures HeldKept(a, c)
  {
  }

  lemma TableLeads(c: Lru, tag: Tag)
    requires Ok(c) && tag in c.table
    ensures c.table[tag] in c.handles && c.table[tag] in c.held
  {
  }

  /** What an entry just added looks like once room has been made. */
  lemma NewStays(c: Lru, capacity: nat, id: Id)
    requires Ok(c) && id in c.handles && id in c.held && c.held[id] == 1
    ensures var r := EvictedDown(c, capacity);
            && id in r.handles && id in r.held && r.held[id] == 1 && r.handles[id] == c.handles[id] && HeldKept(c, r)
            && (r.handles[id].inCache ==> r.handles[id].tag in r.table && r.table[r.handles[id].tag] == id)
  {
    var r := EvictedDown(c, capacity);
    forall x | x in c.held && c.held[x] > 0 ensures x in r.held && r.held[x] == c.held[x] {
      EvictedDownLeaves(c, capacity, x);
    }
    EvictedDownLeaves(c, capacity, id);
    assert Tabled(r, id, None);
  }

  class LRUCache {
    var capacity: nat
    var usage: nat
    var handles: map<Id, Handle>
    var lru: seq<Id>
    var inUse: seq<Id>
    const table: Table
    /** Entries whose deleter has been called, and the next address to be allocated. */
    var deleted: seq<Id>
    var next: Id
    ghost var held: map<Id, nat>

    ghost function View(): Lru
      reads this, table
    {
      Lru(handles, lru, inUse, table.m, usage, held, deleted, next)
    }

    ghost predicate Valid()
      reads this, table
    {
      table.Valid() && Ok(View())
    }

    constructor (capacity: nat)
      ensures Valid() && fresh(table) && this.capacity == capacity && View() == Lru(map[], [], [], map[], 0, map[], [], 0)
    {
      this.capacity := capacity;
      usage, handles, lru, inUse, deleted, next, held := 0, map[], [], [], [], 0, map[];
      table := new Table();
    }

    method Ref(e: Id)
      requires e in handles && e in held
      modifies this
      ensures View() == Referenced(old(View()), e) && capacity == old(capacity)
    {
      var h := handles[e];
      if h.refs == 1 && h.inCache {
        lru := Without(lru, e);
        inUse := inUse + [e];
      }
      handles := handles[e := h.(refs := h.refs + 1)];
      held := held[e := held[e] + 1];
    }

    method Unref(e: Id)
      requires e in handles && handles[e].refs > 0
      modifies this
      ensures View() == Unreferenced(old(View()), e) && capacity == old(capacity)
    {
      var h := handles[e];
      var refs := h.refs - 1;
      if refs == 0 {
        deleted := deleted + [e];
        handles := handles - {e};
        held := held - {e};
      } else {
        handles := handles[e := h.(refs := refs)];
        if h.inCache && refs == 1 {
          inUse := Without(inUse, e);
          lru := lru + [e];
        }
      }
    }

    /** The entry has left the table; now it leaves its list, the charge and the cache. */
    method FinishErase(e: Id)
      requires e in handles && handles[e].refs > 0 && usage >= handles[e].charge
      modifies this
      ensures View() == Dropped(old(View()), e) && capacity == old(capacity)
    {
      var h := handles[e];
      lru, inUse := Without(lru, e), Without(inUse, e);
      handles := handles[e := h.(inCache := false)];
      usage := usage - h.charge;
      Unref(e);
    }

    method Lookup(tag: Tag) returns (r: Option<Id>)
      requires Valid()
      modifies this
      ensures Valid() && r == if tag in old(table.m) then Some(old(table.m)[tag]) else None
      ensures r.Some? ==> r.value in old(View()).handles && View() == Referenced(old(View()), r.value)
      ensures r.None? ==> View() == old(View())
    {
      hide Represents, EntriesOk, TableOk, ListsOk, UsageOk;
      r := table.Lookup(tag);
      if r.Some? {
        TableLeads(View(), tag);
        ReferencedOk(View(), r.value);
        Ref(r.value);
      }
    }

    /** A client returns a handle it holds. */
    method Release(e: Id)
      requires Valid() && e in held && held[e] > 0
      modifies this
      ensures Valid() && e in old(View()).handles && old(View()).handles[e].refs > 0 && View() == Released(old(View()), e)
    {
      ReleasedOk(View(), e);
      GiveBack(e);
    }

    method GiveBack(e: Id)
      requires e in held && held[e] > 0 && e in handles && handles[e].refs > 0
      modifies this
      ensures View() == Released(old(View()), e)
    {
      held := held[e := held[e] - 1];
      Unref(e);
    }

    method Erase(tag: Tag)
      requires Valid()
      modifies this, table
      ensures Valid() && tag !in table.m && HeldKept(old(View()), View()) && capacity == old(capacity)
      ensures table.m == old(table.m) - {tag}
      ensures if tag in old(table.m)
              then Droppable(Untabled(old(View()), tag), old(table.m)[tag]) && View() == Dropped(Untabled(old(View()), tag), old(table.m)[tag])
              else View() == old(View())
    {
      ghost var before := View();
      var e := RemoveFromTable(tag);
      if e.Some? {
        UntabledLoose(before, tag);
        DropLoose(e.value);
      }
    }

    method RemoveFromTable(tag: Tag) returns (e: Option<Id>)
      requires table.Valid()
      modifies table
      ensures table.Valid() && View() == Untabled(old(View()), tag)
      ensures e == if tag in old(table.m) then Some(old(table.m)[tag]) else None
      ensures e.None? ==> View() == old(View())
    {
      hide Represents;
      e := table.Remove(tag);
      assert tag !in old(table.m) ==> old(table.m) - {tag} == old(table.m);
    }

    /** An entry that has left the table leaves the cache. */
    method DropLoose(e: Id)
      requires table.Valid() && Loose(View(), e)
      modifies this
      ensures Valid() && HeldKept(old(View()), View()) && capacity == old(capacity)
      ensures Droppable(old(View()), e) && View() == Dropped(old(View()), e)
    {
      DroppedOk(View(), e);
      FinishErase(e);
    }

    /** Removes the oldest unused entries while the charge exceeds the capacity. */
    method EvictOverflow()
      requires Valid()
      modifies this, table
      ensures Valid() && View() == EvictedDown(old(View()), old(capacity)) && capacity == old(capacity)
    {
      ghost var goal := EvictedDown(View(), capacity);
      while usage > capacity && lru != []
        invariant Valid() && EvictedDown(View(), capacity) == goal && capacity == old(capacity)
        decreases |lru|
      {
        EvictOldest();
      }
    }

    method EvictOldest()
      requires Valid() && lru != []
      modifies this, table
      ensures Valid() && View() == WithoutOldest(old(View())) && capacity == old(capacity)
    {
      ghost var before := View();
      OldestInTable(before);
      var e := lru[0];
      var tag := handles[e].tag;
      UntabledLoose(before, tag);
      var removed := RemoveFromTable(tag);
      DropLoose(e);
    }

    /** Drops every entry nobody uses. */
    method Prune()
      requires Valid()
      modifies this, table
      ensures Valid() && lru == [] && capacity == old(capacity) && HeldKept(old(View()), View())
      ensures View() == Pruned(old(View()))
    {
      ghost var before := View();
      while lru != []
        invariant Valid() && capacity == old(capacity) && HeldKept(before, View()) && Pruned(View()) == Pruned(before)
        decreases |lru|
      {
        OldestKeepsHeld(View());
        EvictOldest();
      }
    }

    /** A new entry for the tag; an older one is dropped, and the rest made to fit. */
    method Insert(tag: Tag, charge: nat) returns (e: Id)
      requires Valid()
      modifies this, table
      ensures Valid() && (usage <= capacity || lru == [])
      ensures e in handles && e in held && held[e] == 1 && handles[e].tag == tag && HeldKept(old(View()), View())
      ensures capacity > 0 ==> tag in table.m && table.m[tag] == e
      ensures View() == EvictedDown(Joined(old(View()), tag, charge, capacity > 0), capacity) && capacity == old(capacity)
    {
      ghost var before := View();
      e := AddEntry(tag, charge);
      ghost var added := View();
      NewStays(added, capacity, e);
      EvictOverflow();
      HeldKeptTwice(before, added, View());
    }

    method AddEntry(tag: Tag, charge: nat) returns (e: Id)
      requires Valid()
      modifies this, table
      ensures Valid() && capacity == old(capacity) && HeldKept(old(View()), View())
      ensures e in handles && handles[e].tag == tag && e in held && held[e] == 1 && (capacity > 0 <==> handles[e].inCache)
      ensures View() == Joined(old(View()), tag, charge, capacity > 0)
    {
      ghost var before := View();
      AddedOk(before, tag, charge, capacity > 0);
      if capacity > 0 {
        var displaced;
        e, displaced := PutInCache(tag, charge);
        if displaced.Some? {
          ghost var added := View();
          Displacing(before, tag, charge);
          DropLoose(displaced.value);
          HeldKeptTwice(before, added, View());
        }
      } else {
        e := PutAside(tag, charge);
      }
    }

    method PutAside(tag: Tag, charge: nat) returns (e: Id)
      modifies this
      ensures e == old(next) && capacity == old(capacity) && View() == Added(old(View()), tag, charge, false)
    {
      e := next;
      next := next + 1;
      handles := handles[e := Handle(tag, charge, false, 1)];
      held := held[e := 1];
    }

    /** The new entry goes to the in-use list and into the table. */
    method PutInCache(tag: Tag, charge: nat) returns (e: Id, displaced: Option<Id>)
      requires table.Valid()
      modifies this, table
      ensures e == old(next) && capacity == old(capacity) && table.Valid()
      ensures View() == Added(old(View()), tag, charge, true)
      ensures displaced == if tag in old(table.m) then Some(old(table.m)[tag]) else None
    {
      e := LinkEntry(tag, charge);
      displaced := table.Insert(tag, e);
    }

    method LinkEntry(tag: Tag, charge: nat) returns (e: Id)
      modifies this
      ensures e == old(next) && capacity == old(capacity)
      ensures View() == Added(old(View()), tag, charge, true).(table := old(table.m))
    {
      e := next;
      next := next + 1;
      handles := handles[e := Handle(tag, charge, true, 2)];
      held := held[e := 1];
      inUse := inUse + [e];
      usage := usage + charge;
    }
  }

  /** The new entry is not the one that is displaced, and keeps its place when that one is dropped. */
  lemma Displacing(c: Lru, tag: Tag, charge: nat)
    requires Ok(c) && tag in c.table
    ensures var r, id := Added(c, tag, charge, true), c.table[tag];
            && Droppable(r, id) && c.next in Dropped(r, id).handles && Dropped(r, id).handles[c.next] == r.handles[c.next]
  {
    AddedOk(c, tag, charge, true);
    LooseDroppable(Added(c, tag, charge, true), c.table[tag]);
    assert c.table[tag] in c.handles;
  }
}
