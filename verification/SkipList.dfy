/** `SkipList`: its searches, and an insertion made of single stores. */
module SkipList {
  import opened Basics
  import opened SkipListModel

  /** The nodes linked on the bottom level after `x`; a search moves towards fewer of them. */
  ghost function Ahead(m: Memory, up: Linked, x: nat): set<nat>
    requires |up| == |m| && x < |m|
  {
    set y | 0 <= y < |m| && up[y] > 0 && After(m, y, x)
  }

  lemma Closer(m: Memory, up: Linked, l: nat, x: nat, y: nat)
    requires |up| == |m| && x < |m| && IsNext(m, up, l, x, Some(y))
    ensures |Ahead(m, up, y)| < |Ahead(m, up, x)|
  {
    assert y in Ahead(m, up, x) && y !in Ahead(m, up, y);
    assert Ahead(m, up, y) <= Ahead(m, up, x);
    Smaller(Ahead(m, up, y), Ahead(m, up, x), y);
  }

  lemma Smaller(a: set<nat>, b: set<nat>, y: nat)
    requires a <= b && y in b && y !in a
    ensures |a| < |b|
  {
    SubsetSize(a, b - {y});
  }

  lemma SubsetSize(a: set<nat>, b: set<nat>)
    requires a <= b
    ensures |a| <= |b|
  {
    if a != {} {
      var x :| x in a;
      SubsetSize(a - {x}, b - {x});
    }
  }

  class SkipList {
    var nodes: Memory
    var maxHeight: nat
    ghost var up: Linked

    ghost predicate Valid()
      reads this
    {
      && Inv(nodes, up) && 0 < maxHeight <= MAX_HEIGHT
      && (forall x :: 0 < x < |nodes| ==> 0 < up[x] == |nodes[x].next| <= maxHeight)
    }

    ghost function Contents(): set<Key>
      requires Valid()
      reads this
    {
      Keys(nodes, up)
    }

    constructor ()
      ensures Valid() && Contents() == {}
    {
      nodes := EmptyMemory();
      maxHeight := 1;
      up := [MAX_HEIGHT];
    }

    /** The earliest node at or after `k`, and for each level the last node before it. */
    method FindGreaterOrEqual(k: Key) returns (r: Option<nat>, prev: seq<nat>)
      requires Valid()
      ensures IsLowerBound(nodes, up, k, r)
      ensures |prev| == maxHeight && forall l :: 0 <= l < maxHeight ==> Before(l, prev[l], k)
    {
      var x: nat, level: nat := 0, maxHeight - 1;
      prev := seq(maxHeight, l => 0);
      while true
        invariant level < maxHeight && |prev| == maxHeight && OnTheWay(nodes, up, k, x, level)
        invariant forall l :: level < l < maxHeight ==> Before(l, prev[l], k)
        decreases level, |Ahead(nodes, up, x)|
      {
        var next := nodes[x].next[level];
        assert IsNext(nodes, up, level, x, next);
        if next.Some? && nodes[next.value].key < k {
          Closer(nodes, up, level, x, next.value);
          x := next.value;
        } else {
          prev := prev[level := x];
          if level == 0 {
            LastLoadIsLowerBound(nodes, up, k, x);
            return next, prev;
          }
          level := level - 1;
        }
      }
    }

    /** `p` is the last node on level `l` whose key is below `k`. */
    ghost predicate Before(l: nat, p: nat, k: Key)
      requires Valid()
      reads this
    {
      && p < |nodes| && l < up[p] && Below(nodes, p, k)
      && (nodes[p].next[l].Some? ==> nodes[p].next[l].value < |nodes| && nodes[nodes[p].next[l].value].key >= k)
    }

    /** The latest node with a key below `k`, or the head. */
    method FindLessThan(k: Key) returns (x: nat)
      requires Valid()
      ensures x < |nodes| && Below(nodes, x, k) && (x > 0 ==> nodes[x].key in Contents())
      ensures forall q :: q in Contents() && q < k ==> x > 0 && q <= nodes[x].key
    {
      var level: nat := maxHeight - 1;
      x := 0;
      while true
        invariant level < maxHeight && OnTheWay(nodes, up, k, x, level)
        decreases level, |Ahead(nodes, up, x)|
      {
        var next := nodes[x].next[level];
        assert IsNext(nodes, up, level, x, next);
        if next.None? || nodes[next.value].key >= k {
          if level == 0 {
            AllBefore(nodes, up, k, x);
            return;
          }
          level := level - 1;
        } else {
          Closer(nodes, up, level, x, next.value);
          x := next.value;
        }
      }
    }

    /** The node with the greatest key, or the head. */
    method FindLast() returns (x: nat)
      requires Valid()
      ensures x < |nodes| && (x > 0 ==> nodes[x].key in Contents())
      ensures forall q :: q in Contents() ==> x > 0 && q <= nodes[x].key
    {
      var level: nat := maxHeight - 1;
      x := 0;
      while true
        invariant level < maxHeight && x < |nodes| && level < up[x]
        decreases level, |Ahead(nodes, up, x)|
      {
        var next := nodes[x].next[level];
        assert IsNext(nodes, up, level, x, next);
        if next.None? {
          if level == 0 {
            NothingAfter(nodes, up, x);
            return;
          }
          level := level - 1;
        } else {
          Closer(nodes, up, level, x, next.value);
          x := next.value;
        }
      }
    }

    method Contains(k: Key) returns (r: bool)
      requires Valid()
      ensures r <==> k in Contents()
    {
      var x, prev := FindGreaterOrEqual(k);
      r := x.Some? && nodes[x.value].key == k;
    }

    /** Adds a key that is not there yet; the height is drawn at random. */
    method Insert(k: Key, height: nat)
      requires Valid() && k !in Contents() && 0 < height <= MAX_HEIGHT
      modifies this
      ensures Valid() && Contents() == old(Contents()) + {k}
    {
      var place := FindPlaces(k, height);
      Link(k, place);
    }

    /** Where the new node goes on each of its levels; on levels not in use yet, right after the head. */
    method FindPlaces(k: Key, height: nat) returns (place: seq<nat>)
      requires Valid() && k !in Contents() && 0 < height <= MAX_HEIGHT
      ensures |place| == height && Places(nodes, up, place, 0, k)
    {
      var r, prev := FindGreaterOrEqual(k);
      forall l | 0 <= l < maxHeight ensures IsPlace(nodes, up, l, prev[l], k) {
        Strictly(nodes, up, l, prev[l], k);
      }
      while |prev| < height
        invariant forall l :: 0 <= l < |prev| ==> IsPlace(nodes, up, l, prev[l], k)
        invariant maxHeight <= |prev| <= Max(height, maxHeight)
      {
        EmptyLevel(nodes, up, |prev|, k);
        prev := prev + [0];
      }
      place := prev[..height];
    }

    /** The stores of an insertion, bottom level first; after each, the list is in order for readers. */
    method Link(k: Key, place: seq<nat>)
      requires Valid() && k !in Contents() && 0 < |place| <= MAX_HEIGHT && Places(nodes, up, place, 0, k)
      modifies this
      ensures Valid() && Contents() == old(Contents()) + {k}
    {
      var x := |nodes|;
      ghost var s := Allocate(k, place);
      ghost var before := Keys(nodes, up);
      for i := 0 to |place|
        invariant Stage(s, x, k, place, i)
        invariant Keys(nodes, up) == if i == 0 then before else before + {k}
      {
        s := LinkLevel(x, k, place, i, s);
      }
    }

    /** Between stores: levels below `i` of node `x` are linked, and every other node is linked throughout. */
    ghost predicate Stage(s: Shared, x: nat, k: Key, place: seq<nat>, i: nat)
      reads this
    {
      && s == Shared(nodes, up, maxHeight, if i < |place| then Linking(x, place, i, false) else Resting, Away) && SharedInv(s)
      && 0 < x < |nodes| && nodes[x].key == k && |nodes[x].next| == |place| && up[x] == i <= |place|
      && (forall z :: 0 < z < |nodes| ==> |nodes[z].next| <= maxHeight && (z != x ==> 0 < up[z] == |nodes[z].next|))
    }

    method Allocate(k: Key, place: seq<nat>) returns (ghost s: Shared)
      requires Valid() && k !in Contents() && 0 < |place| <= MAX_HEIGHT && Places(nodes, up, place, 0, k)
      modifies this
      ensures Stage(s, old(|nodes|), k, place, 0) && Keys(nodes, up) == old(Contents())
    {
      ghost var before := Shared(nodes, up, maxHeight, Resting, Away);
      maxHeight := Max(maxHeight, |place|);
      nodes := Alloc(nodes, k, |place|);
      up := up + [0];
      s := Shared(nodes, up, maxHeight, Linking(|nodes| - 1, place, 0, false), Away);
      BeginInsertKeeps(before, s, k, place);
    }

    /** The two stores of one level: the new node's own link, then the link to it. */
    method LinkLevel(x: nat, k: Key, place: seq<nat>, i: nat, ghost s: Shared) returns (ghost t: Shared)
      requires i < |place| && Stage(s, x, k, place, i)
      modifies this
      ensures Stage(t, x, k, place, i + 1) && Keys(nodes, up) == old(Keys(nodes, up)) + {k}
    {
      var p := place[i];
      assert IsPlace(nodes, up, i, p, k);
      nodes := SetNext(nodes, x, i, nodes[p].next[i]);
      ghost var half := s.(m := nodes, writer := Linking(x, place, i, true));
      PrepareStepKeeps(s, half);
      assert IsPlace(nodes, up, i, p, k);
      nodes := SetNext(nodes, p, i, Some(x));
      up := up[x := i + 1];
      t := Shared(nodes, up, maxHeight, if i + 1 < |place| then Linking(x, place, i + 1, false) else Resting, Away);
      PublishStepKeeps(half, t);
    }
  }

  lemma AllBefore(m: Memory, up: Linked, k: Key, x: nat)
    requires Inv(m, up) && OnTheWay(m, up, k, x, 0)
    requires m[x].next[0].Some? ==> m[x].next[0].value < |m| && m[m[x].next[0].value].key >= k
    ensures forall q :: q in Keys(m, up) && q < k ==> x > 0 && q <= m[x].key
    ensures x > 0 ==> m[x].key in Keys(m, up)
  {
    assert IsNext(m, up, 0, x, m[x].next[0]);
    forall q | q in Keys(m, up) && q < k ensures x > 0 && q <= m[x].key {
      var z :| 0 < z < |m| && up[z] > 0 && m[z].key == q;
      assert !After(m, z, x);
    }
  }

  lemma NothingAfter(m: Memory, up: Linked, x: nat)
    requires Inv(m, up) && x < |m| && 0 < up[x] && m[x].next[0].None?
    ensures forall q :: q in Keys(m, up) ==> x > 0 && q <= m[x].key
    ensures x > 0 ==> m[x].key in Keys(m, up)
  {
    assert IsNext(m, up, 0, x, None);
    forall q | q in Keys(m, up) ensures x > 0 && q <= m[x].key {
      var z :| 0 < z < |m| && up[z] > 0 && m[z].key == q;
      assert !After(m, z, x);
    }
  }

  /** A key that is absent is strictly between its neighbours. */
  lemma Strictly(m: Memory, up: Linked, l: nat, p: nat, k: Key)
    requires Inv(m, up) && k !in Keys(m, up) && p < |m| && l < up[p] && Below(m, p, k)
    requires m[p].next[l].Some? ==> m[p].next[l].value < |m| && m[m[p].next[l].value].key >= k
    ensures IsPlace(m, up, l, p, k)
  {
    assert IsNext(m, up, l, p, m[p].next[l]);
    if m[p].next[l].Some? {
      assert m[m[p].next[l].value].key in Keys(m, up);
    }
  }

  /** On a level no node reaches, the place of every key is right after the head. */
  lemma EmptyLevel(m: Memory, up: Linked, l: nat, k: Key)
    requires Inv(m, up) && l < MAX_HEIGHT && forall x :: 0 < x < |m| ==> up[x] <= l
    ensures IsPlace(m, up, l, 0, k)
  {
    assert IsNext(m, up, l, 0, m[0].next[l]);
  }
}
