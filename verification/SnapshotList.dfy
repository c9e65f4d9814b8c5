/** The circular doubly linked list of snapshots, oldest first. */
module SnapshotList {

  class SnapshotImpl {
    const sequence: nat
    var prev: SnapshotImpl?
    var next: SnapshotImpl?

    constructor (s: nat)
      ensures sequence == s
    {
      sequence, prev, next := s, null, null;
    }
  }

  /** The node after the `i`-th, round the ring. */
  ghost function After(nodes: seq<SnapshotImpl>, i: nat): SnapshotImpl
    requires i < |nodes|
  {
    if i + 1 < |nodes| then nodes[i + 1] else nodes[0]
  }

  ghost predicate LinkedAt(nodes: seq<SnapshotImpl>, i: nat)
    requires i < |nodes|
    reads nodes
  {
    nodes[i].next == After(nodes, i) && After(nodes, i).prev == nodes[i]
  }

  /** All nodes are different, and the snapshots among them ascend; the first is the dummy head. */
  ghost predicate Ordered(nodes: seq<SnapshotImpl>) {
    && |nodes| > 0
    && (forall i, j :: 0 <= i < j < |nodes| ==> nodes[i] != nodes[j])
    && (forall i, j :: 0 < i < j < |nodes| ==> nodes[i].sequence <= nodes[j].sequence)
  }

  ghost function Cut(nodes: seq<SnapshotImpl>, i: nat): seq<SnapshotImpl>
    requires i < |nodes|
  {
    nodes[..i] + nodes[i + 1..]
  }

  lemma CutOrdered(nodes: seq<SnapshotImpl>, i: nat)
    requires Ordered(nodes) && 0 < i < |nodes|
    ensures Ordered(Cut(nodes, i))
  {
  }

  /** Where the `x`-th node stood before the `i`-th was cut out, and what came after it. */
  lemma CutAfter(nodes: seq<SnapshotImpl>, i: nat, x: nat) returns (at: nat)
    requires Ordered(nodes) && 0 < i < |nodes| && x < |nodes| - 1
    ensures at < |nodes| && at != i && Cut(nodes, i)[x] == nodes[at] && (at == i - 1 <==> x == i - 1)
    ensures After(Cut(nodes, i), x) == if x == i - 1 then After(nodes, i) else After(nodes, at)
    ensures x != i - 1 ==> nodes[at] != nodes[i - 1] && After(nodes, at) != After(nodes, i)
  {
    at := if x < i then x else x + 1;
  }

  class List {
    const head: SnapshotImpl
    /** The ring, from the dummy head on. */
    ghost var nodes: seq<SnapshotImpl>

    ghost predicate Valid()
      reads this, nodes
    {
      && Ordered(nodes) && nodes[0] == head
      && forall i :: 0 <= i < |nodes| ==> LinkedAt(nodes, i)
    }

    constructor ()
      ensures Valid() && nodes == [head] && fresh(nodes)
    {
      var h := new SnapshotImpl(0);
      head := h;
      nodes := [h];
      new;
      h.prev, h.next := h, h;
    }

    method Empty() returns (e: bool)
      requires Valid()
      ensures e <==> |nodes| == 1
    {
      assert LinkedAt(nodes, 0);
      e := head.next == head;
    }

    /** The first snapshot; none held is older. */
    method Oldest() returns (s: SnapshotImpl)
      requires Valid() && |nodes| > 1
      ensures s == nodes[1] && forall i :: 0 < i < |nodes| ==> s.sequence <= nodes[i].sequence
    {
      assert LinkedAt(nodes, 0);
      s := head.next;
    }

    /** The last snapshot; none held is newer. */
    method Newest() returns (s: SnapshotImpl)
      requires Valid() && |nodes| > 1
      ensures s == nodes[|nodes| - 1] && forall i :: 0 < i < |nodes| ==> nodes[i].sequence <= s.sequence
    {
      assert LinkedAt(nodes, |nodes| - 1);
      s := head.prev;
    }

    /** `New`: the snapshot goes behind all others, which must not be newer. */
    method New(sequence: nat) returns (s: SnapshotImpl)
      requires Valid() && (|nodes| > 1 ==> nodes[|nodes| - 1].sequence <= sequence)
      modifies this, nodes
      ensures Valid() && fresh(s) && s.sequence == sequence && nodes == old(nodes) + [s]
    {
      ghost var was := nodes;
      assert LinkedAt(was, |was| - 1);
      s := new SnapshotImpl(sequence);
      var last := head.prev;
      s.next, s.prev := head, last;
      last.next := s;
      head.prev := s;
      nodes := nodes + [s];
      forall x | 0 <= x < |nodes| ensures LinkedAt(nodes, x) {
        if x < |was| - 1 {
          assert old(LinkedAt(was, x));
        }
      }
    }

    /** `Delete`: the snapshot is unlinked, and the others keep their order. */
    method Delete(s: SnapshotImpl, ghost i: nat)
      requires Valid() && 0 < i < |nodes| && nodes[i] == s
      modifies this, nodes
      ensures Valid() && nodes == old(Cut(nodes, i))
    {
      ghost var was := nodes;
      assert LinkedAt(was, i - 1) && LinkedAt(was, i);
      var before, after := s.prev, s.next;
      before.next := after;
      after.prev := before;
      nodes := Cut(was, i);
      CutOrdered(was, i);
      forall x | 0 <= x < |nodes| ensures LinkedAt(nodes, x) {
        ghost var at := CutAfter(was, i, x);
        assert old(LinkedAt(was, at));
      }
    }
  }
}
