/**
 The merging iterator: children with no common key, and a cursor over their
 sorted merge that can change direction at any point.
 */
module Merger {
  import opened Basics
  import opened DbFormat
  import opened Cursors
  import Version

  ghost predicate Contributes(child: seq<Entry>, merged: seq<Entry>) {
    forall j :: 0 <= j < |child| ==> child[j] in merged
  }

  ghost predicate Supplied(children: seq<seq<Entry>>, merged: seq<Entry>, r: nat)
    requires r < |merged|
  {
    exists c, j :: 0 <= c < |children| && 0 <= j < |children[c]| && children[c][j] == merged[r]
  }

  /** `merged` lists the entries of all children in key order. */
  ghost predicate IsMerge(children: seq<seq<Entry>>, merged: seq<Entry>) {
    && Sorted(merged)
    && (forall c :: 0 <= c < |children| ==> Sorted(children[c]))
    && (forall c {:trigger Contributes(children[c], merged)} :: 0 <= c < |children| ==> Contributes(children[c], merged))
    && (forall r {:trigger Supplied(children, merged, r)} :: 0 <= r < |merged| ==> Supplied(children, merged, r))
  }

  ghost predicate KeysDiffer(a: seq<Entry>, b: seq<Entry>) {
    forall i, j :: 0 <= i < |a| && 0 <= j < |b| ==> a[i].key != b[j].key
  }

  ghost predicate NoCommonKey(children: seq<seq<Entry>>) {
    forall c, d :: 0 <= c < d < |children| ==> KeysDiffer(children[c], children[d]) && KeysDiffer(children[d], children[c])
  }

  /** The first `n` entries of a child belong before position `b` of the merge, the others do not. */
  ghost predicate Cut(child: seq<Entry>, n: nat, merged: seq<Entry>, b: nat) {
    && n <= |child| && b <= |merged|
    && (forall j, r :: 0 <= j < n && b <= r < |merged| ==> Less(child[j].key, merged[r].key))
    && (forall j, r :: n <= j < |child| && 0 <= r < b ==> Less(merged[r].key, child[j].key))
  }

  ghost predicate InBounds(children: seq<seq<Entry>>, pos: seq<Option<nat>>) {
    |pos| == |children| && forall c :: 0 <= c < |pos| && pos[c].Some? ==> pos[c].value < |children[c]|
  }

  /** Every child stands on its first entry that is not before position `b`. */
  ghost predicate AheadOf(children: seq<seq<Entry>>, pos: seq<Option<nat>>, merged: seq<Entry>, b: nat) {
    && InBounds(children, pos)
    && forall c :: 0 <= c < |pos| ==> Cut(children[c], Passed(|children[c]|, pos[c]), merged, b)
  }

  /** Every child stands on its last entry before position `b`. */
  ghost predicate Behind(children: seq<seq<Entry>>, pos: seq<Option<nat>>, merged: seq<Entry>, b: nat) {
    && InBounds(children, pos)
    && forall c :: 0 <= c < |pos| ==> Cut(children[c], Upto(pos[c]), merged, b)
  }

  lemma CutStart(child: seq<Entry>, merged: seq<Entry>)
    ensures Cut(child, 0, merged, 0) && Cut(child, |child|, merged, |merged|)
  {
  }

  /** Seeking a key cuts every child at the same place as the merge. */
  lemma CutSeek(child: seq<Entry>, merged: seq<Entry>, k: InternalKey, b: nat)
    requires Sorted(child) && Sorted(merged) && b <= |merged|
    requires forall r :: 0 <= r < b ==> Less(merged[r].key, k)
    requires forall r :: b <= r < |merged| ==> !Less(merged[r].key, k)
    ensures Cut(child, Version.LowerBound(child, k), merged, b)
  {
    var n := Version.LowerBound(child, k);
    forall j | n <= j < |child| ensures !Less(child[j].key, k) {
      if n < j {
        assert Less(child[n].key, child[j].key);
      }
    }
  }

  lemma MergedAt(merged: seq<Entry>, a: nat, b: nat)
    requires Sorted(merged) && a < |merged| && b < |merged|
    ensures Less(merged[a].key, merged[b].key) <==> a < b
    ensures merged[a].key == merged[b].key ==> a == b
  {
  }

  /** Moving the cut past the entry the chosen child stands on. */
  lemma CutAdvances(child: seq<Entry>, n: nat, merged: seq<Entry>, b: nat)
    requires Sorted(child) && Sorted(merged) && Cut(child, n, merged, b) && n < |child| && b < |merged| && child[n] == merged[b]
    ensures Cut(child, n + 1, merged, b + 1)
  {
  }

  lemma CutStays(child: seq<Entry>, n: nat, merged: seq<Entry>, b: nat)
    requires Sorted(merged) && Cut(child, n, merged, b) && b < |merged|
    requires Contributes(child, merged) && forall j :: 0 <= j < |child| ==> child[j].key != merged[b].key
    ensures Cut(child, n, merged, b + 1)
  {
    forall j | n <= j < |child| ensures Less(merged[b].key, child[j].key) {
      var r :| 0 <= r < |merged| && merged[r] == child[j];
      MergedAt(merged, r, b);
    }
  }

  /** The same, moving the cut back. */
  lemma CutRetreats(child: seq<Entry>, n: nat, merged: seq<Entry>, b: nat)
    requires Sorted(child) && Sorted(merged) && Cut(child, n, merged, b) && 0 < n && 0 < b && child[n - 1] == merged[b - 1]
    ensures Cut(child, n - 1, merged, b - 1)
  {
  }

  lemma CutStaysBack(child: seq<Entry>, n: nat, merged: seq<Entry>, b: nat)
    requires Sorted(merged) && Cut(child, n, merged, b) && 0 < b
    requires Contributes(child, merged) && forall j :: 0 <= j < |child| ==> child[j].key != merged[b - 1].key
    ensures Cut(child, n, merged, b - 1)
  {
    forall j | 0 <= j < n ensures Less(child[j].key, merged[b - 1].key) {
      var r :| 0 <= r < |merged| && merged[r] == child[j];
      MergedAt(merged, r, b - 1);
    }
  }

  /** A child other than the one holding `merged[b]` has only other keys. */
  lemma OthersDiffer(children: seq<seq<Entry>>, merged: seq<Entry>, c: nat, d: nat, b: nat)
    requires IsMerge(children, merged) && NoCommonKey(children) && c < |children| && d < |children| && c != d
    requires b < |merged| && merged[b] in children[c]
    ensures Contributes(children[d], merged) && forall j :: 0 <= j < |children[d]| ==> children[d][j].key != merged[b].key
  {
    var i :| 0 <= i < |children[c]| && children[c][i] == merged[b];
    assert Contributes(children[d], merged);
    assert KeysDiffer(children[c], children[d]);
  }

  // ---------------------------------------------------------------------
  // Choosing the current child
  // ---------------------------------------------------------------------

  ghost predicate Smallest(children: seq<seq<Entry>>, pos: seq<Option<nat>>, n: nat, best: Option<nat>)
    requires InBounds(children, pos) && n <= |pos|
  {
    if best.None? then forall c :: 0 <= c < n ==> pos[c].None?
    else
      && best.value < n && pos[best.value].Some?
      && forall c :: 0 <= c < n && pos[c].Some? ==>
           !Less(children[c][pos[c].value].key, children[best.value][pos[best.value].value].key)
  }

  ghost predicate Largest(children: seq<seq<Entry>>, pos: seq<Option<nat>>, n: nat, best: Option<nat>)
    requires InBounds(children, pos) && n <= |pos|
  {
    if best.None? then forall c :: n <= c < |pos| ==> pos[c].None?
    else
      && n <= best.value < |pos| && pos[best.value].Some?
      && forall c :: n <= c < |pos| && pos[c].Some? ==>
           !Less(children[best.value][pos[best.value].value].key, children[c][pos[c].value].key)
  }

  /** An entry belongs on the same side of the cut in its child and in the merge. */
  lemma CutAgrees(child: seq<Entry>, n: nat, merged: seq<Entry>, b: nat, j: nat, r: nat)
    requires Cut(child, n, merged, b) && j < |child| && r < |merged| && child[j] == merged[r]
    ensures j < n <==> r < b
  {
    assert !Less(child[j].key, merged[r].key);
  }

  lemma HolderStands(children: seq<seq<Entry>>, merged: seq<Entry>, r: nat) returns (c: nat, j: nat)
    requires IsMerge(children, merged) && r < |merged|
    ensures c < |children| && j < |children[c]| && children[c][j] == merged[r]
  {
    assert Supplied(children, merged, r);
    c, j :| 0 <= c < |children| && 0 <= j < |children[c]| && children[c][j] == merged[r];
  }

  lemma InMerge(children: seq<seq<Entry>>, merged: seq<Entry>, c: nat, j: nat) returns (r: nat)
    requires IsMerge(children, merged) && c < |children| && j < |children[c]|
    ensures r < |merged| && merged[r] == children[c][j]
  {
    assert Contributes(children[c], merged);
    r :| 0 <= r < |merged| && merged[r] == children[c][j];
  }

  lemma NotBefore(es: seq<Entry>, i: nat, j: nat)
    requires Sorted(es) && i <= j < |es|
    ensures !Less(es[j].key, es[i].key)
  {
    if i < j {
      assert Less(es[i].key, es[j].key);
    }
  }

  lemma StandsAhead(children: seq<seq<Entry>>, pos: seq<Option<nat>>, merged: seq<Entry>, b: nat) returns (c: nat, j: nat)
    requires IsMerge(children, merged) && AheadOf(children, pos, merged, b) && b < |merged|
    ensures c < |children| && j < |children[c]| && children[c][j] == merged[b] && pos[c].Some? && pos[c].value <= j
  {
    c, j := HolderStands(children, merged, b);
    CutAgrees(children[c], Passed(|children[c]|, pos[c]), merged, b, j, b);
  }

  lemma StandsBehind(children: seq<seq<Entry>>, pos: seq<Option<nat>>, merged: seq<Entry>, b: nat) returns (c: nat, j: nat)
    requires IsMerge(children, merged) && Behind(children, pos, merged, b) && 0 < b <= |merged|
    ensures c < |children| && j < |children[c]| && children[c][j] == merged[b - 1] && pos[c].Some? && j <= pos[c].value
  {
    c, j := HolderStands(children, merged, b - 1);
    CutAgrees(children[c], Upto(pos[c]), merged, b, j, b - 1);
  }

  lemma SmallestIsNext(children: seq<seq<Entry>>, pos: seq<Option<nat>>, merged: seq<Entry>, b: nat, best: Option<nat>)
    requires IsMerge(children, merged) && AheadOf(children, pos, merged, b) && b <= |merged|
    requires Smallest(children, pos, |pos|, best)
    ensures best.Some? <==> b < |merged|
    ensures best.Some? ==> children[best.value][pos[best.value].value] == merged[b]
  {
    if best.Some? {
      var d := best.value;
      var r := InMerge(children, merged, d, pos[d].value);
      CutAgrees(children[d], pos[d].value, merged, b, pos[d].value, r);
      var c, j := StandsAhead(children, pos, merged, b);
      NotBefore(children[c], pos[c].value, j);
      MergedAt(merged, b, r);
    } else if b < |merged| {
      var c, j := StandsAhead(children, pos, merged, b);
    }
  }

  lemma LargestIsPrevious(children: seq<seq<Entry>>, pos: seq<Option<nat>>, merged: seq<Entry>, b: nat, best: Option<nat>)
    requires IsMerge(children, merged) && Behind(children, pos, merged, b) && b <= |merged|
    requires Largest(children, pos, 0, best)
    ensures best.Some? <==> 0 < b
    ensures best.Some? ==> children[best.value][pos[best.value].value] == merged[b - 1]
  {
    if best.Some? {
      var d := best.value;
      var r := InMerge(children, merged, d, pos[d].value);
      CutAgrees(children[d], Upto(pos[d]), merged, b, pos[d].value, r);
      var c, j := StandsBehind(children, pos, merged, b);
      NotBefore(children[c], j, pos[c].value);
      MergedAt(merged, r, b - 1);
    } else if 0 < b {
      var c, j := StandsBehind(children, pos, merged, b);
    }
  }

  // ---------------------------------------------------------------------
  // MergingIterator
  // ---------------------------------------------------------------------

  class MergingIterator {
    const children: seq<seq<Entry>>
    ghost const merged: seq<Entry>
    var pos: seq<Option<nat>>
    var current: Option<nat>
    var forward: bool
    ghost var at: nat

    ghost predicate Valid()
      reads this
    {
      && IsMerge(children, merged) && NoCommonKey(children) && InBounds(children, pos)
      && (current.Some? ==>
            && current.value < |children| && at < |merged|
            && pos[current.value].Some? && children[current.value][pos[current.value].value] == merged[at]
            && if forward then AheadOf(children, pos, merged, at) else Behind(children, pos, merged, at + 1))
    }

    /** Where in the merged list this iterator sits. */
    ghost function Index(): Option<nat>
      reads this
    {
      if current.Some? then Some(at) else None
    }

    constructor (children: seq<seq<Entry>>, ghost merged: seq<Entry>)
      requires IsMerge(children, merged) && NoCommonKey(children)
      ensures Valid() && Index() == None && this.children == children && this.merged == merged
    {
      this.children := children;
      this.merged := merged;
      pos := seq(|children|, c => None);
      current, forward := None, true;
    }

    method Current() returns (e: Entry)
      requires Valid() && current.Some?
      ensures Index().value < |merged| && e == merged[Index().value]
    {
      e := children[current.value][pos[current.value].value];
    }

    method FindSmallest(ghost b: nat)
      requires IsMerge(children, merged) && NoCommonKey(children) && AheadOf(children, pos, merged, b) && b <= |merged| && forward
      modifies this`current, this`at
      ensures Valid() && Index() == Found(|merged|, b)
    {
      var smallest: Option<nat> := None;
      for c := 0 to |children|
        invariant Smallest(children, pos, c, smallest)
      {
        if pos[c].Some? {
          if smallest.None? {
            smallest := Some(c);
          } else if Less(children[c][pos[c].value].key, children[smallest.value][pos[smallest.value].value].key) {
            smallest := Some(c);
          }
        }
      }
      current := smallest;
      at := b;
      SmallestIsNext(children, pos, merged, b, smallest);
    }

    method FindLargest(ghost b: nat)
      requires IsMerge(children, merged) && NoCommonKey(children) && Behind(children, pos, merged, b) && b <= |merged| && !forward
      modifies this`current, this`at
      ensures Valid() && Index() == if b == 0 then None else Some(b - 1)
    {
      var largest: Option<nat> := None;
      for c := |children| downto 0
        invariant Largest(children, pos, c, largest)
      {
        if pos[c].Some? {
          if largest.None? {
            largest := Some(c);
          } else if Less(children[largest.value][pos[largest.value].value].key, children[c][pos[c].value].key) {
            largest := Some(c);
          }
        }
      }
      current := largest;
      LargestIsPrevious(children, pos, merged, b, largest);
      if b > 0 {
        at := b - 1;
      }
    }

    method SeekToFirst()
      requires Valid()
      modifies this
      ensures Valid() && Index() == First(|merged|)
    {
      for c := 0 to |children|
        invariant InBounds(children, pos) && Mergeable()
        invariant forall d :: 0 <= d < c ==> pos[d] == First(|children[d]|)
      {
        pos := pos[c := First(|children[c]|)];
      }
      forall c | 0 <= c < |children| ensures Cut(children[c], Passed(|children[c]|, pos[c]), merged, 0) {
        CutStart(children[c], merged);
      }
      forward := true;
      FindSmallest(0);
    }

    method SeekToLast()
      requires Valid()
      modifies this
      ensures Valid() && Index() == Last(|merged|)
    {
      for c := 0 to |children|
        invariant InBounds(children, pos) && Mergeable()
        invariant forall d :: 0 <= d < c ==> pos[d] == Last(|children[d]|)
      {
        pos := pos[c := Last(|children[c]|)];
      }
      forall c | 0 <= c < |children| ensures Cut(children[c], Upto(pos[c]), merged, |merged|) {
        CutStart(children[c], merged);
      }
      forward := false;
      FindLargest(|merged|);
    }

    /** Lands on the first entry of the merge at or after the target. */
    method Seek(target: InternalKey)
      requires Valid()
      modifies this
      ensures Valid() && Index() == Found(|merged|, Version.LowerBound(merged, target))
    {
      ghost var b := Version.LowerBound(merged, target);
      SortedAbove(merged, target);
      for c := 0 to |children|
        invariant InBounds(children, pos) && Mergeable()
        invariant forall d :: 0 <= d < c ==> Cut(children[d], Passed(|children[d]|, pos[d]), merged, b)
      {
        CutSeek(children[c], merged, target, b);
        pos := pos[c := Found(|children[c]|, Version.LowerBound(children[c], target))];
      }
      forward := true;
      FindSmallest(b);
    }

    ghost predicate Mergeable()
    {
      IsMerge(children, merged) && NoCommonKey(children)
    }

    method Next()
      requires Valid() && current.Some?
      modifies this
      ensures Valid() && Index() == After(|merged|, old(at))
    {
      var c := current.value;
      if !forward {
        SeekOthersAfter();
        forward := true;
      } else {
        PassForward(children, pos, merged, at, c);
      }
      pos := pos[c := After(|children[c]|, pos[c].value)];
      FindSmallest(at + 1);
    }

    method Prev()
      requires Valid() && current.Some?
      modifies this
      ensures Valid() && Index() == Before(old(at))
    {
      hide Index;
      var c := current.value;
      if forward {
        SeekOthersBefore();
        forward := false;
      } else {
        PassBackward(children, pos, merged, at, c);
      }
      pos := pos[c := Before(pos[c].value)];
      FindLargest(at);
    }

    /** Turning forward: every child but the current one moves to its first entry after the current key. */
    method SeekOthersAfter()
      requires Valid() && current.Some? && !forward
      modifies this`pos
      ensures InBounds(children, pos) && pos[current.value] == old(pos[current.value])
      ensures PassedForward(children, pos, merged, at, current.value)
    {
      var c := current.value;
      var key := children[c][pos[c].value].key;
      ghost var here := pos[c];
      assert Cut(children[c], Upto(pos[c]), merged, at + 1);
      for d := 0 to |children|
        invariant InBounds(children, pos) && pos[c] == here
        invariant forall e :: 0 <= e < d && e != c ==> Cut(children[e], Passed(|children[e]|, pos[e]), merged, at + 1)
      {
        if d != c {
          var n := Version.LowerBound(children[d], key);
          PlacedAfter(children, merged, c, d, at);
          pos := pos[d := SkipEqual(children[d], n, key)];
        }
      }
    }

    /** Turning back: every child but the current one moves to its last entry before the current key. */
    method SeekOthersBefore()
      requires Valid() && current.Some? && forward
      modifies this`pos
      ensures InBounds(children, pos) && pos[current.value] == old(pos[current.value])
      ensures PassedBackward(children, pos, merged, at, current.value)
    {
      var c := current.value;
      var key := children[c][pos[c].value].key;
      ghost var here := pos[c];
      assert Cut(children[c], Passed(|children[c]|, pos[c]), merged, at);
      for d := 0 to |children|
        invariant InBounds(children, pos) && pos[c] == here
        invariant forall e :: 0 <= e < d && e != c ==> Cut(children[e], Upto(pos[e]), merged, at)
      {
        if d != c {
          var n := Version.LowerBound(children[d], key);
          SortedBelow(merged, at);
          CutSeek(children[d], merged, key, at);
          pos := pos[d := if n < |children[d]| then Before(n) else Last(|children[d]|)];
        }
      }
    }
  }

  /** `Next` once more if the child landed on the very key it was sent past. */
  function SkipEqual(child: seq<Entry>, n: nat, key: InternalKey): Option<nat>
    requires n <= |child|
  {
    if n < |child| && child[n].key == key then After(|child|, n) else Found(|child|, n)
  }

  lemma PlacedAfter(children: seq<seq<Entry>>, merged: seq<Entry>, c: nat, d: nat, b: nat)
    requires IsMerge(children, merged) && NoCommonKey(children) && c < |children| && d < |children| && c != d
    requires b < |merged| && merged[b] in children[c]
    ensures var n := Version.LowerBound(children[d], merged[b].key);
            SkipEqual(children[d], n, merged[b].key) == Found(|children[d]|, n) && Cut(children[d], n, merged, b + 1)
  {
    var n := Version.LowerBound(children[d], merged[b].key);
    SortedBelow(merged, b);
    CutSeek(children[d], merged, merged[b].key, b);
    OthersDiffer(children, merged, c, d, b);
    CutStays(children[d], n, merged, b);
  }

  /** All children are past `merged[b]`, except that `c` still stands on it. */
  ghost predicate PassedForward(children: seq<seq<Entry>>, pos: seq<Option<nat>>, merged: seq<Entry>, b: nat, c: nat) {
    && |pos| == |children| && c < |pos| && pos[c].Some? && Cut(children[c], pos[c].value + 1, merged, b + 1)
    && forall d :: 0 <= d < |children| && d != c ==> Cut(children[d], Passed(|children[d]|, pos[d]), merged, b + 1)
  }

  ghost predicate PassedBackward(children: seq<seq<Entry>>, pos: seq<Option<nat>>, merged: seq<Entry>, b: nat, c: nat) {
    && |pos| == |children| && c < |pos| && pos[c].Some? && Cut(children[c], pos[c].value, merged, b)
    && forall d :: 0 <= d < |children| && d != c ==> Cut(children[d], Upto(pos[d]), merged, b)
  }

  lemma PassForward(children: seq<seq<Entry>>, pos: seq<Option<nat>>, merged: seq<Entry>, b: nat, c: nat)
    requires IsMerge(children, merged) && NoCommonKey(children) && AheadOf(children, pos, merged, b)
    requires c < |children| && b < |merged| && pos[c].Some? && children[c][pos[c].value] == merged[b]
    ensures PassedForward(children, pos, merged, b, c)
  {
    CutAdvances(children[c], pos[c].value, merged, b);
    forall d | 0 <= d < |children| && d != c ensures Cut(children[d], Passed(|children[d]|, pos[d]), merged, b + 1) {
      OthersDiffer(children, merged, c, d, b);
      CutStays(children[d], Passed(|children[d]|, pos[d]), merged, b);
    }
  }

  lemma PassBackward(children: seq<seq<Entry>>, pos: seq<Option<nat>>, merged: seq<Entry>, b: nat, c: nat)
    requires IsMerge(children, merged) && NoCommonKey(children) && Behind(children, pos, merged, b + 1)
    requires c < |children| && b < |merged| && pos[c].Some? && children[c][pos[c].value] == merged[b]
    ensures PassedBackward(children, pos, merged, b, c)
  {
    CutRetreats(children[c], pos[c].value + 1, merged, b + 1);
    forall d | 0 <= d < |children| && d != c ensures Cut(children[d], Upto(pos[d]), merged, b) {
      OthersDiffer(children, merged, c, d, b);
      CutStaysBack(children[d], Upto(pos[d]), merged, b + 1);
    }
  }

  lemma SortedAbove(es: seq<Entry>, k: InternalKey)
    requires Sorted(es)
    ensures forall r :: Version.LowerBound(es, k) <= r < |es| ==> !Less(es[r].key, k)
  {
    var b := Version.LowerBound(es, k);
    forall r | b <= r < |es| ensures !Less(es[r].key, k) {
      if b < r {
        assert Less(es[b].key, es[r].key);
      }
    }
  }

  lemma SortedBelow(es: seq<Entry>, b: nat)
    requires Sorted(es) && b < |es|
    ensures forall r :: 0 <= r < b ==> Less(es[r].key, es[b].key)
    ensures forall r :: b <= r < |es| ==> !Less(es[r].key, es[b].key)
  {
    forall r | b <= r < |es| ensures !Less(es[r].key, es[b].key) {
      MergedAt(es, r, b);
    }
  }
}
