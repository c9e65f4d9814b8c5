/**
 The two-level iterator: an index over blocks, any of which may be empty, seen
 as one cursor over the concatenation of the blocks.
 */
module TwoLevel {
  import opened Basics
  import opened DbFormat
  import opened Cursors
  import Version

  /** The first `n` blocks, end to end. */
  ghost function Flat(blocks: seq<seq<Entry>>, n: nat): seq<Entry>
    requires n <= |blocks|
  {
    if n == 0 then [] else Flat(blocks, n - 1) + blocks[n - 1]
  }

  ghost function Offset(blocks: seq<seq<Entry>>, n: nat): nat
    requires n <= |blocks|
  {
    |Flat(blocks, n)|
  }

  /** Index key `i` lies at or after everything up to block `i`, and before everything after it. */
  ghost predicate Separates(blocks: seq<seq<Entry>>, index: seq<InternalKey>) {
    && |index| == |blocks|
    && (forall i, j :: 0 <= i < j < |index| ==> Less(index[i], index[j]))
    && (forall i, b :: 0 <= b <= i < |blocks| ==> AllUpto(blocks[b], index[i]))
    && (forall i, b :: 0 <= i < b < |blocks| ==> AllAfter(blocks[b], index[i]))
  }

  ghost predicate AllUpto(block: seq<Entry>, k: InternalKey) {
    forall p :: 0 <= p < |block| ==> AtMost(block[p].key, k)
  }

  ghost predicate AllAfter(block: seq<Entry>, k: InternalKey) {
    forall p :: 0 <= p < |block| ==> Less(k, block[p].key)
  }

  lemma {:induction false} FlatAt(blocks: seq<seq<Entry>>, b: nat, p: nat, n: nat)
    requires b < n <= |blocks| && p < |blocks[b]|
    ensures Offset(blocks, b) + p < Offset(blocks, n) && Flat(blocks, n)[Offset(blocks, b) + p] == blocks[b][p]
  {
    if b < n - 1 {
      FlatAt(blocks, b, p, n - 1);
    }
  }

  lemma {:induction false} FlatFrom(blocks: seq<seq<Entry>>, a: nat, n: nat, r: nat) returns (b: nat, p: nat)
    requires a <= n <= |blocks| && Offset(blocks, a) <= r < Offset(blocks, n)
    ensures a <= b < n && p < |blocks[b]| && r == Offset(blocks, b) + p && Flat(blocks, n)[r] == blocks[b][p]
    decreases n
  {
    if r < Offset(blocks, n - 1) {
      b, p := FlatFrom(blocks, a, n - 1, r);
    } else {
      b, p := n - 1, r - Offset(blocks, n - 1);
    }
  }

  lemma {:induction false} OffsetGrows(blocks: seq<seq<Entry>>, a: nat, b: nat)
    requires a <= b <= |blocks|
    ensures Offset(blocks, a) <= Offset(blocks, b)
  {
    if a < b {
      OffsetGrows(blocks, a, b - 1);
    }
  }

  // ---------------------------------------------------------------------
  // Seeking through the index
  // ---------------------------------------------------------------------

  /** `Seek` on the index: the first key at or after the target. */
  function IndexSeek(index: seq<InternalKey>, k: InternalKey): (i: nat)
    ensures i <= |index|
    ensures forall j :: 0 <= j < i ==> Less(index[j], k)
    ensures i < |index| ==> !Less(index[i], k)
  {
    if index == [] then 0
    else if Less(index[0], k) then 1 + IndexSeek(index[1..], k)
    else 0
  }

  lemma LowerBoundUnique(es: seq<Entry>, k: InternalKey, p: nat)
    requires p <= |es|
    requires forall j :: 0 <= j < p ==> Less(es[j].key, k)
    requires p < |es| ==> !Less(es[p].key, k)
    ensures p == Version.LowerBound(es, k)
  {
  }

  ghost function Target(blocks: seq<seq<Entry>>, index: seq<InternalKey>, k: InternalKey): nat
    requires |index| == |blocks|
  {
    var b := IndexSeek(index, k);
    if b < |blocks| then Offset(blocks, b) + Version.LowerBound(blocks[b], k) else Offset(blocks, |blocks|)
  }

  lemma BeforeTarget(blocks: seq<seq<Entry>>, index: seq<InternalKey>, k: InternalKey, r: nat)
    requires Separates(blocks, index) && r < Target(blocks, index, k)
    ensures r < Offset(blocks, |blocks|) && Less(Flat(blocks, |blocks|)[r].key, k)
  {
    var b := IndexSeek(index, k);
    if b < |blocks| {
      OffsetGrows(blocks, b + 1, |blocks|);
    }
    var c, p := FlatFrom(blocks, 0, |blocks|, r);
    if c < b {
      assert Less(index[b - 1], k);
      assert AllUpto(blocks[c], index[b - 1]);
    } else if c > b {
      OffsetGrows(blocks, b + 1, c);
    }
  }

  /** Whatever follows block `b` lies after its index key. */
  lemma BeyondBlock(blocks: seq<seq<Entry>>, index: seq<InternalKey>, b: nat, r: nat)
    requires Separates(blocks, index) && b < |blocks| && Offset(blocks, b + 1) <= r < Offset(blocks, |blocks|)
    ensures Less(index[b], Flat(blocks, |blocks|)[r].key)
  {
    var c, q := FlatFrom(blocks, b + 1, |blocks|, r);
    assert AllAfter(blocks[c], index[b]);
  }

  lemma AtTarget(blocks: seq<seq<Entry>>, index: seq<InternalKey>, k: InternalKey, b: nat, p: nat)
    requires Separates(blocks, index) && b < |blocks| && b == IndexSeek(index, k) && p == Version.LowerBound(blocks[b], k)
    requires Offset(blocks, b) + p < Offset(blocks, |blocks|)
    ensures !Less(Flat(blocks, |blocks|)[Offset(blocks, b) + p].key, k)
  {
    if p < |blocks[b]| {
      FlatAt(blocks, b, p, |blocks|);
    } else {
      BeyondBlock(blocks, index, b, Offset(blocks, b) + p);
    }
  }

  /** Index plus one block find the place a search of the whole concatenation would. */
  lemma TargetIsLowerBound(blocks: seq<seq<Entry>>, index: seq<InternalKey>, k: InternalKey)
    requires Separates(blocks, index)
    ensures Target(blocks, index, k) == Version.LowerBound(Flat(blocks, |blocks|), k)
  {
    var all, g := Flat(blocks, |blocks|), Target(blocks, index, k);
    var b := IndexSeek(index, k);
    if b < |blocks| {
      OffsetGrows(blocks, b + 1, |blocks|);
    }
    forall r | 0 <= r < g ensures Less(all[r].key, k) {
      BeforeTarget(blocks, index, k, r);
    }
    if g < |all| {
      AtTarget(blocks, index, k, b, Version.LowerBound(blocks[b], k));
    }
    LowerBoundUnique(all, k, g);
  }

  // ---------------------------------------------------------------------
  // TwoLevelIterator
  // ---------------------------------------------------------------------

  class TwoLevelIterator {
    const blocks: seq<seq<Entry>>
    const index: seq<InternalKey>
    var indexPos: Option<nat>
    /** The block `data_iter_` was opened on (its handle), and its position there. */
    var data: Option<nat>
    var dataPos: Option<nat>

    predicate OnEntry()
      reads this
    {
      data.Some? && dataPos.Some?
    }

    ghost predicate InBounds()
      reads this
    {
      && Separates(blocks, index)
      && (indexPos.Some? ==> indexPos.value < |blocks|)
      && (data.Some? ==> data.value < |blocks| && (dataPos.Some? ==> dataPos.value < |blocks[data.value]|))
    }

    ghost predicate Valid()
      reads this
    {
      InBounds() && (OnEntry() ==> indexPos == data)
    }

    ghost function All(): seq<Entry>
      reads this
    {
      Flat(blocks, |blocks|)
    }

    /** Where in the concatenation this iterator sits. */
    ghost function Index(): Option<nat>
      requires Valid()
      reads this
    {
      if OnEntry() then Some(Offset(blocks, data.value) + dataPos.value) else None
    }

    constructor (blocks: seq<seq<Entry>>, index: seq<InternalKey>)
      requires Separates(blocks, index)
      ensures Valid() && Index() == None && this.blocks == blocks && this.index == index
    {
      this.blocks := blocks;
      this.index := index;
      indexPos, data, dataPos := None, None, None;
    }

    method Current() returns (e: Entry)
      requires Valid() && OnEntry()
      ensures Index().value < |All()| && e == All()[Index().value]
    {
      FlatAt(blocks, data.value, dataPos.value, |blocks|);
      e := blocks[data.value][dataPos.value];
    }

    /** Opens the block under the index, unless it is the one already open. */
    method InitDataBlock()
      requires InBounds()
      modifies this`data, this`dataPos
      ensures InBounds() && data == indexPos
    {
      if indexPos.None? {
        data := None;
      } else if data != indexPos {
        data, dataPos := indexPos, None;
      }
    }

    /** Moves on to position `g`, at which the open block has ended unless it holds `g`. */
    method SkipEmptyDataBlocksForward(ghost g: nat)
      requires InBounds() && data == indexPos
      requires g == if indexPos.None? then Offset(blocks, |blocks|)
                    else if dataPos.Some? then Offset(blocks, indexPos.value) + dataPos.value
                    else Offset(blocks, indexPos.value + 1)
      modifies this
      ensures Valid() && Index() == Found(|All()|, g)
    {
      while !OnEntry()
        invariant InBounds() && data == indexPos
        invariant g == if indexPos.None? then Offset(blocks, |blocks|)
                       else if dataPos.Some? then Offset(blocks, indexPos.value) + dataPos.value
                       else Offset(blocks, indexPos.value + 1)
        decreases |blocks| - Passed(|blocks|, indexPos), indexPos.Some?
      {
        if indexPos.None? {
          data := None;
          return;
        }
        indexPos := After(|blocks|, indexPos.value);
        InitDataBlock();
        if data.Some? {
          dataPos := First(|blocks[data.value]|);
        }
      }
      FlatAt(blocks, data.value, dataPos.value, |blocks|);
    }

    /** Moves back to position `g - 1`. */
    method SkipEmptyDataBlocksBackward(ghost g: nat)
      requires InBounds() && data == indexPos
      requires g == if indexPos.None? then 0 else Offset(blocks, indexPos.value) + Upto(dataPos)
      modifies this
      ensures Valid() && Index() == if g == 0 then None else Some(g - 1)
    {
      while !OnEntry()
        invariant InBounds() && data == indexPos
        invariant g == if indexPos.None? then 0 else Offset(blocks, indexPos.value) + Upto(dataPos)
        decreases Upto(indexPos), indexPos.Some?
      {
        if indexPos.None? {
          data := None;
          return;
        }
        indexPos := Before(indexPos.value);
        InitDataBlock();
        if data.Some? {
          dataPos := Last(|blocks[data.value]|);
        }
      }
    }

    method SeekToFirst()
      requires Valid()
      modifies this
      ensures Valid() && Index() == First(|All()|)
    {
      indexPos := First(|blocks|);
      InitDataBlock();
      if data.Some? {
        dataPos := First(|blocks[data.value]|);
      }
      assert Flat(blocks, 0) == [];
      assert |blocks| > 0 ==> Flat(blocks, 1) == Flat(blocks, 0) + blocks[0];
      SkipEmptyDataBlocksForward(0);
    }

    method SeekToLast()
      requires Valid()
      modifies this
      ensures Valid() && Index() == Last(|All()|)
    {
      indexPos := Last(|blocks|);
      InitDataBlock();
      if data.Some? {
        dataPos := Last(|blocks[data.value]|);
      }
      SkipEmptyDataBlocksBackward(Offset(blocks, |blocks|));
    }

    method Seek(target: InternalKey)
      requires Valid()
      modifies this
      ensures Valid() && Index() == Found(|All()|, Version.LowerBound(All(), target))
    {
      indexPos := Found(|index|, IndexSeek(index, target));
      InitDataBlock();
      if data.Some? {
        var block := blocks[data.value];
        dataPos := Found(|block|, Version.LowerBound(block, target));
      }
      TargetIsLowerBound(blocks, index, target);
      SkipEmptyDataBlocksForward(Version.LowerBound(All(), target));
    }

    method Next()
      requires Valid() && OnEntry()
      modifies this
      ensures Valid() && Index() == After(|All()|, old(Index()).value)
    {
      ghost var g := Offset(blocks, data.value) + dataPos.value + 1;
      dataPos := After(|blocks[data.value]|, dataPos.value);
      SkipEmptyDataBlocksForward(g);
    }

    method Prev()
      requires Valid() && OnEntry()
      modifies this
      ensures Valid() && Index() == Before(old(Index()).value)
    {
      ghost var g := Offset(blocks, data.value) + dataPos.value;
      dataPos := Before(dataPos.value);
      SkipEmptyDataBlocksBackward(g);
    }
  }
}
