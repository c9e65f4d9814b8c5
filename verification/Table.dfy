/**
 Building an sstable and looking a key up in it.  Blocks are lists of entries
 here; `BlockBuilder` and `BlockIter` deal with their bytes.
 */
module Table {
  import opened Basics
  import opened DbFormat
  import opened TwoLevel
  import Bloom
  import FilterBlock
  import Coding
  import Version

  // ---------------------------------------------------------------------
  // Index keys
  // ---------------------------------------------------------------------

  /** What `FindShortestSeparator` may make of the last key of a block and the first of the next. */
  predicate IsSeparator(last: InternalKey, first: InternalKey, sep: InternalKey) {
    sep == last || (last.user < sep.user && sep.user < first.user)
  }

  /** What `FindShortSuccessor` may make of the last key of a table. */
  predicate IsSuccessor(last: InternalKey, sep: InternalKey) {
    sep == last || last.user < sep.user
  }

  function LastKey(block: seq<Entry>): InternalKey
    requires block != []
  {
    block[|block| - 1].key
  }

  ghost predicate BlocksOk(blocks: seq<seq<Entry>>) {
    && Sorted(Flat(blocks, |blocks|))
    && forall i :: 0 <= i < |blocks| ==> blocks[i] != []
  }

  ghost predicate IndexOk(blocks: seq<seq<Entry>>, index: seq<InternalKey>, i: nat)
    requires i < |blocks| && i < |index| && forall j :: 0 <= j < |blocks| ==> blocks[j] != []
  {
    if i + 1 < |blocks| then IsSeparator(LastKey(blocks[i]), blocks[i + 1][0].key, index[i])
    else IsSuccessor(LastKey(blocks[i]), index[i])
  }

  /** A finished table: its data blocks, their index keys and their file offsets. */
  datatype Table = Table(blocks: seq<seq<Entry>>, index: seq<InternalKey>, offsets: seq<nat>)

  ghost predicate TableOk(t: Table) {
    && |t.index| == |t.blocks| == |t.offsets| && BlocksOk(t.blocks)
    && forall i :: 0 <= i < |t.blocks| ==> IndexOk(t.blocks, t.index, i)
  }

  ghost function Contents(t: Table): seq<Entry> {
    Flat(t.blocks, |t.blocks|)
  }

  // ---------------------------------------------------------------------
  // The index separates the blocks
  // ---------------------------------------------------------------------

  /** Entries of earlier blocks come before entries of later ones. */
  lemma BlockOrder(blocks: seq<seq<Entry>>, a: nat, p: nat, b: nat, q: nat)
    requires Sorted(Flat(blocks, |blocks|)) && a < |blocks| && b < |blocks| && p < |blocks[a]| && q < |blocks[b]|
    requires a < b || (a == b && p < q)
    ensures Less(blocks[a][p].key, blocks[b][q].key)
  {
    FlatAt(blocks, a, p, |blocks|);
    FlatAt(blocks, b, q, |blocks|);
    if a < b {
      OffsetGrows(blocks, a + 1, b);
    }
  }

  lemma UptoIndex(t: Table, b: nat, i: nat)
    requires TableOk(t) && b <= i < |t.blocks|
    ensures AllUpto(t.blocks[b], t.index[i])
  {
    assert IndexOk(t.blocks, t.index, i);
    forall p | 0 <= p < |t.blocks[b]| ensures AtMost(t.blocks[b][p].key, t.index[i]) {
      if b < i || p < |t.blocks[i]| - 1 {
        BlockOrder(t.blocks, b, p, i, |t.blocks[i]| - 1);
      }
    }
  }

  lemma AfterIndex(t: Table, i: nat, b: nat)
    requires TableOk(t) && i < b < |t.blocks|
    ensures AllAfter(t.blocks[b], t.index[i])
  {
    assert IndexOk(t.blocks, t.index, i);
    forall p | 0 <= p < |t.blocks[b]| ensures Less(t.index[i], t.blocks[b][p].key) {
      BlockOrder(t.blocks, i, |t.blocks[i]| - 1, i + 1, 0);
      if i + 1 < b || p > 0 {
        BlockOrder(t.blocks, i + 1, 0, b, p);
      }
    }
  }

  /** Whatever separators were chosen, the index of a table separates its blocks. */
  lemma IndexSeparates(t: Table)
    requires TableOk(t)
    ensures Separates(t.blocks, t.index)
  {
    forall i, b | 0 <= b <= i < |t.blocks| ensures AllUpto(t.blocks[b], t.index[i]) {
      UptoIndex(t, b, i);
    }
    forall i, b | 0 <= i < b < |t.blocks| ensures AllAfter(t.blocks[b], t.index[i]) {
      AfterIndex(t, i, b);
    }
    forall i, j | 0 <= i < j < |t.index| ensures Less(t.index[i], t.index[j]) {
      AfterIndex(t, i, j);
      UptoIndex(t, j, j);
      assert Less(t.index[i], t.blocks[j][0].key) && AtMost(t.blocks[j][0].key, t.index[j]);
    }
  }

  // ---------------------------------------------------------------------
  // InternalGet
  // ---------------------------------------------------------------------

  /** The filter never rejects a user key for the block it is in. */
  ghost predicate FilterSound(t: Table, mayMatch: (nat, UserKey) -> bool) {
    |t.offsets| == |t.blocks| &&
    forall b, p :: 0 <= b < |t.blocks| && 0 <= p < |t.blocks[b]| ==> mayMatch(t.offsets[b], t.blocks[b][p].key.user)
  }

  /** If the block the index points to has nothing at or after the key, no later entry has its user key. */
  lemma NothingBeyond(t: Table, k: InternalKey, b: nat)
    requires TableOk(t) && b + 1 < |t.blocks| && b == IndexSeek(t.index, k)
    requires Less(LastKey(t.blocks[b]), k)
    ensures t.blocks[b + 1][0].key.user != k.user
  {
    assert IndexOk(t.blocks, t.index, b);
  }

  lemma BlockHolds(t: Table, k: InternalKey, b: nat, p: nat)
    requires TableOk(t) && b == IndexSeek(t.index, k) < |t.blocks| && p == Version.LowerBound(t.blocks[b], k)
    ensures var all := Contents(t);
            var q := Version.LowerBound(all, k);
            && (p < |t.blocks[b]| ==> q < |all| && all[q] == t.blocks[b][p])
            && (p == |t.blocks[b]| && q < |all| ==> all[q].key.user != k.user)
  {
    IndexSeparates(t);
    TargetIsLowerBound(t.blocks, t.index, k);
    var n := |t.blocks|;
    if p < |t.blocks[b]| {
      FlatAt(t.blocks, b, p, n);
    } else if b + 1 < n {
      NothingBeyond(t, k, b);
      FlatAt(t.blocks, b + 1, 0, n);
    }
  }

  /**
   `Table::InternalGet`: what is handed to the callback.  With or without a
   filter, an entry of the user key is reported exactly if the first entry of
   the whole table at or after the lookup key belongs to it.
   */
  method InternalGet(t: Table, useFilter: bool, mayMatch: (nat, UserKey) -> bool, u: UserKey, s: nat) returns (r: Option<Entry>)
    requires TableOk(t) && (useFilter ==> FilterSound(t, mayMatch))
    ensures Version.TableGet(Contents(t), u, s) == if r.Some? && r.value.key.user == u then r else None
  {
    var k := SeekKey(u, s);
    var b := IndexSeek(t.index, k);
    IndexSeparates(t);
    TargetIsLowerBound(t.blocks, t.index, k);
    if b == |t.blocks| {
      return None;
    }
    var p := Version.LowerBound(t.blocks[b], k);
    BlockHolds(t, k, b, p);
    if useFilter && !mayMatch(t.offsets[b], u) {
      return None;
    }
    if p < |t.blocks[b]| {
      return Some(t.blocks[b][p]);
    }
    return None;
  }

  // ---------------------------------------------------------------------
  // TableBuilder
  // ---------------------------------------------------------------------

  const BLOCK_TRAILER: nat := 5

  lemma FlatSnoc(blocks: seq<seq<Entry>>, block: seq<Entry>)
    ensures Flat(blocks + [block], |blocks| + 1) == Flat(blocks, |blocks|) + block
  {
    FlatPrefix(blocks, [block], |blocks|);
  }

  lemma {:induction false} FlatPrefix(blocks: seq<seq<Entry>>, more: seq<seq<Entry>>, n: nat)
    requires n <= |blocks|
    ensures Flat(blocks + more, n) == Flat(blocks, n)
  {
    if n > 0 {
      FlatPrefix(blocks, more, n - 1);
    }
  }

  lemma SortedSnoc(es: seq<Entry>, e: Entry)
    requires Sorted(es) && (es != [] ==> Less(es[|es| - 1].key, e.key))
    ensures Sorted(es + [e])
  {
    forall i | 0 <= i < |es| ensures Less(es[i].key, e.key) {
      if i < |es| - 1 {
        assert Less(es[i].key, es[|es| - 1].key);
      }
    }
  }

  /** Index entry `i` separates block `i` from what came next. */
  ghost predicate Indexed(blocks: seq<seq<Entry>>, index: seq<InternalKey>, data: seq<Entry>, i: nat)
    requires i < |blocks| && i < |index| && forall j :: 0 <= j < |blocks| ==> blocks[j] != []
  {
    if i + 1 < |blocks| then IsSeparator(LastKey(blocks[i]), blocks[i + 1][0].key, index[i])
    else data != [] && IsSeparator(LastKey(blocks[i]), data[0].key, index[i])
  }

  /** A table under construction: finished blocks, the current one, and whether an index entry is due. */
  ghost predicate LayoutOk(blocks: seq<seq<Entry>>, index: seq<InternalKey>, data: seq<Entry>, pending: bool) {
    && Sorted(Flat(blocks, |blocks|) + data) && (forall i :: 0 <= i < |blocks| ==> blocks[i] != [])
    && |blocks| == |index| + (if pending then 1 else 0)
    && (pending ==> data == []) && (data == [] && blocks != [] ==> pending)
    && forall i :: 0 <= i < |index| ==> Indexed(blocks, index, data, i)
  }

  lemma IndexAfterAdd(blocks: seq<seq<Entry>>, index: seq<InternalKey>, data: seq<Entry>, pending: bool, e: Entry, sep: InternalKey, i: nat)
    requires LayoutOk(blocks, index, data, pending) && i < |index| + (if pending then 1 else 0)
    requires pending ==> blocks != [] && blocks[|blocks| - 1] != [] && IsSeparator(LastKey(blocks[|blocks| - 1]), e.key, sep)
    ensures Indexed(blocks, if pending then index + [sep] else index, data + [e], i)
  {
    if i < |index| {
      assert Indexed(blocks, index, data, i);
    }
  }

  lemma AddStep(blocks: seq<seq<Entry>>, index: seq<InternalKey>, data: seq<Entry>, pending: bool, e: Entry, sep: InternalKey)
    requires LayoutOk(blocks, index, data, pending)
    requires var all := Flat(blocks, |blocks|) + data; all != [] ==> Less(LastKey(all), e.key)
    requires pending ==> blocks != [] && blocks[|blocks| - 1] != [] && IsSeparator(LastKey(blocks[|blocks| - 1]), e.key, sep)
    ensures LayoutOk(blocks, if pending then index + [sep] else index, data + [e], false)
    ensures Flat(blocks, |blocks|) + (data + [e]) == Flat(blocks, |blocks|) + data + [e]
  {
    var flat := Flat(blocks, |blocks|);
    SortedSnoc(flat + data, e);
    Associate(flat, data, [e]);
    var index' := if pending then index + [sep] else index;
    forall i | 0 <= i < |index'| ensures Indexed(blocks, index', data + [e], i) {
      IndexAfterAdd(blocks, index, data, pending, e, sep, i);
    }
  }

  lemma FlushStep(blocks: seq<seq<Entry>>, index: seq<InternalKey>, data: seq<Entry>)
    requires LayoutOk(blocks, index, data, false) && data != []
    ensures LayoutOk(blocks + [data], index, [], true)
    ensures Flat(blocks + [data], |blocks| + 1) == Flat(blocks, |blocks|) + data
  {
    FlatSnoc(blocks, data);
    assert Flat(blocks + [data], |blocks + [data]|) + [] == Flat(blocks, |blocks|) + data;
    forall i | 0 <= i < |index| ensures Indexed(blocks + [data], index, [], i) {
      IndexAfterFlush(blocks, index, data, i);
    }
  }

  lemma IndexAfterFlush(blocks: seq<seq<Entry>>, index: seq<InternalKey>, data: seq<Entry>, i: nat)
    requires LayoutOk(blocks, index, data, false) && data != [] && i < |index|
    ensures Indexed(blocks + [data], index, [], i)
  {
    assert Indexed(blocks, index, data, i);
  }

  lemma FinishStep(blocks: seq<seq<Entry>>, index: seq<InternalKey>, offsets: seq<nat>, pending: bool, sep: InternalKey)
    requires LayoutOk(blocks, index, [], pending) && |offsets| == |blocks|
    requires pending ==> IsSuccessor(LastKey(blocks[|blocks| - 1]), sep)
    ensures var t := Table(blocks, if pending then index + [sep] else index, offsets);
            TableOk(t) && Contents(t) == Flat(blocks, |blocks|)
  {
    var index' := if pending then index + [sep] else index;
    assert Flat(blocks, |blocks|) + [] == Flat(blocks, |blocks|);
    forall i | 0 <= i < |blocks| ensures IndexOk(blocks, index', i) {
      if i < |index| {
        assert Indexed(blocks, index, [], i);
      }
    }
  }

  /** The last key of a run of blocks. */
  lemma LastOfFlat(blocks: seq<seq<Entry>>)
    requires blocks != [] && blocks[|blocks| - 1] != []
    ensures Flat(blocks, |blocks|) != [] && LastKey(Flat(blocks, |blocks|)) == LastKey(blocks[|blocks| - 1])
  {
  }

  // ---------------------------------------------------------------------
  // The filter during construction
  // ---------------------------------------------------------------------

  ghost predicate BlockFiltered(block: seq<Entry>, offset: nat, belongs: set<(nat, UserKey)>) {
    forall p :: 0 <= p < |block| ==> (offset / FilterBlock.BASE, block[p].key.user) in belongs
  }

  /** Every entry is in the filter of its block's offset. */
  ghost predicate Filtered(blocks: seq<seq<Entry>>, offsets: seq<nat>, belongs: set<(nat, UserKey)>) {
    |offsets| == |blocks| && forall b :: 0 <= b < |blocks| ==> BlockFiltered(blocks[b], offsets[b], belongs)
  }

  lemma FilteredAdd(blocks: seq<seq<Entry>>, offsets: seq<nat>, data: seq<Entry>, offset: nat, e: Entry, belongs: set<(nat, UserKey)>, n: nat)
    requires Filtered(blocks, offsets, belongs) && BlockFiltered(data, offset, belongs) && n == offset / FilterBlock.BASE
    ensures var more := belongs + {(n, e.key.user)}; Filtered(blocks, offsets, more) && BlockFiltered(data + [e], offset, more)
  {
    forall b | 0 <= b < |blocks| ensures BlockFiltered(blocks[b], offsets[b], belongs + {(n, e.key.user)}) {
      assert BlockFiltered(blocks[b], offsets[b], belongs);
    }
  }

  class TableBuilder {
    var blocks: seq<seq<Entry>>
    var index: seq<InternalKey>
    var offsets: seq<nat>
    var dataBlock: seq<Entry>
    var offset: nat
    var lastKey: Option<InternalKey>
    var pendingIndexEntry: bool
    const filter: FilterBlock.FilterBlockBuilder<UserKey>

    ghost function All(): seq<Entry>
      reads this
    {
      Flat(blocks, |blocks|) + dataBlock
    }

    ghost predicate Valid()
      reads this, filter
    {
      && LayoutOk(blocks, index, dataBlock, pendingIndexEntry)
      && lastKey == (if All() == [] then None else Some(LastKey(All())))
      && filter.Valid() && |filter.filterOffsets| == offset / FilterBlock.BASE
      && Filtered(blocks, offsets, filter.belongs) && BlockFiltered(dataBlock, offset, filter.belongs)
    }

    constructor (policy: FilterBlock.Policy<UserKey>)
      ensures Valid() && All() == [] && fresh(filter) && filter.policy == policy
    {
      blocks, index, offsets, dataBlock, offset, lastKey, pendingIndexEntry := [], [], [], [], 0, None, false;
      filter := new FilterBlock.FilterBlockBuilder(policy);
      new;
      filter.StartBlock(0);
    }

    /** The separator may be any key the comparator can come up with. */
    method ChooseSeparator(first: InternalKey) returns (sep: InternalKey)
      requires lastKey.Some?
      ensures IsSeparator(lastKey.value, first, sep)
    {
      assert IsSeparator(lastKey.value, first, lastKey.value);
      sep :| IsSeparator(lastKey.value, first, sep);
    }

    /** Adds an entry after all others; `endBlock` says whether the block has reached its size. */
    method Add(e: Entry, endBlock: bool, size: nat)
      requires Valid() && (lastKey.Some? ==> Less(lastKey.value, e.key))
      modifies this, filter
      ensures Valid() && All() == old(All()) + [e] && offset >= old(offset)
    {
      AddEntry(e);
      if endBlock {
        Flush(size);
      }
    }

    method AddEntry(e: Entry)
      requires Valid() && (lastKey.Some? ==> Less(lastKey.value, e.key))
      modifies this, filter
      ensures Valid() && All() == old(All()) + [e] && offset == old(offset)
    {
      var sep := e.key;
      if pendingIndexEntry {
        LastOfFlat(blocks);
        assert All() == Flat(blocks, |blocks|);
        sep := ChooseSeparator(e.key);
      }
      AddStep(blocks, index, dataBlock, pendingIndexEntry, e, sep);
      FilteredAdd(blocks, offsets, dataBlock, offset, e, filter.belongs, |filter.filterOffsets|);
      if pendingIndexEntry {
        index := index + [sep];
        pendingIndexEntry := false;
      }
      filter.AddKey(e.key.user);
      lastKey := Some(e.key);
      dataBlock := dataBlock + [e];
    }

    /** Writes out the current block, if it has entries; `size` is what its bytes come to. */
    method Flush(size: nat)
      requires Valid()
      modifies this, filter
      ensures Valid() && All() == old(All()) && dataBlock == [] && offset >= old(offset) && filter.Size() == old(filter.Size())
    {
      if dataBlock == [] {
        return;
      }
      FlushStep(blocks, index, dataBlock);
      blocks, offsets := blocks + [dataBlock], offsets + [offset];
      offset := offset + size + BLOCK_TRAILER;
      dataBlock := [];
      pendingIndexEntry := true;
      filter.StartBlock(offset);
    }

    /** Any key at or after all others closes the index. */
    method ChooseSuccessor() returns (sep: InternalKey)
      requires lastKey.Some?
      ensures IsSuccessor(lastKey.value, sep)
    {
      assert IsSuccessor(lastKey.value, lastKey.value);
      sep :| IsSuccessor(lastKey.value, sep);
    }

    /** The last block, the filter block and the index: a table of exactly the entries added. */
    method Finish(size: nat) returns (t: Table, filterData: Bytes, ghost words: seq<Coding.Four>)
      requires Valid() && filter.Size() < Coding.TWO32
      modifies this, filter
      ensures TableOk(t) && Contents(t) == old(All())
      ensures FilterBlock.IsFilterBlock(filter.policy, filterData, filter.result, filter.groups, filter.filterOffsets + [|filter.result|], words)
      ensures FilterBlock.NoFalseNegatives(filter.policy) ==> FilterSound(t, Answers(filter.policy, filter.groups))
    {
      hide TableOk, Contents, Flat;
      Flush(size);
      ghost var belongs := filter.belongs;
      var sep := SeekKey(0.0, 0);
      if pendingIndexEntry {
        LastOfFlat(blocks);
        assert All() == Flat(blocks, |blocks|);
        sep := ChooseSuccessor();
      }
      FinishStep(blocks, index, offsets, pendingIndexEntry, sep);
      if pendingIndexEntry {
        index := index + [sep];
        pendingIndexEntry := false;
      }
      t := Table(blocks, index, offsets);
      filterData, words := filter.Finish();
      if FilterBlock.NoFalseNegatives(filter.policy) {
        FilterAnswers(t, filter.policy, filter.groups, filter.belongs);
      }
    }
  }

  /** What `FilterBlock.KeyMayMatch` answers for a block offset and a user key. */
  ghost function Answers(policy: FilterBlock.Policy<UserKey>, groups: seq<seq<UserKey>>): (nat, UserKey) -> bool {
    (o: nat, u: UserKey) =>
      o / FilterBlock.BASE >= |groups| || policy.mayMatch(u, FilterBlock.FilterOf(policy, groups[o / FilterBlock.BASE]))
  }

  /** With the Bloom policy nothing is left to suppose. */
  lemma BloomAnswers(t: Table, hash: UserKey -> nat, bitsPerKey: nat, k: byte, groups: seq<seq<UserKey>>, belongs: set<(nat, UserKey)>)
    requires Filtered(t.blocks, t.offsets, belongs) && forall a :: a in belongs ==> a.0 < |groups| && a.1 in groups[a.0]
    ensures FilterSound(t, Answers(Bloom.BloomPolicy(hash, bitsPerKey, k), groups))
  {
    Bloom.BloomNeverMisses(hash, bitsPerKey, k);
    FilterAnswers(t, Bloom.BloomPolicy(hash, bitsPerKey, k), groups, belongs);
  }

  lemma FilterAnswers(t: Table, policy: FilterBlock.Policy<UserKey>, groups: seq<seq<UserKey>>, belongs: set<(nat, UserKey)>)
    requires FilterBlock.NoFalseNegatives(policy) && Filtered(t.blocks, t.offsets, belongs)
    requires forall a :: a in belongs ==> a.0 < |groups| && a.1 in groups[a.0]
    ensures FilterSound(t, Answers(policy, groups))
  {
    forall b, p | 0 <= b < |t.blocks| && 0 <= p < |t.blocks[b]|
      ensures Answers(policy, groups)(t.offsets[b], t.blocks[b][p].key.user)
    {
      assert BlockFiltered(t.blocks[b], t.offsets[b], belongs);
      FilterBlock.NeverRejected(policy, groups, belongs, t.offsets[b], t.blocks[b][p].key.user);
    }
  }
}
