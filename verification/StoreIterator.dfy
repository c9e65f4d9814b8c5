/**
 `DBImpl::NewIterator`: the iterator over a merge of the memtables, the tables
 of level 0 and one run for each further level walks exactly the pairs that the
 history has at its sequence number.
 */
module StoreIterator {
  import opened Basics
  import opened DbFormat
  import opened Version
  import opened CompactionWork
  import opened VersionBuilder
  import opened CompactionEffect
  import opened Merger
  import opened DbState
  import opened TwoLevel
  import Db
  import DbImpl
  import DbIter

  // ---------------------------------------------------------------------
  // Adding children one by one
  // ---------------------------------------------------------------------

  /** The children so far, and the merge of their entries `S`. */
  ghost predicate Built(children: seq<seq<Entry>>, merged: seq<Entry>, S: set<Entry>) {
    IsMerge(children, merged) && NoCommonKey(children) && ToSet(merged) == S
  }

  ghost predicate NewKeys(S: set<Entry>, child: seq<Entry>) {
    forall x, y :: x in S && y in child ==> x.key != y.key
  }

  lemma AddChild(children: seq<seq<Entry>>, merged: seq<Entry>, S: set<Entry>, child: seq<Entry>)
    requires Built(children, merged, S) && Sorted(child) && NewKeys(S, child)
    ensures Built(children + [child], Merge(merged, child), S + ToSet(child))
  {
    var more, all := children + [child], Merge(merged, child);
    assert forall e :: e in merged <==> e in S;
    MergeSorted(merged, child);
    forall c | 0 <= c < |more| ensures Contributes(more[c], all) && Sorted(more[c]) {
      if c < |children| { assert Contributes(children[c], merged); }
    }
    forall r | 0 <= r < |all| ensures Supplied(more, all, r) {
      assert all[r] in all;
      AddedSupplied(children, merged, child, all[r]);
      var c, j :| 0 <= c < |more| && 0 <= j < |more[c]| && more[c][j] == all[r];
    }
    forall c, d | 0 <= c < d < |more| ensures KeysDiffer(more[c], more[d]) && KeysDiffer(more[d], more[c]) {
      if d == |children| {
        assert Contributes(children[c], merged);
        assert forall j :: 0 <= j < |children[c]| ==> children[c][j] in S;
        assert forall j :: 0 <= j < |child| ==> child[j] in child;
      }
    }
  }

  lemma AddedSupplied(children: seq<seq<Entry>>, merged: seq<Entry>, child: seq<Entry>, e: Entry)
    requires IsMerge(children, merged) && (e in merged || e in child)
    ensures var more := children + [child]; exists c, j :: 0 <= c < |more| && 0 <= j < |more[c]| && more[c][j] == e
  {
    var more := children + [child];
    if e in merged {
      var r :| 0 <= r < |merged| && merged[r] == e;
      assert Supplied(children, merged, r);
      var c, j :| 0 <= c < |children| && 0 <= j < |children[c]| && children[c][j] == merged[r];
      assert more[c][j] == e;
    } else {
      var j :| 0 <= j < |child| && child[j] == e;
      assert more[|children|][j] == e;
    }
  }

  // ---------------------------------------------------------------------
  // The run of a level
  // ---------------------------------------------------------------------

  /** The largest keys of a level's files separate their contents, as `LevelFileNumIterator` uses them. */
  lemma LevelSeparates(files: seq<FileMeta>, blocks: seq<seq<Entry>>, index: seq<InternalKey>)
    requires ValidFiles(files) && SortedDisjoint(files) && |blocks| == |index| == |files|
    requires forall i :: 0 <= i < |files| ==> blocks[i] == files[i].entries && index[i] == files[i].largest
    ensures Separates(blocks, index)
  {
    forall i, b | 0 <= b <= i < |files| ensures AllUpto(blocks[b], index[i]) {
      assert files[b] in files && files[i] in files;
      forall p | 0 <= p < |blocks[b]| ensures AtMost(blocks[b][p].key, index[i]) {
        InFile(files, i, b, p);
      }
    }
    forall i, b | 0 <= i < b < |files| ensures AllAfter(blocks[b], index[i]) && Less(index[i], index[b]) {
      forall p | 0 <= p < |blocks[b]| ensures Less(index[i], blocks[b][p].key) {
        InFile(files, i, b, p);
      }
      assert files[b] in files;
      InFile(files, i, b, 0);
      FileBounds(files[b], files[b].entries[0]);
    }
  }

  /** Where an entry of file `b` lies with respect to the end of file `i`. */
  lemma InFile(files: seq<FileMeta>, i: nat, b: nat, p: nat)
    requires ValidFiles(files) && SortedDisjoint(files) && i < |files| && b < |files| && p < |files[b].entries|
    ensures if b <= i then AtMost(files[b].entries[p].key, files[i].largest) else Less(files[i].largest, files[b].entries[p].key)
  {
    assert files[b] in files && files[i] in files;
    FileBounds(files[b], files[b].entries[p]);
    FileBounds(files[i], files[i].entries[0]);
  }

  lemma {:induction false} RunSorted(files: seq<FileMeta>)
    requires ValidFiles(files) && SortedDisjoint(files)
    ensures Sorted(Contents(files)) && ToSet(Contents(files)) == LevelEntries(files)
  {
    hide Sorted, LevelEntries, ValidFile;
    if files == [] {
      EmptyLevel(files);
      JoinSorted([], []);
    } else {
      var init, f := files[..|files| - 1], files[|files| - 1];
      assert files == init + [f] && forall g :: g in init ==> g in files;
      RunSorted(init);
      LevelEntriesSnoc(init, f);
      LastAfter(init, f);
      JoinSorted(Contents(init), f.entries);
    }
  }

  lemma LastAfter(init: seq<FileMeta>, f: FileMeta)
    requires ValidFiles(init + [f]) && SortedDisjoint(init + [f]) && ToSet(Contents(init)) == LevelEntries(init)
    ensures Sorted(f.entries) && forall x, y :: x in Contents(init) && y in f.entries ==> Less(x.key, y.key)
  {
    var files := init + [f];
    assert f in files && ValidFile(f);
    forall x, y | x in Contents(init) && y in f.entries ensures Less(x.key, y.key) {
      assert x in ToSet(Contents(init));
      var g :| g in init && x in g.entries;
      var i :| 0 <= i < |init| && init[i] == g;
      assert files[i] == g && files[|init|] == f && g in files;
      FileBounds(g, x);
      FileBounds(f, y);
    }
  }

  lemma {:induction false} FlatIsContents(files: seq<FileMeta>, blocks: seq<seq<Entry>>, n: nat)
    requires |blocks| == |files| && n <= |files| && forall i :: 0 <= i < |files| ==> blocks[i] == files[i].entries
    ensures Flat(blocks, n) == Contents(files[..n])
  {
    if n > 0 {
      FlatIsContents(files, blocks, n - 1);
      assert files[..n][..n - 1] == files[..n - 1];
    }
  }

  lemma JoinSorted(a: seq<Entry>, b: seq<Entry>)
    requires (a == [] || Sorted(a)) && (b == [] || Sorted(b)) && forall x, y :: x in a && y in b ==> Less(x.key, y.key)
    ensures Sorted(a + b) && ToSet(a + b) == ToSet(a) + ToSet(b)
    ensures Sorted([]) && ToSet([]) == {}
  {
  }

  /** `NewConcatenatingIterator`: one cursor over all the files of a level. */
  method ConcatenatingIterator(files: seq<FileMeta>) returns (iter: TwoLevelIterator)
    requires ValidFiles(files) && SortedDisjoint(files)
    ensures fresh(iter) && iter.Valid() && iter.Index() == None && iter.All() == Contents(files)
  {
    var blocks := seq(|files|, i requires 0 <= i < |files| => files[i].entries);
    var index := seq(|files|, i requires 0 <= i < |files| => files[i].largest);
    LevelSeparates(files, blocks, index);
    iter := new TwoLevelIterator(blocks, index);
    FlatIsContents(files, blocks, |files|);
    assert files[..|files|] == files;
  }

  // ---------------------------------------------------------------------
  // All children
  // ---------------------------------------------------------------------

  function Tables(files: seq<FileMeta>): seq<seq<Entry>> {
    if files == [] then [] else Tables(files[..|files| - 1]) + [files[|files| - 1].entries]
  }

  /** One run for each of the levels from 1 up to `n`, `n` excluded, that has files. */
  function Runs(v: Levels, n: nat): seq<seq<Entry>>
    requires n <= |v|
  {
    if n <= 1 then []
    else if v[n - 1] == [] then Runs(v, n - 1)
    else Runs(v, n - 1) + [Contents(v[n - 1])]
  }

  function InMemory(mem: seq<Entry>, imm: Option<seq<Entry>>): seq<seq<Entry>> {
    if imm.Some? then [mem, imm.value] else [mem]
  }

  /** `NewInternalIterator` and `AddIterators`: the children, in the order of the code. */
  function Children(mem: seq<Entry>, imm: Option<seq<Entry>>, v: Levels): seq<seq<Entry>>
    requires |v| == NUM_LEVELS
  {
    InMemory(mem, imm) + Tables(v[0]) + Runs(v, NUM_LEVELS)
  }

  ghost function MemoryEntries(s: State): set<Entry> {
    ToSet(s.mem) + ImmEntries(s)
  }

  /** The entries of the first `n` levels. */
  ghost function Upper(v: Levels, n: nat): set<Entry>
    requires n <= |v|
  {
    set l, e | 0 <= l < n && e in LevelEntries(v[l]) :: e
  }

  lemma UpperGrows(v: Levels, n: nat)
    requires n < |v|
    ensures Upper(v, n + 1) == Upper(v, n) + LevelEntries(v[n])
  {
  }

  lemma UpperIsAll(v: Levels)
    ensures Upper(v, |v|) == Entries(v)
  {
    forall e | e in Entries(v) ensures e in Upper(v, |v|) {
      var l := LevelOf(v, e);
    }
    forall e | e in Upper(v, |v|) ensures e in Entries(v) {
      var l :| 0 <= l < |v| && e in LevelEntries(v[l]);
      assert v[l] in v;
    }
  }

  method MergeMemory(mem: seq<Entry>, imm: Option<seq<Entry>>, ghost s: State) returns (merged: seq<Entry>)
    requires Inv(s) && mem == s.mem && imm == s.imm
    ensures Built(InMemory(mem, imm), merged, MemoryEntries(s))
  {
    assert Built([], [], {});
    AddChild([], [], {}, mem);
    assert [] + [mem] == [mem] && {} + ToSet(mem) == ToSet(mem);
    merged := Merge([], mem);
    if imm.Some? {
      AddChild([mem], merged, ToSet(mem), imm.value);
      assert [mem] + [imm.value] == [mem, imm.value];
      merged := Merge(merged, imm.value);
    }
  }

  lemma MemoryNewer(s: State, child: seq<Entry>)
    requires Inv(s) && forall e :: e in child ==> e in Entries(s.version)
    ensures NewKeys(MemoryEntries(s), child)
  {
  }

  lemma TableKeys(s: State, n: nat)
    requires Inv(s) && 0 < |s.version| && n < |s.version[0]|
    ensures Sorted(s.version[0][n].entries) && NewKeys(MemoryEntries(s) + LevelEntries(s.version[0][..n]), s.version[0][n].entries)
  {
    var files := s.version[0];
    var f := files[n];
    assert f in files;
    forall e | e in f.entries ensures e in Entries(s.version) {
      InVersion(s.version, 0, f, e);
    }
    MemoryNewer(s, f.entries);
    forall x, y | x in LevelEntries(files[..n]) && y in f.entries ensures x.key != y.key {
      var g :| g in files[..n] && x in g.entries;
      var i :| 0 <= i < n && files[i] == g;
      DbImpl.OrderedNoDuplicates(files);
      DbImpl.FilesDiffer(0, files, g, f, x, y);
    }
  }

  lemma RunKeys(s: State, l: nat)
    requires Inv(s) && 1 <= l < |s.version|
    ensures Sorted(Contents(s.version[l])) && ToSet(Contents(s.version[l])) == LevelEntries(s.version[l])
    ensures NewKeys(MemoryEntries(s) + Upper(s.version, l), Contents(s.version[l]))
  {
    hide Sorted, Faithful, ValidHistory, Numbered, NewerByNumber, MemoryEntries;
    var v := s.version;
    RunSorted(v[l]);
    assert forall e :: e in Contents(v[l]) <==> e in LevelEntries(v[l]);
    forall e | e in Contents(v[l]) ensures e in Entries(v) {
      assert v[l] in v;
    }
    MemoryNewer(s, Contents(v[l]));
    forall x, y | x in Upper(v, l) && y in Contents(v[l]) ensures x.key != y.key {
      var k :| 0 <= k < l && x in LevelEntries(v[k]);
      assert Above(LevelEntries(v[k]), LevelEntries(v[l]));
    }
  }

  method MergeTables(files: seq<FileMeta>, children: seq<seq<Entry>>, merged0: seq<Entry>, ghost s: State) returns (merged: seq<Entry>)
    requires Inv(s) && 0 < |s.version| && files == s.version[0] && Built(children, merged0, MemoryEntries(s))
    ensures Built(children + Tables(files), merged, MemoryEntries(s) + LevelEntries(files))
  {
    hide Inv, Built, NewKeys, LevelEntries, MemoryEntries;
    merged := merged0;
    NoTables(s, children);
    for n := 0 to |files|
      invariant Built(children + Tables(files[..n]), merged, MemoryEntries(s) + LevelEntries(files[..n]))
    {
      TableKeys(s, n);
      AddChild(children + Tables(files[..n]), merged, MemoryEntries(s) + LevelEntries(files[..n]), files[n].entries);
      MoreTables(children, files, n, MemoryEntries(s));
      merged := Merge(merged, files[n].entries);
    }
    assert files[..|files|] == files;
  }

  lemma NoTables(s: State, children: seq<seq<Entry>>)
    ensures forall files: seq<FileMeta> :: children + Tables(files[..0]) == children && MemoryEntries(s) + LevelEntries(files[..0]) == MemoryEntries(s)
  {
  }

  lemma MoreTables(children: seq<seq<Entry>>, files: seq<FileMeta>, n: nat, S: set<Entry>)
    requires n < |files|
    ensures children + Tables(files[..n + 1]) == children + Tables(files[..n]) + [files[n].entries]
    ensures S + LevelEntries(files[..n + 1]) == S + LevelEntries(files[..n]) + ToSet(files[n].entries)
  {
    assert files[..n + 1][..n] == files[..n];
    LevelEntriesGrow(files, n);
  }

  method MergeRuns(v: Levels, children: seq<seq<Entry>>, merged0: seq<Entry>, ghost s: State) returns (merged: seq<Entry>)
    requires Inv(s) && v == s.version && |v| == NUM_LEVELS && Built(children, merged0, MemoryEntries(s) + LevelEntries(v[0]))
    ensures Built(children + Runs(v, NUM_LEVELS), merged, MemoryEntries(s) + Upper(v, NUM_LEVELS))
  {
    hide Inv, Built, NewKeys, LevelEntries, MemoryEntries, Contents, Sorted;
    merged := merged0;
    assert children + Runs(v, 1) == children;
    FirstUpper(v);
    for l := 1 to NUM_LEVELS
      invariant Built(children + Runs(v, l), merged, MemoryEntries(s) + Upper(v, l))
    {
      RunKeys(s, l);
      MoreUpper(v, l, MemoryEntries(s));
      if v[l] != [] {
        AddChild(children + Runs(v, l), merged, MemoryEntries(s) + Upper(v, l), Contents(v[l]));
        assert children + Runs(v, l + 1) == children + Runs(v, l) + [Contents(v[l])];
        merged := Merge(merged, Contents(v[l]));
      } else {
        EmptyLevel(v[l]);
        assert MemoryEntries(s) + Upper(v, l) + {} == MemoryEntries(s) + Upper(v, l);
        assert Runs(v, l + 1) == Runs(v, l);
      }
    }
  }

  lemma FirstUpper(v: Levels)
    requires 0 < |v|
    ensures Upper(v, 1) == LevelEntries(v[0])
  {
    UpperGrows(v, 0);
    assert Upper(v, 0) == {};
  }

  lemma MoreUpper(v: Levels, l: nat, S: set<Entry>)
    requires l < |v|
    ensures S + Upper(v, l + 1) == S + Upper(v, l) + LevelEntries(v[l])
  {
    UpperGrows(v, l);
  }

  lemma EmptyLevel(files: seq<FileMeta>)
    requires files == []
    ensures LevelEntries(files) == {}
  {
  }

  // ---------------------------------------------------------------------
  // What the iterator shows
  // ---------------------------------------------------------------------

  /** The pairs the history has at `q`, in increasing key order. */
  ghost predicate Shows(list: seq<(UserKey, Bytes)>, h: seq<Entry>, q: nat) {
    && (forall a, b :: 0 <= a < b < |list| ==> list[a].0 < list[b].0)
    && (forall u, v :: (u, v) in list <==> LastWrite(h, u, q) == Some(v))
  }

  lemma MergeShows(s: State, merged: seq<Entry>, q: nat)
    requires Inv(s) && Sorted(merged) && ToSet(merged) == All(s) && Oldest(s) <= q
    ensures Shows(DbIter.AllPairs(merged, q), s.history, q)
  {
    HistoryDistinct(s.history);
    Db.DistinctSubset(All(s), ToSet(s.history));
    var list := DbIter.AllPairs(merged, q);
    forall u, v ensures (u, v) in list <==> LastWrite(s.history, u, q) == Some(v) {
      DbIter.PairsAreReads(merged, q, u, v);
      LastWriteIsRead(s.history, u, q);
      assert Read(All(s), u, q) == Read(ToSet(s.history), u, q);
    }
    forall a, b | 0 <= a < b < |list| ensures list[a].0 < list[b].0 {
      DbIter.PairsAscend(merged, q, a, b);
    }
  }

  /** `DBImpl::NewIterator`: at a live snapshot or the present, the pairs of the history. */
  method NewIterator(mem: seq<Entry>, imm: Option<seq<Entry>>, version: Levels, sequence: nat, ghost s: State)
    returns (inner: MergingIterator, iter: DbIter.DBIter)
    requires Inv(s) && |version| == NUM_LEVELS && mem == s.mem && imm == s.imm && version == s.version && Oldest(s) <= sequence
    ensures fresh(inner) && inner.Valid() && inner.children == Children(mem, imm, version) && inner.merged == iter.es
    ensures fresh(iter) && iter.Valid() && iter.Index() == None && iter.sequence == sequence
    ensures Shows(iter.List(), s.history, sequence)
  {
    hide Inv, Built, Shows, MemoryEntries, Upper, Entries, All;
    var merged := MergeMemory(mem, imm, s);
    merged := MergeTables(version[0], InMemory(mem, imm), merged, s);
    merged := MergeRuns(version, InMemory(mem, imm) + Tables(version[0]), merged, s);
    AllBuilt(s, Children(mem, imm, version), merged);
    MergeShows(s, merged, sequence);
    inner := new MergingIterator(Children(mem, imm, version), merged);
    iter := new DbIter.DBIter(merged, sequence);
  }

  lemma AllBuilt(s: State, children: seq<seq<Entry>>, merged: seq<Entry>)
    requires |s.version| == NUM_LEVELS && Built(children, merged, MemoryEntries(s) + Upper(s.version, NUM_LEVELS))
    ensures IsMerge(children, merged) && NoCommonKey(children) && Sorted(merged) && ToSet(merged) == All(s)
  {
    UpperIsAll(s.version);
  }
}
