/**
 Running a compaction: the forward-only cursors of `Compaction`, the merged
 input, and the loop of `DBImpl::DoCompactionWork`.
 */
module CompactionWork {
  import opened Basics
  import opened DbFormat
  import opened Version
  import opened DropRules

  // ---------------------------------------------------------------------
  // The merged input
  // ---------------------------------------------------------------------

  /** Two sorted runs as one; entries of `a` come first on equal keys. */
  function Merge(a: seq<Entry>, b: seq<Entry>): (r: seq<Entry>)
    ensures forall e :: e in r <==> e in a || e in b
  {
    if a == [] then b
    else if b == [] then a
    else if Less(b[0].key, a[0].key) then [b[0]] + Merge(a, b[1..])
    else [a[0]] + Merge(a[1..], b)
  }

  lemma HeadLeast(s: seq<Entry>, e: Entry)
    requires Sorted(s) && e in s
    ensures AtMost(s[0].key, e.key)
    ensures e in s[1..] ==> Less(s[0].key, e.key)
  {
    var i :| 0 <= i < |s| && s[i] == e;
    if e in s[1..] {
      var j :| 0 <= j < |s[1..]| && s[1..][j] == e;
      assert s[j + 1] == e;
    }
  }

  lemma SortedCons(first: Entry, rest: seq<Entry>)
    requires Sorted(rest) && forall e :: e in rest ==> Less(first.key, e.key)
    ensures Sorted([first] + rest)
  {
  }

  lemma {:induction false} MergeSorted(a: seq<Entry>, b: seq<Entry>)
    requires Sorted(a) && Sorted(b)
    requires forall x, y :: x in a && y in b ==> x.key != y.key
    ensures Sorted(Merge(a, b))
  {
    if a != [] && b != [] {
      if Less(b[0].key, a[0].key) {
        MergeSorted(a, b[1..]);
        forall e | e in Merge(a, b[1..]) ensures Less(b[0].key, e.key) {
          if e in a { HeadLeast(a, e); } else { HeadLeast(b, e); }
        }
        SortedCons(b[0], Merge(a, b[1..]));
      } else {
        MergeSorted(a[1..], b);
        assert a[0].key != b[0].key;
        forall e | e in Merge(a[1..], b) ensures Less(a[0].key, e.key) {
          if e in b { HeadLeast(b, e); } else { HeadLeast(a, e); }
        }
        SortedCons(a[0], Merge(a[1..], b));
      }
    }
  }

  ghost predicate DisjointKeys(files: seq<FileMeta>) {
    forall i, j, x, y :: 0 <= i < j < |files| && x in files[i].entries && y in files[j].entries ==> x.key != y.key
  }

  lemma LevelEntriesGrow(files: seq<FileMeta>, n: nat)
    requires n < |files|
    ensures LevelEntries(files[..n + 1]) == LevelEntries(files[..n]) + FileEntries(files[n])
  {
    assert files[..n + 1] == files[..n] + [files[n]];
  }

  lemma FreshKeys(files: seq<FileMeta>, n: nat)
    requires n < |files| && DisjointKeys(files)
    ensures forall x, y :: x in LevelEntries(files[..n]) && y in files[n].entries ==> x.key != y.key
  {
    forall x, y | x in LevelEntries(files[..n]) && y in files[n].entries ensures x.key != y.key {
      var f :| f in files[..n] && x in f.entries;
      var i :| 0 <= i < n && files[i] == f;
    }
  }

  /** All entries of the input files in key order, as the merging iterator yields them. */
  method MakeInput(files: seq<FileMeta>) returns (input: seq<Entry>)
    requires ValidFiles(files) && DisjointKeys(files)
    ensures Sorted(input) && ToSet(input) == LevelEntries(files)
  {
    input := [];
    for n := 0 to |files|
      invariant Sorted(input) && ToSet(input) == LevelEntries(files[..n])
    {
      assert files[n] in files;
      FreshKeys(files, n);
      LevelEntriesGrow(files, n);
      assert forall e :: e in input <==> e in ToSet(input);
      MergeSorted(input, files[n].entries);
      input := Merge(input, files[n].entries);
    }
    assert files[..|files|] == files;
  }

  // ---------------------------------------------------------------------
  // Cursors
  // ---------------------------------------------------------------------

  /** The scan state a compaction keeps while its input keys ascend. */
  class Cursor {
    const version: Levels
    const level: nat
    var levelPtrs: seq<nat>

    constructor (v: Levels, level: nat)
      requires ValidVersion(v)
      ensures version == v && this.level == level
      ensures forall u :: Behind(u)
    {
      this.version := v;
      this.level := level;
      levelPtrs := seq(NUM_LEVELS, i => 0);
    }

    /** Every file a pointer has passed ends before `u`. */
    ghost predicate Behind(u: UserKey)
      reads this
    {
      && |levelPtrs| == |version|
      && (forall l :: 0 <= l < |version| ==> levelPtrs[l] <= |version[l]|)
      && (forall l, i :: 0 <= l < |version| && 0 <= i < levelPtrs[l] ==> version[l][i].largest.user < u)
    }

    /** Agrees with a stateless scan of the lower levels as long as keys ascend. */
    method IsBaseLevelForKey(u: UserKey) returns (r: bool)
      requires ValidVersion(version) && Behind(u)
      modifies this`levelPtrs
      ensures Behind(u)
      ensures r <==> IsBaseLevel(version, level, u)
    {
      var l := level + 2;
      while l < NUM_LEVELS
        invariant level + 2 <= l
        invariant Behind(u)
        invariant forall m, f :: level + 2 <= m < l && m < |version| && f in version[m] ==> u < f.smallest.user || f.largest.user < u
      {
        var found := ScanLevel(l, u);
        if found {
          return false;
        }
        l := l + 1;
      }
      return true;
    }

    method ScanLevel(l: nat, u: UserKey) returns (found: bool)
      requires ValidVersion(version) && Behind(u) && 1 <= l < NUM_LEVELS
      modifies this`levelPtrs
      ensures Behind(u)
      ensures found <==> exists f :: f in version[l] && f.smallest.user <= u <= f.largest.user
    {
      var files := version[l];
      while levelPtrs[l] < |files|
        invariant Behind(u)
        decreases |files| - levelPtrs[l]
      {
        var f := files[levelPtrs[l]];
        if u <= f.largest.user {
          if u >= f.smallest.user {
            assert f in files;
            return true;
          }
          PastCursor(files, levelPtrs[l], u);
          return false;
        }
        levelPtrs := levelPtrs[l := levelPtrs[l] + 1];
      }
      return false;
    }
  }

  lemma PastCursor(files: seq<FileMeta>, p: nat, u: UserKey)
    requires ValidFiles(files) && SortedDisjoint(files) && p < |files|
    requires forall i :: 0 <= i < p ==> files[i].largest.user < u
    requires u < files[p].smallest.user
    ensures forall f :: f in files ==> u < f.smallest.user || f.largest.user < u
  {
    forall f | f in files ensures u < f.smallest.user || f.largest.user < u {
      var i :| 0 <= i < |files| && files[i] == f;
      if p < i {
        assert files[p] in files;
        FileBounds(files[p], files[p].entries[0]);
        assert Less(files[p].largest, files[i].smallest);
      }
    }
  }

  // ---------------------------------------------------------------------
  // DoCompactionWork
  // ---------------------------------------------------------------------

  /** The contents of a list of tables, one after the other. */
  function Contents(files: seq<FileMeta>): seq<Entry> {
    if files == [] then [] else Contents(files[..|files| - 1]) + files[|files| - 1].entries
  }

  /** A finished output: `smallest` and `largest` were taken from the first and last key added. */
  function MakeFile(number: nat, size: nat, es: seq<Entry>): (f: FileMeta)
    requires es != []
    ensures f.entries == es
  {
    FileMeta(number, size, es[0].key, es[|es| - 1].key, es)
  }

  ghost predicate FinishedFile(f: FileMeta) {
    f.entries != [] && f == MakeFile(f.number, f.size, f.entries)
  }

  /** `CompactionState`: finished outputs and the table being built, if any. */
  class Outputs {
    const firstNumber: nat
    var files: seq<FileMeta>
    var building: seq<Entry>
    var nextNumber: nat

    ghost predicate Valid()
      reads this
    {
      && nextNumber == firstNumber + |files| + (if building == [] then 0 else 1)
      && (forall k :: 0 <= k < |files| ==> FinishedFile(files[k]) && files[k].number == firstNumber + k)
    }

    ghost function All(): seq<Entry>
      reads this
    {
      Contents(files) + building
    }

    constructor (nextNumber: nat)
      ensures Valid() && All() == [] && firstNumber == nextNumber
    {
      firstNumber := nextNumber;
      this.nextNumber := nextNumber;
      files, building := [], [];
    }

    /** `OpenCompactionOutputFile` if needed, then `builder->Add`. */
    method Add(e: Entry)
      requires Valid()
      modifies this
      ensures Valid() && All() == old(All()) + [e]
    {
      if building == [] {
        nextNumber := nextNumber + 1;
      }
      building := building + [e];
    }

    /** `FinishCompactionOutputFile`: the file number is the last one drawn. */
    method Finish(size: nat)
      requires Valid()
      modifies this
      ensures Valid() && All() == old(All()) && building == []
    {
      if building != [] {
        files := files + [MakeFile(nextNumber - 1, size, building)];
        assert files[..|files| - 1] == old(files);
        building := [];
      }
    }
  }

  lemma BehindGrows(cursor: Cursor, u: UserKey, w: UserKey)
    requires cursor.Behind(u) && u <= w
    ensures cursor.Behind(w)
  {
  }

  /**
   The compaction loop.  An output may be closed before or after any entry: the
   grandparent and size limits decide when, and no result depends on them.
   */
  method DoCompactionWork(cursor: Cursor, input: seq<Entry>, snapshot: nat, nextNumber: nat, sizes: nat -> nat)
    returns (outputs: seq<FileMeta>, newNext: nat)
    requires ValidVersion(cursor.version) && (forall u :: cursor.Behind(u))
    requires Sorted(input) && snapshot < MAX_SEQUENCE
    modifies cursor`levelPtrs
    ensures Contents(outputs) == Kept(cursor.version, cursor.level, input, |input|, snapshot)
    ensures newNext == nextNumber + |outputs|
    ensures forall i :: 0 <= i < |outputs| ==> FinishedFile(outputs[i]) && outputs[i].number == nextNumber + i
  {
    hide ValidVersion, Contents;
    var out := new Outputs(nextNumber);
    var currentUserKey: Option<UserKey> := None;
    var lastSequenceForKey := MAX_SEQUENCE;
    for i := 0 to |input|
      invariant out.Valid() && fresh(out) && out.firstNumber == nextNumber
      invariant i < |input| ==> cursor.Behind(input[i].key.user)
      invariant out.All() == Kept(cursor.version, cursor.level, input, i, snapshot)
      invariant if i == 0 then currentUserKey == None
                else currentUserKey == Some(input[i - 1].key.user) && lastSequenceForKey == input[i - 1].key.sequence
    {
      var e := input[i];
      if * {
        out.Finish(sizes(i));
      }
      var drop := false;
      if currentUserKey != Some(e.key.user) {
        currentUserKey := Some(e.key.user);
        lastSequenceForKey := MAX_SEQUENCE;
      }
      if lastSequenceForKey <= snapshot {
        drop := true;
      } else if e.key.kind.Deletion? && e.key.sequence <= snapshot {
        drop := cursor.IsBaseLevelForKey(e.key.user);
      }
      lastSequenceForKey := e.key.sequence;
      if i + 1 < |input| {
        BehindGrows(cursor, e.key.user, input[i + 1].key.user);
      }
      assert drop <==> Dropped(cursor.version, cursor.level, input, i, snapshot);
      if !drop {
        out.Add(e);
        if * {
          out.Finish(sizes(i));
        }
      }
    }
    out.Finish(sizes(|input|));
    outputs, newNext := out.files, out.nextNumber;
  }
}
