/**
 What installing a compaction, a trivial move or a flushed memtable does to a
 version: the level invariants survive, and the entries change as intended.
 */
module CompactionEffect {
  import opened Basics
  import opened DbFormat
  import opened Version
  import opened InputSelection
  import opened DropRules
  import opened CompactionWork
  import opened VersionBuilder
  import opened Manifest

  // ---------------------------------------------------------------------
  // Ordered lists of disjoint files
  // ---------------------------------------------------------------------

  ghost predicate Apart(f: FileMeta, g: FileMeta) {
    Less(f.largest, g.smallest) || Less(g.largest, f.smallest)
  }

  lemma SortedFromApart(files: seq<FileMeta>)
    requires Ordered(files) && ValidFiles(files)
    requires forall f, g :: f in files && g in files && f != g ==> Apart(f, g)
    ensures SortedDisjoint(files)
  {
    forall i, j | 0 <= i < j < |files| ensures Less(files[i].largest, files[j].smallest) {
      assert BySmallest(files[i], files[j]);
      assert files[i] in files && files[j] in files;
      FileBounds(files[i], files[i].entries[0]);
      FileBounds(files[j], files[j].entries[0]);
      assert Apart(files[i], files[j]);
    }
  }

  lemma ApartFromSorted(files: seq<FileMeta>, f: FileMeta, g: FileMeta)
    requires SortedDisjoint(files) && f in files && g in files && f != g
    ensures Apart(f, g)
  {
    var i :| 0 <= i < |files| && files[i] == f;
    var j :| 0 <= j < |files| && files[j] == g;
  }

  // ---------------------------------------------------------------------
  // The outputs of a compaction
  // ---------------------------------------------------------------------

  lemma InLevel(files: seq<FileMeta>, f: FileMeta, e: Entry)
    requires f in files && e in f.entries
    ensures e in LevelEntries(files)
  {
  }

  lemma SplitSorted(a: seq<Entry>, b: seq<Entry>)
    requires Sorted(a + b)
    ensures Sorted(a) && Sorted(b)
    ensures forall x, y :: x in a && y in b ==> Less(x.key, y.key)
  {
    forall i, j | 0 <= i < j < |a| ensures Less(a[i].key, a[j].key) {
      assert (a + b)[i] == a[i] && (a + b)[j] == a[j];
    }
    forall i, j | 0 <= i < j < |b| ensures Less(b[i].key, b[j].key) {
      assert (a + b)[|a| + i] == b[i] && (a + b)[|a| + j] == b[j];
    }
    forall x, y | x in a && y in b ensures Less(x.key, y.key) {
      var i :| 0 <= i < |a| && a[i] == x;
      var j :| 0 <= j < |b| && b[j] == y;
      assert (a + b)[i] == x && (a + b)[|a| + j] == y;
    }
  }

  lemma LevelEntriesSnoc(init: seq<FileMeta>, f: FileMeta)
    ensures LevelEntries(init + [f]) == LevelEntries(init) + FileEntries(f)
  {
  }

  /** Cutting a sorted run into tables gives valid, increasing, disjoint files. */
  lemma {:induction false} OutputsSorted(outs: seq<FileMeta>)
    requires forall i :: 0 <= i < |outs| ==> FinishedFile(outs[i])
    requires Sorted(Contents(outs)) && forall e :: e in Contents(outs) ==> e.key.sequence <= MAX_SEQUENCE
    ensures ValidFiles(outs) && SortedDisjoint(outs)
    ensures LevelEntries(outs) == ToSet(Contents(outs))
  {
    if outs != [] {
      var n := |outs| - 1;
      var init, f := outs[..n], outs[n];
      SplitSorted(Contents(init), f.entries);
      OutputsSorted(init);
      assert f.entries[|f.entries| - 1] in f.entries;
      assert ValidFile(f);
      assert outs == init + [f];
      LevelEntriesSnoc(init, f);
      forall i | 0 <= i < n ensures Less(init[i].largest, f.smallest) {
        var g := init[i];
        assert g in init;
        InLevel(init, g, g.entries[|g.entries| - 1]);
        assert f.entries[0] in f.entries;
      }
    }
  }

  // ---------------------------------------------------------------------
  // Replacing inputs by outputs
  // ---------------------------------------------------------------------

  /** `w` is `v` with `in0` and `in1` taken out and `outs` put into `level + 1`. */
  ghost predicate Replaced(v: Levels, level: nat, in0: seq<FileMeta>, in1: seq<FileMeta>, outs: seq<FileMeta>, w: Levels) {
    && |v| == |w| == NUM_LEVELS && level + 1 < NUM_LEVELS
    && (forall l :: 0 <= l < NUM_LEVELS && l != level && l != level + 1 ==> w[l] == v[l])
    && (forall f :: f in w[level] <==> f in v[level] && f !in in0)
    && (forall f :: f in w[level + 1] <==> (f in v[level + 1] && f !in in1) || f in outs)
    && Ordered(w[level]) && Ordered(w[level + 1])
  }

  /** The inputs are files of the two levels, and what is left at the upper one is newer. */
  ghost predicate Taken(files: seq<FileMeta>, next: seq<FileMeta>, in0: seq<FileMeta>, in1: seq<FileMeta>) {
    (forall f :: f in in0 ==> f in files) && (forall f :: f in in1 ==> f in next) && KeptAbove(files, in0)
  }

  /** The outputs hold only input entries, cut into increasing disjoint tables. */
  ghost predicate OutputsFrom(in0: seq<FileMeta>, in1: seq<FileMeta>, outs: seq<FileMeta>) {
    && ValidFiles(outs) && SortedDisjoint(outs)
    && forall e :: e in LevelEntries(outs) ==> e in LevelEntries(in0) || e in LevelEntries(in1)
  }

  /** A file of the next level left behind lies entirely before or after every input entry. */
  lemma LeftBehindApart(next: seq<FileMeta>, in0: seq<FileMeta>, in1: seq<FileMeta>, f: FileMeta)
    requires ValidFiles(next) && SortedDisjoint(next) && ValidFiles(in0) && MeetsRange(next, in0, in1)
    requires f in next && f !in in1
    ensures (forall e :: e in LevelEntries(in0) || e in LevelEntries(in1) ==> Less(f.largest, e.key))
         || (forall e :: e in LevelEntries(in0) || e in LevelEntries(in1) ==> Less(e.key, f.smallest))
  {
    hide SortedDisjoint, OverlappingFiles;
    var lo, hi :| Spans(in0, lo, hi) && in1 == OverlappingFiles(next, Some(lo), Some(hi));
    FileBounds(f, f.entries[0]);
    forall e | e in LevelEntries(in0) || e in LevelEntries(in1)
      ensures if f.largest.user < lo then Less(f.largest, e.key) else Less(e.key, f.smallest)
    {
      if e in LevelEntries(in0) {
        var g :| g in in0 && e in g.entries;
        FileBounds(g, e);
      } else {
        var g :| g in in1 && e in g.entries;
        FileBounds(g, e);
        ApartFromSorted(next, f, g);
      }
    }
  }

  lemma NextLevelSorted(next: seq<FileMeta>, in0: seq<FileMeta>, in1: seq<FileMeta>, outs: seq<FileMeta>, w: seq<FileMeta>)
    requires ValidFiles(next) && SortedDisjoint(next) && ValidFiles(in0) && MeetsRange(next, in0, in1)
    requires OutputsFrom(in0, in1, outs) && Ordered(w)
    requires forall f :: f in w <==> (f in next && f !in in1) || f in outs
    ensures ValidFiles(w) && SortedDisjoint(w)
  {
    forall f, g | f in w && g in w && f != g ensures Apart(f, g) {
      if f in outs && g in outs {
        ApartFromSorted(outs, f, g);
      } else if f in outs {
        OutputApart(next, in0, in1, outs, g, f);
      } else if g in outs {
        OutputApart(next, in0, in1, outs, f, g);
      } else {
        ApartFromSorted(next, f, g);
      }
    }
    SortedFromApart(w);
  }

  lemma OutputApart(next: seq<FileMeta>, in0: seq<FileMeta>, in1: seq<FileMeta>, outs: seq<FileMeta>, f: FileMeta, o: FileMeta)
    requires ValidFiles(next) && SortedDisjoint(next) && ValidFiles(in0) && MeetsRange(next, in0, in1)
    requires OutputsFrom(in0, in1, outs) && f in next && f !in in1 && o in outs
    ensures Apart(f, o)
  {
    LeftBehindApart(next, in0, in1, f);
    InLevel(outs, o, o.entries[0]);
    InLevel(outs, o, o.entries[|o.entries| - 1]);
  }

  lemma SubsetSorted(files: seq<FileMeta>, part: seq<FileMeta>)
    requires ValidFiles(files) && SortedDisjoint(files) && Ordered(part) && forall f :: f in part ==> f in files
    ensures SortedDisjoint(part)
  {
    forall f, g | f in part && g in part && f != g ensures Apart(f, g) {
      ApartFromSorted(files, f, g);
    }
    SortedFromApart(part);
  }

  lemma AboveSubset(A: set<Entry>, B: set<Entry>, A': set<Entry>, B': set<Entry>)
    requires Above(A, B) && A' <= A && B' <= B
    ensures Above(A', B')
  {
  }

  /** What is left at `level` stays newer than everything now at `level + 1`. */
  lemma KeptAboveOutputs(v: Levels, level: nat, in0: seq<FileMeta>, in1: seq<FileMeta>, outs: seq<FileMeta>, w: Levels)
    requires ValidVersion(v) && Replaced(v, level, in0, in1, outs, w)
    requires Taken(v[level], v[level + 1], in0, in1) && OutputsFrom(in0, in1, outs)
    ensures Above(LevelEntries(w[level]), LevelEntries(w[level + 1]))
  {
    assert Above(LevelEntries(v[level]), LevelEntries(v[level + 1]));
    forall y | y in LevelEntries(w[level + 1]) ensures y in LevelEntries(v[level + 1]) || y in LevelEntries(in0) {
      LowerSources(v, level, in0, in1, outs, w, y);
    }
    RemainderAbove(v[level], v[level + 1], in0, w[level], LevelEntries(w[level + 1]));
  }

  lemma RemainderAbove(files: seq<FileMeta>, next: seq<FileMeta>, in0: seq<FileMeta>, left: seq<FileMeta>, lower: set<Entry>)
    requires KeptAbove(files, in0) && Above(LevelEntries(files), LevelEntries(next))
    requires forall f :: f in left ==> f in files && f !in in0
    requires forall y :: y in lower ==> y in LevelEntries(next) || y in LevelEntries(in0)
    ensures Above(LevelEntries(left), lower)
  {
    forall x, y | x in LevelEntries(left) && y in lower && x.key.user == y.key.user
      ensures x.key.sequence > y.key.sequence
    {
      var f :| f in left && x in f.entries;
      InLevel(files, f, x);
      if y !in LevelEntries(next) {
        var g :| g in in0 && y in g.entries;
        assert Above(FileEntries(f), FileEntries(g));
        assert x in FileEntries(f) && y in FileEntries(g);
      }
    }
  }

  /** Entries now at `level + 1` were there before or come from `in0`. */
  lemma LowerSources(v: Levels, level: nat, in0: seq<FileMeta>, in1: seq<FileMeta>, outs: seq<FileMeta>, w: Levels, y: Entry)
    requires Replaced(v, level, in0, in1, outs, w)
    requires Taken(v[level], v[level + 1], in0, in1) && OutputsFrom(in0, in1, outs)
    requires y in LevelEntries(w[level + 1])
    ensures y in LevelEntries(v[level + 1]) || y in LevelEntries(in0)
  {
    var g :| g in w[level + 1] && y in g.entries;
    if g in outs {
      assert y in LevelEntries(outs);
      if y in LevelEntries(in1) {
        var h :| h in in1 && y in h.entries;
        assert h in v[level + 1];
      }
    }
  }

  lemma LevelSources(v: Levels, level: nat, in0: seq<FileMeta>, in1: seq<FileMeta>, outs: seq<FileMeta>, w: Levels, l: nat, y: Entry)
    requires Replaced(v, level, in0, in1, outs, w)
    requires Taken(v[level], v[level + 1], in0, in1) && OutputsFrom(in0, in1, outs)
    requires l < NUM_LEVELS && y in LevelEntries(w[l])
    ensures y in LevelEntries(v[l]) || (l == level + 1 && y in LevelEntries(v[level]))
  {
    if l == level + 1 {
      LowerSources(v, level, in0, in1, outs, w, y);
      if y in LevelEntries(in0) {
        var h :| h in in0 && y in h.entries;
        assert h in v[level];
      }
    } else if l == level {
      var g :| g in w[level] && y in g.entries;
    }
  }

  lemma OtherPairsAbove(v: Levels, level: nat, in0: seq<FileMeta>, in1: seq<FileMeta>, outs: seq<FileMeta>, w: Levels, l: nat, m: nat)
    requires LevelsOrdered(v) && Replaced(v, level, in0, in1, outs, w)
    requires Taken(v[level], v[level + 1], in0, in1) && OutputsFrom(in0, in1, outs)
    requires l < m < |w| && !(l == level && m == level + 1)
    ensures Above(LevelEntries(w[l]), LevelEntries(w[m]))
  {
    forall x, y | x in LevelEntries(w[l]) && y in LevelEntries(w[m]) && x.key.user == y.key.user
      ensures x.key.sequence > y.key.sequence
    {
      LevelSources(v, level, in0, in1, outs, w, l, x);
      LevelSources(v, level, in0, in1, outs, w, m, y);
      var l' := if x in LevelEntries(v[l]) then l else level;
      var m' := if y in LevelEntries(v[m]) then m else level;
      assert Above(LevelEntries(v[l']), LevelEntries(v[m']));
    }
  }

  lemma ReplacedOrdered(v: Levels, level: nat, in0: seq<FileMeta>, in1: seq<FileMeta>, outs: seq<FileMeta>, w: Levels)
    requires ValidVersion(v) && Replaced(v, level, in0, in1, outs, w)
    requires Taken(v[level], v[level + 1], in0, in1) && OutputsFrom(in0, in1, outs)
    ensures LevelsOrdered(w)
  {
    forall l, m | 0 <= l < m < |w| ensures Above(LevelEntries(w[l]), LevelEntries(w[m])) {
      if l == level && m == level + 1 {
        KeptAboveOutputs(v, level, in0, in1, outs, w);
      } else {
        OtherPairsAbove(v, level, in0, in1, outs, w, l, m);
      }
    }
  }

  /** Replacing a good selection by its outputs keeps every invariant of a version. */
  lemma ReplacedValid(v: Levels, level: nat, in0: seq<FileMeta>, in1: seq<FileMeta>, outs: seq<FileMeta>, w: Levels)
    requires ValidVersion(v) && Replaced(v, level, in0, in1, outs, w)
    requires GoodInputs(v[level], v[level + 1], in0, in1) && OutputsFrom(in0, in1, outs)
    ensures ValidVersion(w)
  {
    assert Taken(v[level], v[level + 1], in0, in1);
    ReplacedOrdered(v, level, in0, in1, outs, w);
    NextLevelSorted(v[level + 1], in0, in1, outs, w[level + 1]);
    if level > 0 {
      SubsetSorted(v[level], w[level]);
    }
  }

  // ---------------------------------------------------------------------
  // The entries of a version across a replacement
  // ---------------------------------------------------------------------

  ghost predicate IsInput(level: nat, in0: seq<FileMeta>, in1: seq<FileMeta>, l: nat, f: FileMeta) {
    (l == level && f in in0) || (l == level + 1 && f in in1)
  }

  /** The entries of all files the compaction does not touch. */
  ghost function RestEntries(v: Levels, level: nat, in0: seq<FileMeta>, in1: seq<FileMeta>): set<Entry> {
    set l, f, e | 0 <= l < |v| && f in v[l] && !IsInput(level, in0, in1, l, f) && e in f.entries :: e
  }

  lemma InVersion(v: Levels, l: nat, f: FileMeta, e: Entry)
    requires l < |v| && f in v[l] && e in f.entries
    ensures e in Entries(v)
  {
    assert v[l] in v;
  }

  lemma FindInVersion(v: Levels, e: Entry) returns (l: nat, f: FileMeta)
    requires e in Entries(v)
    ensures l < |v| && f in v[l] && e in f.entries
  {
    var files, g :| files in v && g in files && e in g.entries;
    l :| 0 <= l < |v| && v[l] == files;
    f := g;
  }

  lemma EntriesBefore(v: Levels, level: nat, in0: seq<FileMeta>, in1: seq<FileMeta>)
    requires level + 1 < |v| && (forall f :: f in in0 ==> f in v[level]) && (forall f :: f in in1 ==> f in v[level + 1])
    ensures Entries(v) == RestEntries(v, level, in0, in1) + LevelEntries(in0) + LevelEntries(in1)
  {
    var R := RestEntries(v, level, in0, in1);
    forall e | e in Entries(v) ensures e in R + LevelEntries(in0) + LevelEntries(in1) {
      var l, f := FindInVersion(v, e);
      assert IsInput(level, in0, in1, l, f) || e in R;
    }
    forall e | e in R + LevelEntries(in0) + LevelEntries(in1) ensures e in Entries(v) {
      if e in LevelEntries(in0) {
        var f :| f in in0 && e in f.entries;
        InVersion(v, level, f, e);
      } else if e in LevelEntries(in1) {
        var f :| f in in1 && e in f.entries;
        InVersion(v, level + 1, f, e);
      } else {
        var l, f :| 0 <= l < |v| && f in v[l] && !IsInput(level, in0, in1, l, f) && e in f.entries;
        InVersion(v, l, f, e);
      }
    }
  }

  lemma EntriesAfter(v: Levels, level: nat, in0: seq<FileMeta>, in1: seq<FileMeta>, outs: seq<FileMeta>, w: Levels)
    requires Replaced(v, level, in0, in1, outs, w)
    ensures Entries(w) == RestEntries(v, level, in0, in1) + LevelEntries(outs)
  {
    var R := RestEntries(v, level, in0, in1);
    forall e | e in Entries(w) ensures e in R + LevelEntries(outs) {
      var l, f := FindInVersion(w, e);
      if l == level + 1 && f in outs {
        InLevel(outs, f, e);
      } else {
        assert f in v[l] && !IsInput(level, in0, in1, l, f);
      }
    }
    forall e | e in R + LevelEntries(outs) ensures e in Entries(w) {
      if e in LevelEntries(outs) {
        var f :| f in outs && e in f.entries;
        InVersion(w, level + 1, f, e);
      } else {
        var l, f :| 0 <= l < |v| && f in v[l] && !IsInput(level, in0, in1, l, f) && e in f.entries;
        assert f in w[l];
        InVersion(w, l, f, e);
      }
    }
  }

  // ---------------------------------------------------------------------
  // File numbers, and the edits that carry out a replacement
  // ---------------------------------------------------------------------

  ghost function NumbersAt(v: Levels, l: nat): set<nat>
    requires l < |v|
  {
    Numbers(FileSet(v[l]))
  }

  /** Levels are ordered lists, and a file number below the counter names one file of one level. */
  ghost predicate Numbered(v: Levels, next: nat) {
    && WellNumbered(v)
    && (forall l :: 0 <= l < |v| ==> AllBelow(NumbersAt(v, l), next))
    && (forall l, m :: 0 <= l < m < |v| ==> NumbersAt(v, l) !! NumbersAt(v, m))
  }

  ghost predicate AllBelow(S: set<nat>, bound: nat) {
    forall n :: n in S ==> n < bound
  }

  /** No file of the version has this number. */
  ghost predicate Unused(v: Levels, n: nat) {
    forall l :: 0 <= l < |v| ==> n !in NumbersAt(v, l)
  }

  lemma BeyondIsUnused(v: Levels, next: nat, n: nat)
    requires Numbered(v, next) && n >= next
    ensures Unused(v, n)
  {
    forall l | 0 <= l < |v| ensures n !in NumbersAt(v, l) {
      assert AllBelow(NumbersAt(v, l), next);
    }
  }

  lemma HasNumber(v: Levels, l: nat, f: FileMeta)
    requires l < |v| && f in v[l]
    ensures f.number in NumbersAt(v, l)
    ensures forall next :: Numbered(v, next) ==> f.number < next
  {
    assert f in FileSet(v[l]);
  }

  /** `AddInputDeletions` plus one `AddFile` per output. */
  function CompactionEdit(level: nat, in0: seq<FileMeta>, in1: seq<FileMeta>, outs: seq<FileMeta>): Edit {
    Edit((set f | f in in0 :: (level, f.number)) + (set f | f in in1 :: (level + 1, f.number)),
         seq(|outs|, i requires 0 <= i < |outs| => (level + 1, outs[i])))
  }

  lemma CompactionEditAt(level: nat, in0: seq<FileMeta>, in1: seq<FileMeta>, outs: seq<FileMeta>, l: nat)
    ensures var e := CompactionEdit(level, in0, in1, outs);
            && AddedAt(e, l) == (if l == level + 1 then FileSet(outs) else {})
            && DeletedAt(e, l) == (if l == level then Numbers(FileSet(in0)) else if l == level + 1 then Numbers(FileSet(in1)) else {})
  {
    var e := CompactionEdit(level, in0, in1, outs);
    forall o | o in outs ensures (level + 1, o) in e.added {
      var i :| 0 <= i < |outs| && outs[i] == o;
      assert e.added[i] == (level + 1, o);
    }
    forall f | f in in0 ensures (level, f.number) in e.deleted {}
    forall f | f in in1 ensures (level + 1, f.number) in e.deleted {}
  }

  /** Outputs carry numbers unused in `level + 1` by files that stay. */
  ghost predicate FreshOutputs(v: Levels, level: nat, outs: seq<FileMeta>)
    requires level + 1 < |v|
  {
    UniqueNumbers(FileSet(outs)) && Numbers(FileSet(v[level + 1])) !! Numbers(FileSet(outs))
  }

  lemma EditLegal(v: Levels, level: nat, in0: seq<FileMeta>, in1: seq<FileMeta>, outs: seq<FileMeta>)
    requires |v| == NUM_LEVELS && level + 1 < |v| && FreshOutputs(v, level, outs)
    ensures LegalEdit(v, CompactionEdit(level, in0, in1, outs))
  {
    forall l | 0 <= l < NUM_LEVELS {
      CompactionEditAt(level, in0, in1, outs, l);
    }
  }

  lemma EditReplaces(v: Levels, next: nat, level: nat, in0: seq<FileMeta>, in1: seq<FileMeta>, outs: seq<FileMeta>, w: Levels)
    requires |v| == NUM_LEVELS && level + 1 < |v| && Numbered(v, next) && FreshOutputs(v, level, outs)
    requires (forall f :: f in in0 ==> f in v[level]) && (forall f :: f in in1 ==> f in v[level + 1])
    requires Installs(v, CompactionEdit(level, in0, in1, outs), w)
    ensures Replaced(v, level, in0, in1, outs, w)
  {
    forall l | 0 <= l < NUM_LEVELS
      ensures l != level && l != level + 1 ==> w[l] == v[l]
    {
      CompactionEditAt(level, in0, in1, outs, l);
      if l != level && l != level + 1 {
        assert FileSet(w[l]) == FileSet(v[l]);
        OrderedUnique(w[l], v[l]);
      }
    }
    UpperAfter(v, next, level, in0, in1, outs, w);
    LowerAfter(v, next, level, in0, in1, outs, w);
  }

  lemma ByNumber(files: seq<FileMeta>, chosen: seq<FileMeta>, f: FileMeta)
    requires UniqueNumbers(FileSet(files)) && (forall g :: g in chosen ==> g in files) && f in files
    ensures f.number in Numbers(FileSet(chosen)) <==> f in chosen
  {
    assert f in chosen ==> f in FileSet(chosen);
    if f.number in Numbers(FileSet(chosen)) {
      var g :| g in FileSet(chosen) && g.number == f.number;
      assert g in FileSet(files) && f in FileSet(files);
    }
  }

  lemma UpperAfter(v: Levels, next: nat, level: nat, in0: seq<FileMeta>, in1: seq<FileMeta>, outs: seq<FileMeta>, w: Levels)
    requires |v| == NUM_LEVELS && level + 1 < |v| && Numbered(v, next)
    requires forall f :: f in in0 ==> f in v[level]
    requires Installs(v, CompactionEdit(level, in0, in1, outs), w)
    ensures forall f :: f in w[level] <==> f in v[level] && f !in in0
  {
    CompactionEditAt(level, in0, in1, outs, level);
    forall f ensures f in w[level] <==> f in v[level] && f !in in0 {
      assert f in w[level] <==> f in FileSet(w[level]);
      if f in v[level] { ByNumber(v[level], in0, f); }
    }
  }

  lemma LowerAfter(v: Levels, next: nat, level: nat, in0: seq<FileMeta>, in1: seq<FileMeta>, outs: seq<FileMeta>, w: Levels)
    requires |v| == NUM_LEVELS && level + 1 < |v| && Numbered(v, next) && FreshOutputs(v, level, outs)
    requires forall f :: f in in1 ==> f in v[level + 1]
    requires Installs(v, CompactionEdit(level, in0, in1, outs), w)
    ensures forall f :: f in w[level + 1] <==> (f in v[level + 1] && f !in in1) || f in outs
  {
    CompactionEditAt(level, in0, in1, outs, level + 1);
    var O := FileSet(outs);
    forall f ensures f in w[level + 1] <==> (f in v[level + 1] && f !in in1) || f in outs {
      assert f in w[level + 1] <==> f in FileSet(w[level + 1]);
      if f in v[level + 1] {
        ByNumber(v[level + 1], in1, f);
        assert f.number in Numbers(FileSet(v[level + 1]));
      }
      assert f in outs ==> f.number in Numbers(O);
    }
  }

  // ---------------------------------------------------------------------
  // A flushed memtable
  // ---------------------------------------------------------------------

  function FlushEdit(level: nat, f: FileMeta): Edit {
    Edit({}, [(level, f)])
  }

  ghost predicate Added(v: Levels, level: nat, f: FileMeta, w: Levels) {
    && |v| == |w| == NUM_LEVELS && level < NUM_LEVELS
    && (forall l :: 0 <= l < NUM_LEVELS && l != level ==> w[l] == v[l])
    && (forall g :: g in w[level] <==> g in v[level] || g == f)
    && Ordered(w[level])
  }

  lemma FlushEditAt(level: nat, f: FileMeta, l: nat)
    ensures DeletedAt(FlushEdit(level, f), l) == {}
    ensures AddedAt(FlushEdit(level, f), l) == if l == level then {f} else {}
  {
    assert (level, f) in FlushEdit(level, f).added;
  }

  lemma FlushAdds(v: Levels, next: nat, level: nat, f: FileMeta, w: Levels)
    requires |v| == NUM_LEVELS && level < |v| && Numbered(v, next) && Unused(v, f.number)
    ensures LegalEdit(v, FlushEdit(level, f))
    ensures Installs(v, FlushEdit(level, f), w) ==> Added(v, level, f, w)
  {
    forall l | 0 <= l < NUM_LEVELS
      ensures UniqueNumbers(AddedAt(FlushEdit(level, f), l)) && Numbers(FileSet(v[l])) !! Numbers(AddedAt(FlushEdit(level, f), l))
      ensures InstallAt(FileSet(v[l]), FlushEdit(level, f), l) == FileSet(v[l]) + if l == level then {f} else {}
    {
      FlushEditAt(level, f, l);
      assert f.number !in NumbersAt(v, l);
    }
    if Installs(v, FlushEdit(level, f), w) {
      forall l | 0 <= l < NUM_LEVELS && l != level ensures w[l] == v[l] {
        OrderedUnique(w[l], v[l]);
      }
      assert forall g :: g in w[level] <==> g in FileSet(w[level]);
    }
  }

  ghost predicate NoSharedKeys(f: FileMeta, files: seq<FileMeta>) {
    forall g :: g in files ==> g.largest.user < f.smallest.user || f.largest.user < g.smallest.user
  }

  /** Where `PickLevelForMemTableOutput` may put a table: level 0, or below levels it does not overlap. */
  ghost predicate GoodPlace(v: Levels, level: nat, f: FileMeta) {
    level < |v| && (level > 0 ==> forall l :: 0 <= l <= level ==> NoSharedKeys(f, v[l]))
  }

  /** A table may go where `PickLevelForMemTableOutput` says. */
  lemma PickedPlace(v: Levels, level: nat, f: FileMeta, targetFileSize: nat)
    requires ValidFile(f) && IsPick(v, f.smallest.user, f.largest.user, targetFileSize, level)
    ensures GoodPlace(v, level, f)
  {
    if level > 0 {
      PickIsFree(v, f.smallest.user, f.largest.user, targetFileSize, level);
      forall l | 0 <= l <= level ensures NoSharedKeys(f, v[l]) {
        assert !SomeOverlap(v[l], Some(f.smallest.user), Some(f.largest.user));
        forall g | g in v[l] ensures g.largest.user < f.smallest.user || f.largest.user < g.smallest.user {
          assert !Overlaps(g, Some(f.smallest.user), Some(f.largest.user));
        }
      }
    }
  }

  lemma NoSharedUsers(f: FileMeta, files: seq<FileMeta>, x: Entry, y: Entry)
    requires ValidFile(f) && ValidFiles(files) && NoSharedKeys(f, files)
    requires x in LevelEntries(files) && y in f.entries
    ensures x.key.user != y.key.user
  {
    var g :| g in files && x in g.entries;
    FileBounds(g, x);
    FileBounds(f, y);
  }

  lemma AddedOrdered(v: Levels, level: nat, f: FileMeta, w: Levels)
    requires ValidVersion(v) && Added(v, level, f, w) && ValidFile(f) && GoodPlace(v, level, f)
    requires Above(FileEntries(f), Entries(v))
    ensures LevelsOrdered(w)
  {
    hide ValidFile;
    forall l, m, x, y | 0 <= l < m < |w| && x in LevelEntries(w[l]) && y in LevelEntries(w[m]) && x.key.user == y.key.user
      ensures x.key.sequence > y.key.sequence
    {
      if x in LevelEntries(v[l]) && y in LevelEntries(v[m]) {
        assert Above(LevelEntries(v[l]), LevelEntries(v[m]));
      } else if x in LevelEntries(v[l]) {
        AddedEntry(v, level, f, w, m, y);
        NoSharedUsers(f, v[l], x, y);
      } else {
        AddedEntry(v, level, f, w, l, x);
        var h :| h in w[m] && y in h.entries;
        InVersion(v, m, h, y);
        assert x in FileEntries(f);
      }
    }
  }

  lemma AddedEntry(v: Levels, level: nat, f: FileMeta, w: Levels, l: nat, x: Entry)
    requires Added(v, level, f, w) && l < NUM_LEVELS && x in LevelEntries(w[l]) && x !in LevelEntries(v[l])
    ensures l == level && x in f.entries
  {
    var g :| g in w[l] && x in g.entries;
  }

  lemma AddedNewest(v: Levels, f: FileMeta, w: Levels)
    requires ValidVersion(v) && Added(v, 0, f, w) && Above(FileEntries(f), Entries(v))
    requires forall g :: g in v[0] ==> g.number < f.number
    ensures NewerByNumber(w[0])
  {
    forall g | g in v[0] ensures Above(FileEntries(f), FileEntries(g)) {
      forall y | y in FileEntries(g) ensures y in Entries(v) {
        InVersion(v, 0, g, y);
      }
    }
  }

  lemma AddedApart(v: Levels, level: nat, f: FileMeta, w: Levels)
    requires ValidVersion(v) && Added(v, level, f, w) && ValidFile(f) && 0 < level && NoSharedKeys(f, v[level])
    ensures SortedDisjoint(w[level])
  {
    forall g, h | g in w[level] && h in w[level] && g != h ensures Apart(g, h) {
      if g in v[level] && h in v[level] {
        ApartFromSorted(v[level], g, h);
      }
    }
    SortedFromApart(w[level]);
  }

  lemma AddedEntries(v: Levels, level: nat, f: FileMeta, w: Levels)
    requires Added(v, level, f, w)
    ensures Entries(w) == Entries(v) + FileEntries(f)
  {
    forall e ensures e in Entries(w) <==> e in Entries(v) + FileEntries(f) {
      if e in Entries(w) {
        var l, g := FindInVersion(w, e);
        if g in v[l] { InVersion(v, l, g, e); }
      } else if e in f.entries {
        InVersion(w, level, f, e);
      } else if e in Entries(v) {
        var l, g := FindInVersion(v, e);
        InVersion(w, l, g, e);
      }
    }
  }

  /** Installing a memtable newer than the whole version keeps every invariant. */
  lemma AddedValid(v: Levels, level: nat, f: FileMeta, w: Levels)
    requires ValidVersion(v) && Added(v, level, f, w) && ValidFile(f) && GoodPlace(v, level, f)
    requires Above(FileEntries(f), Entries(v)) && forall g :: g in v[0] ==> g.number < f.number
    ensures ValidVersion(w)
    ensures Entries(w) == Entries(v) + FileEntries(f)
  {
    hide ValidFile, Above, FileEntries, Entries;
    AddedOrdered(v, level, f, w);
    if level == 0 {
      AddedNewest(v, f, w);
    } else {
      AddedApart(v, level, f, w);
    }
    AddedEntries(v, level, f, w);
  }
}
