/**
 A compaction works for a while without the lock.  Memtables that are flushed
 meanwhile add files to the version; here is what that does to the compaction
 when it is installed, and when it does harm.
 */
module Meanwhile {
  import opened Basics
  import opened DbFormat
  import opened Version
  import opened InputSelection
  import opened DropRules
  import opened CompactionWork
  import opened VersionBuilder
  import opened Manifest
  import opened CompactionEffect
  import opened EdgeClosure

  /** A file flushed into `level` after the version was `base`. */
  ghost predicate Arrived(base: Levels, level: nat, f: FileMeta) {
    && ValidFile(f) && Above(FileEntries(f), Entries(base))
    && (level > 0 ==> forall l :: 0 <= l <= level && l < |base| ==> NoSharedKeys(f, base[l]))
  }

  ghost predicate Newcomer(base: Levels, v: Levels, l: nat, f: FileMeta)
    requires l < |base| && l < |v|
  {
    f in v[l] && f !in base[l]
  }

  /** `v` is `base` with files that have arrived since. */
  ghost predicate Grown(base: Levels, v: Levels) {
    && |base| == |v| == NUM_LEVELS
    && (forall l :: 0 <= l < NUM_LEVELS ==> Ordered(base[l]))
    && (forall l, f :: 0 <= l < NUM_LEVELS && f in base[l] ==> f in v[l])
    && (forall l, f :: 0 <= l < NUM_LEVELS && Newcomer(base, v, l, f) ==> Arrived(base, l, f))
  }

  lemma GrownEntries(base: Levels, v: Levels)
    requires Grown(base, v)
    ensures Entries(base) <= Entries(v)
  {
    forall e | e in Entries(base) ensures e in Entries(v) {
      var l, f := FindInVersion(base, e);
      InVersion(v, l, f, e);
    }
  }

  /** One more flush. */
  lemma FlushGrows(base: Levels, v: Levels, level: nat, f: FileMeta, w: Levels)
    requires Grown(base, v) && Added(v, level, f, w) && GoodPlace(v, level, f) && ValidFile(f)
    requires Above(FileEntries(f), Entries(v))
    ensures Grown(base, w)
  {
    GrownEntries(base, v);
    AboveSubset(FileEntries(f), Entries(v), FileEntries(f), Entries(base));
    forall l, g | 0 <= l < NUM_LEVELS && Newcomer(base, w, l, g) ensures Arrived(base, l, g) {
      if g in v[l] {
        assert Newcomer(base, v, l, g);
      } else {
        assert l == level && g == f;
        forall k | level > 0 && 0 <= k <= level ensures NoSharedKeys(f, base[k]) {
          assert NoSharedKeys(f, v[k]);
        }
      }
    }
  }

  // ---------------------------------------------------------------------
  // The inputs are still good
  // ---------------------------------------------------------------------

  /** A newcomer to `level + 1` meets none of the inputs. */
  lemma NewcomerApart(base: Levels, v: Levels, level: nat, in0: seq<FileMeta>, in1: seq<FileMeta>, f: FileMeta, u: UserKey)
    requires Grown(base, v) && level + 1 < |v| && Newcomer(base, v, level + 1, f)
    requires (forall g :: g in in0 ==> g in base[level]) && (forall g :: g in in1 ==> g in base[level + 1])
    requires f.smallest.user <= u <= f.largest.user
    ensures !Touched(in0 + in1, u)
  {
    assert Arrived(base, level + 1, f);
    forall g | g in in0 + in1 ensures !(g.smallest.user <= u <= g.largest.user) {
      assert NoSharedKeys(f, base[level]) && NoSharedKeys(f, base[level + 1]);
    }
  }

  lemma OverlappingOrdered(files: seq<FileMeta>, n: nat, lo: Option<UserKey>, hi: Option<UserKey>)
    requires Ordered(files) && n <= |files|
    ensures Ordered(OverlappingTo(files, n, lo, hi))
  {
    if n > 0 {
      OverlappingOrdered(files, n - 1, lo, hi);
      OverlappingToMembers(files, n - 1, lo, hi);
      var r := OverlappingTo(files, n - 1, lo, hi);
      forall k | 0 <= k < |r| ensures BySmallest(r[k], files[n - 1]) {
        assert r[k] in r;
        var i :| 0 <= i < n - 1 && files[i] == r[k];
      }
    }
  }

  /** Without a gap between the inputs no newcomer comes between them. */
  lemma NoneBetween(base: Levels, v: Levels, level: nat, in0: seq<FileMeta>, in1: seq<FileMeta>, lo: UserKey, hi: UserKey, f: FileMeta)
    requires Grown(base, v) && level + 1 < |v| && Newcomer(base, v, level + 1, f)
    requires (forall g :: g in in0 ==> g in base[level]) && (forall g :: g in in1 ==> g in base[level + 1])
    requires Covered(in0 + in1, lo, hi) && lo <= hi
    ensures !Overlaps(f, Some(lo), Some(hi))
  {
    if Overlaps(f, Some(lo), Some(hi)) {
      var u := if f.smallest.user < lo then lo else f.smallest.user;
      assert Arrived(base, level + 1, f);
      FileBounds(f, f.entries[0]);
      assert Touched(in0 + in1, u);
      NewcomerApart(base, v, level, in0, in1, f, u);
    }
  }

  lemma SameOverlap(files: seq<FileMeta>, more: seq<FileMeta>, lo: Option<UserKey>, hi: Option<UserKey>)
    requires Ordered(files) && Ordered(more) && forall f :: f in files ==> f in more
    requires forall f :: f in more && f !in files ==> !Overlaps(f, lo, hi)
    ensures OverlappingFiles(more, lo, hi) == OverlappingFiles(files, lo, hi)
  {
    OverlappingOrdered(files, |files|, lo, hi);
    OverlappingOrdered(more, |more|, lo, hi);
    assert FileSet(OverlappingFiles(more, lo, hi)) == FileSet(OverlappingFiles(files, lo, hi));
    OrderedUnique(OverlappingFiles(more, lo, hi), OverlappingFiles(files, lo, hi));
  }

  lemma RangeStillMet(base: Levels, v: Levels, level: nat, in0: seq<FileMeta>, in1: seq<FileMeta>)
    requires Grown(base, v) && level + 1 < |v| && Ordered(v[level + 1])
    requires in0 != [] && ValidFiles(in0) && (forall f :: f in in0 ==> f in base[level]) && GapFree(base[level + 1], in0, in1)
    ensures MeetsRange(v[level + 1], in0, in1)
  {
    Upright(in0);
    hide Ordered, Arrived, Covered, Overlaps;
    var lo, hi :| Spans(in0, lo, hi) && in1 == OverlappingFiles(base[level + 1], Some(lo), Some(hi)) && Covered(in0 + in1, lo, hi);
    assert in0[0] in in0;
    forall f | f in v[level + 1] && f !in base[level + 1] ensures !Overlaps(f, Some(lo), Some(hi)) {
      NoneBetween(base, v, level, in0, in1, lo, hi, f);
    }
    SameOverlap(base[level + 1], v[level + 1], Some(lo), Some(hi));
  }

  lemma StillAbove(base: Levels, v: Levels, level: nat, in0: seq<FileMeta>)
    requires Grown(base, v) && level < |v| && (forall f :: f in in0 ==> f in base[level]) && KeptAbove(base[level], in0)
    ensures KeptAbove(v[level], in0)
  {
    forall f, g | f in v[level] && f !in in0 && g in in0 ensures Above(FileEntries(f), FileEntries(g)) {
      if Newcomer(base, v, level, f) {
        assert Arrived(base, level, f);
        forall e | e in FileEntries(g) ensures e in Entries(base) {
          InVersion(base, level, g, e);
        }
      }
    }
  }

  lemma StillGood(base: Levels, v: Levels, level: nat, in0: seq<FileMeta>, in1: seq<FileMeta>)
    requires Grown(base, v) && level + 1 < |v| && Ordered(v[level + 1]) && ValidFiles(in0)
    requires GoodInputs(base[level], base[level + 1], in0, in1) && GapFree(base[level + 1], in0, in1)
    ensures GoodInputs(v[level], v[level + 1], in0, in1)
  {
    RangeStillMet(base, v, level, in0, in1);
    StillAbove(base, v, level, in0);
  }

  // ---------------------------------------------------------------------
  // The drop decisions are still right
  // ---------------------------------------------------------------------

  ghost function Arrivals(base: Levels, v: Levels): set<Entry>
    requires |base| == |v|
  {
    set l, f, e | 0 <= l < |v| && f in v[l] && f !in base[l] && e in f.entries :: e
  }

  lemma RestGrown(base: Levels, v: Levels, level: nat, in0: seq<FileMeta>, in1: seq<FileMeta>)
    requires Grown(base, v) && level + 1 < |v|
    requires (forall f :: f in in0 ==> f in base[level]) && (forall f :: f in in1 ==> f in base[level + 1])
    ensures RestEntries(v, level, in0, in1) == Arrivals(base, v) + RestEntries(base, level, in0, in1)
  {
    var R, S := RestEntries(v, level, in0, in1), RestEntries(base, level, in0, in1);
    forall e | e in R ensures e in Arrivals(base, v) + S {
      var l, f :| 0 <= l < |v| && f in v[l] && !IsInput(level, in0, in1, l, f) && e in f.entries;
      assert f in base[l] || e in Arrivals(base, v);
    }
    forall e | e in Arrivals(base, v) ensures e in R {
      var l, f :| 0 <= l < |v| && f in v[l] && f !in base[l] && e in f.entries;
      assert !IsInput(level, in0, in1, l, f);
    }
    forall e | e in S ensures e in R {
      var l, f :| 0 <= l < |base| && f in base[l] && !IsInput(level, in0, in1, l, f) && e in f.entries;
      assert f in v[l];
    }
  }

  lemma ArrivalsAbove(base: Levels, v: Levels)
    requires Grown(base, v)
    ensures Above(Arrivals(base, v), Entries(base))
  {
    forall a, b | a in Arrivals(base, v) && b in Entries(base) && a.key.user == b.key.user
      ensures a.key.sequence > b.key.sequence
    {
      var l, f :| 0 <= l < |v| && f in v[l] && f !in base[l] && a in f.entries;
      assert Newcomer(base, v, l, f);
      assert Arrived(base, l, f) && a in FileEntries(f);
    }
  }

  /**
   Drop decisions taken on the version a compaction started from expose nothing
   in the version it is installed into, if its upper edge was closed.
   */
  lemma DecidedSafely(base: Levels, v: Levels, level: nat, in0: seq<FileMeta>, in1: seq<FileMeta>,
                      memory: set<Entry>, input: seq<Entry>, snapshot: nat, u: UserKey)
    requires ValidVersion(base) && Grown(base, v) && level + 1 < |v| && GoodInputs(base[level], base[level + 1], in0, in1)
    requires UpperEdgeClosed(base[level + 1], in1)
    requires ToSet(input) == LevelEntries(in0) + LevelEntries(in1)
    requires Above(memory, ToSet(input))
    ensures !Exposed(base, level, memory + RestEntries(v, level, in0, in1), input, snapshot, u)
  {
    hide ValidVersion, UpperEdgeClosed, Exposed, Arrivals, OverlappingFiles;
    var lo, hi :| Spans(in0, lo, hi) && in1 == OverlappingFiles(base[level + 1], Some(lo), Some(hi));
    RestGrown(base, v, level, in0, in1);
    EntriesBefore(base, level, in0, in1);
    ArrivalsAbove(base, v);
    var newer := memory + Arrivals(base, v);
    AboveSubset(Arrivals(base, v), Entries(base), Arrivals(base, v), ToSet(input));
    assert Above(newer, ToSet(input));
    EdgeClosedIsSafe(base, level, in0, in1, newer, input, snapshot, u);
    assert newer + RestEntries(base, level, in0, in1) == memory + RestEntries(v, level, in0, in1);
  }

  // ---------------------------------------------------------------------
  // The exact condition
  // ---------------------------------------------------------------------

  /** No newcomer to `level + 1` lies among the outputs. */
  ghost predicate OutputsClear(base: Levels, v: Levels, level: nat, outs: seq<FileMeta>)
    requires level + 1 < |base| && level + 1 < |v|
  {
    forall f, o :: Newcomer(base, v, level + 1, f) && o in outs ==> Apart(f, o)
  }

  lemma NotAnOutput(base: Levels, v: Levels, level: nat, in0: seq<FileMeta>, in1: seq<FileMeta>, outs: seq<FileMeta>, f: FileMeta)
    requires Grown(base, v) && level + 1 < |v| && Taken(base[level], base[level + 1], in0, in1) && OutputsFrom(in0, in1, outs)
    requires Newcomer(base, v, level + 1, f)
    ensures f !in outs
  {
    assert Arrived(base, level + 1, f);
    var e := f.entries[0];
    assert e in FileEntries(f);
    EntriesBefore(base, level, in0, in1);
    if f in outs {
      InLevel(outs, f, e);
    }
  }

  lemma StillTaken(base: Levels, v: Levels, level: nat, in0: seq<FileMeta>, in1: seq<FileMeta>)
    requires Grown(base, v) && level + 1 < |v| && Taken(base[level], base[level + 1], in0, in1)
    ensures Taken(v[level], v[level + 1], in0, in1)
  {
    StillAbove(base, v, level, in0);
  }

  lemma ClearOf(base: Levels, v: Levels, level: nat, in0: seq<FileMeta>, in1: seq<FileMeta>, outs: seq<FileMeta>, f: FileMeta, o: FileMeta)
    requires ValidVersion(base) && |v| == |base| && level + 1 < |v|
    requires ValidFiles(in0) && MeetsRange(base[level + 1], in0, in1) && OutputsFrom(in0, in1, outs)
    requires OutputsClear(base, v, level, outs) && f in v[level + 1] && f !in in1 && o in outs
    ensures Apart(f, o)
  {
    if f in base[level + 1] {
      OutputApart(base[level + 1], in0, in1, outs, f, o);
    } else {
      assert Newcomer(base, v, level + 1, f);
    }
  }

  lemma ClearSorted(base: Levels, v: Levels, level: nat, in0: seq<FileMeta>, in1: seq<FileMeta>, outs: seq<FileMeta>, w: Levels)
    requires ValidVersion(base) && ValidVersion(v) && Grown(base, v) && Replaced(v, level, in0, in1, outs, w)
    requires ValidFiles(in0) && MeetsRange(base[level + 1], in0, in1) && OutputsFrom(in0, in1, outs)
    requires OutputsClear(base, v, level, outs)
    ensures ValidFiles(w[level + 1]) && SortedDisjoint(w[level + 1])
  {
    hide Grown, OutputsClear, MeetsRange, LevelsOrdered, NewerByNumber;
    var files := w[level + 1];
    forall f, g | f in files && g in files && f != g ensures Apart(f, g) {
      if f in outs && g in outs {
        ApartFromSorted(outs, f, g);
      } else if f in outs {
        ClearOf(base, v, level, in0, in1, outs, g, f);
      } else if g in outs {
        ClearOf(base, v, level, in0, in1, outs, f, g);
      } else {
        ApartFromSorted(v[level + 1], f, g);
      }
    }
    SortedFromApart(files);
  }

  /**
   A compaction of well-chosen inputs leaves a valid version behind if and only
   if none of its outputs spreads over a file that was flushed meanwhile.
   */
  lemma ValidIffClear(base: Levels, v: Levels, level: nat, in0: seq<FileMeta>, in1: seq<FileMeta>, outs: seq<FileMeta>, w: Levels)
    requires ValidVersion(base) && ValidVersion(v) && Grown(base, v) && Replaced(v, level, in0, in1, outs, w)
    requires GoodInputs(base[level], base[level + 1], in0, in1) && OutputsFrom(in0, in1, outs)
    ensures ValidVersion(w) <==> OutputsClear(base, v, level, outs)
  {
    hide Grown, OutputsClear, KeptAbove, OutputsFrom, SortedDisjoint, NewerByNumber, LevelsOrdered;
    assert Taken(base[level], base[level + 1], in0, in1);
    assert ValidFiles(in0);
    if OutputsClear(base, v, level, outs) {
      ClearValid(base, v, level, in0, in1, outs, w);
    }
    if ValidVersion(w) {
      ValidClear(base, v, level, in0, in1, outs, w);
    }
  }

  lemma ClearValid(base: Levels, v: Levels, level: nat, in0: seq<FileMeta>, in1: seq<FileMeta>, outs: seq<FileMeta>, w: Levels)
    requires ValidVersion(base) && ValidVersion(v) && Grown(base, v) && Replaced(v, level, in0, in1, outs, w)
    requires ValidFiles(in0) && Taken(base[level], base[level + 1], in0, in1) && MeetsRange(base[level + 1], in0, in1)
    requires OutputsFrom(in0, in1, outs) && OutputsClear(base, v, level, outs)
    ensures ValidVersion(w)
  {
    hide Grown, OutputsClear, MeetsRange, KeptAbove, OutputsFrom, Taken, Ordered;
    ClearSorted(base, v, level, in0, in1, outs, w);
    StillTaken(base, v, level, in0, in1);
    ReplacedOrdered(v, level, in0, in1, outs, w);
    if level > 0 {
      LeftSorted(v[level], w[level]);
    }
  }

  lemma LeftSorted(files: seq<FileMeta>, part: seq<FileMeta>)
    requires ValidFiles(files) && SortedDisjoint(files) && Ordered(part) && forall f :: f in part ==> f in files
    ensures ValidFiles(part) && SortedDisjoint(part)
  {
    SubsetSorted(files, part);
  }

  lemma ValidClear(base: Levels, v: Levels, level: nat, in0: seq<FileMeta>, in1: seq<FileMeta>, outs: seq<FileMeta>, w: Levels)
    requires Grown(base, v) && Replaced(v, level, in0, in1, outs, w) && SortedDisjoint(w[level + 1])
    requires Taken(base[level], base[level + 1], in0, in1) && OutputsFrom(in0, in1, outs)
    ensures OutputsClear(base, v, level, outs)
  {
    forall f, o | Newcomer(base, v, level + 1, f) && o in outs ensures Apart(f, o) {
      NotAnOutput(base, v, level, in0, in1, outs, f);
      ApartFromSorted(w[level + 1], f, o);
    }
  }

  /** Inputs without a gap between them are always clear of what arrives. */
  lemma GapFreeIsClear(base: Levels, v: Levels, level: nat, in0: seq<FileMeta>, in1: seq<FileMeta>, outs: seq<FileMeta>)
    requires ValidVersion(base) && ValidVersion(v) && Grown(base, v) && level + 1 < |v| && Ordered(v[level + 1])
    requires GoodInputs(base[level], base[level + 1], in0, in1) && GapFree(base[level + 1], in0, in1) && OutputsFrom(in0, in1, outs)
    ensures OutputsClear(base, v, level, outs)
  {
    StillGood(base, v, level, in0, in1);
    forall f, o | Newcomer(base, v, level + 1, f) && o in outs ensures Apart(f, o) {
      OutputApart(v[level + 1], in0, in1, outs, f, o);
    }
  }

  /** A new key at the end of an input would have met that input. */
  lemma EdgeStillClosed(base: Levels, v: Levels, level: nat, in0: seq<FileMeta>, in1: seq<FileMeta>)
    requires Grown(base, v) && level + 1 < |v| && ValidFiles(in1)
    requires (forall f :: f in in1 ==> f in base[level + 1]) && UpperEdgeClosed(base[level + 1], in1)
    ensures UpperEdgeClosed(v[level + 1], in1)
  {
    forall f, g | f in v[level + 1] && f !in in1 && g in in1 ensures !IsBoundary(f, g.largest) {
      if Newcomer(base, v, level + 1, f) {
        assert Arrived(base, level + 1, f);
        assert NoSharedKeys(f, base[level + 1]);
        FileBounds(f, f.entries[0]);
        FileBounds(g, g.entries[0]);
      }
    }
  }
}
