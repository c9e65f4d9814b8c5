/**
 Building blocks for particular runs of the store, all of whose files lie in
 levels 1 and 2.
 */
module Scenario {
  import opened Basics
  import opened DbFormat
  import opened Version
  import opened InputSelection
  import opened CompactionWork
  import opened VersionBuilder
  import opened Manifest
  import opened CompactionEffect
  import opened DbState
  import Db

  /** The default of `Options::max_file_size`. */
  const TARGET: nat := 2097152

  function Two(upper: seq<FileMeta>, lower: seq<FileMeta>): Levels {
    [[], upper, lower, [], [], [], []]
  }

  /** Nothing in memory. */
  function Rest(v: Levels, n: nat, q: nat, snapshots: seq<nat>, h: seq<Entry>): State {
    State([], None, v, n, q, snapshots, h)
  }

  /** The same store with one more batch, in the memtable. */
  function Written(s: State, es: seq<Entry>): State {
    s.(mem := es, lastSequence := s.lastSequence + |es|, history := s.history + es)
  }

  /** The memtable has been switched. */
  function Frozen(s: State, es: seq<Entry>): State {
    s.(imm := Some(es), nextFile := s.nextFile + 1, lastSequence := s.lastSequence + |es|, history := s.history + es)
  }

  /** And it has become a table. */
  function Flushed(s: State, es: seq<Entry>, w: Levels): State {
    s.(version := w, nextFile := s.nextFile + 2, lastSequence := s.lastSequence + |es|, history := s.history + es)
  }

  /** A batch whose keys ascend, with the next sequence numbers. */
  ghost predicate NextBatch(s: State, es: seq<Entry>) {
    && Sorted(es) && s.lastSequence + |es| < MAX_SEQUENCE
    && forall i :: 0 <= i < |es| ==> es[i].key.sequence == s.lastSequence + 1 + i
  }

  /** A write, a switch and a flush to the picked level. */
  lemma Cycle(s: State, es: seq<Entry>, size: nat, level: nat, w: Levels)
    requires Inv(s) && s.mem == [] && s.imm.None? && es != [] && NextBatch(s, es)
    requires PickedFor(s.version, es, TARGET, level) && Added(s.version, level, MakeFile(s.nextFile + 1, size, es), w)
    ensures Step(s, Write(es), Written(s, es)) && Scheduled(s, Write(es), TARGET)
    ensures Step(Written(s, es), Switch, Frozen(s, es)) && Scheduled(Written(s, es), Switch, TARGET)
    ensures var a := Flush(s.nextFile + 1, level, size);
            Step(Frozen(s, es), a, Flushed(s, es, w)) && Scheduled(Frozen(s, es), a, TARGET)
    ensures Inv(Flushed(s, es, w))
  {
    hide Inv, WriteStep, SwitchStep, FlushStep, Added, NextBatch, IsPick;
    var f := MakeFile(s.nextFile + 1, size, es);
    Begins(s, es);
    Db.WriteKeeps(s, Written(s, es), es);
    Db.SwitchKeeps(Written(s, es), Frozen(s, es));
    Db.MemtableFile(Frozen(s, es), f);
    PickedPlace(s.version, level, f, TARGET);
    Flushes(s, es, size, level, w);
    Db.FlushKeeps(Frozen(s, es), Flushed(s, es, w), s.nextFile + 1, level, size);
  }

  lemma Begins(s: State, es: seq<Entry>)
    requires s.mem == [] && s.imm.None? && NextBatch(s, es)
    ensures WriteStep(s, Written(s, es), es) && SwitchStep(Written(s, es), Frozen(s, es))
  {
    assert ToSet([]) == {};
  }

  lemma IsNumbered(s: State)
    requires Inv(s)
    ensures |s.version| == NUM_LEVELS && Numbered(s.version, s.nextFile) && WellNumbered(s.version)
  {
  }

  lemma Flushes(s: State, es: seq<Entry>, size: nat, level: nat, w: Levels)
    requires Inv(Frozen(s, es)) && es != [] && s.mem == [] && s.imm.None?
    requires GoodPlace(s.version, level, MakeFile(s.nextFile + 1, size, es))
    requires Added(s.version, level, MakeFile(s.nextFile + 1, size, es), w)
    ensures FlushStep(Frozen(s, es), Flushed(s, es, w), s.nextFile + 1, level, size)
  {
    hide Inv, GoodPlace, BySmallest, Numbered, UniqueNumbers;
    var v, n := s.version, s.nextFile + 1;
    var f := MakeFile(n, size, es);
    var edit := FlushEdit(level, f);
    IsNumbered(Frozen(s, es));
    BeyondIsUnused(v, n, n);
    Db.NextIsFlushNumber(v, n);
    forall l | 0 <= l < NUM_LEVELS ensures Ordered(w[l]) && FileSet(w[l]) == InstallAt(FileSet(v[l]), edit, l) {
      FlushEditAt(level, f, l);
      if l == level { assert FileSet(w[l]) == FileSet(v[l]) + {f}; }
    }
  }

  // ---------------------------------------------------------------------
  // Which level is picked
  // ---------------------------------------------------------------------

  lemma NoFilesNoOverlap(lo: UserKey, hi: UserKey)
    ensures !SomeOverlap([], Some(lo), Some(hi))
    ensures OverlappingFiles([], Some(lo), Some(hi)) == [] && TotalFileSize([]) == 0
  {
  }

  /** Level 2 takes a range that meets no file. */
  lemma GoesToSecond(upper: seq<FileMeta>, lower: seq<FileMeta>, lo: UserKey, hi: UserKey)
    requires !SomeOverlap(upper, Some(lo), Some(hi)) && !SomeOverlap(lower, Some(lo), Some(hi))
    ensures IsPick(Two(upper, lower), lo, hi, TARGET, 2)
  {
    NoFilesNoOverlap(lo, hi);
    NothingOverlaps(lower, |lower|, lo, hi);
  }

  /** Level 1 takes a range that meets files of level 2 only, if they are not too large. */
  lemma GoesToFirst(upper: seq<FileMeta>, lower: seq<FileMeta>, lo: UserKey, hi: UserKey)
    requires !SomeOverlap(upper, Some(lo), Some(hi)) && SomeOverlap(lower, Some(lo), Some(hi))
    requires TotalFileSize(OverlappingFiles(lower, Some(lo), Some(hi))) <= 10 * TARGET
    ensures IsPick(Two(upper, lower), lo, hi, TARGET, 1)
  {
    NoFilesNoOverlap(lo, hi);
  }

  lemma NothingOverlaps(files: seq<FileMeta>, n: nat, lo: UserKey, hi: UserKey)
    requires n <= |files| && !SomeOverlap(files, Some(lo), Some(hi))
    ensures OverlappingTo(files, n, Some(lo), Some(hi)) == []
  {
    if n > 0 {
      NothingOverlaps(files, n - 1, lo, hi);
      assert files[n - 1] in files;
    }
  }
}
