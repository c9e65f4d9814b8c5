/**
 A run of the store in which a write disappears from sight.  A manual compaction
 takes two files with a gap between them; while it works, a memtable is flushed
 whose key lies in the gap, into the level the compaction writes to.  Its one
 output then spreads over the new file, and a lookup ends up in the wrong one.
 */
module GapKey {
  import opened Basics
  import opened DbFormat
  import opened Version
  import opened InputSelection
  import opened DropRules
  import opened CompactionWork
  import opened VersionBuilder
  import opened Manifest
  import opened CompactionEffect
  import opened EdgeClosure
  import opened DbState
  import opened Scenario
  import Db

  const A1 := Entry(InternalKey(1.0, 1, Value), [])
  const A2 := Entry(InternalKey(1.0, 2, Value), [])
  const Z1 := Entry(InternalKey(3.0, 3, Value), [])
  const Z2 := Entry(InternalKey(3.0, 4, Value), [])
  const M := Entry(InternalKey(2.0, 5, Value), [7])

  const FA1 := MakeFile(3, 1, [A1])
  const FA2 := MakeFile(5, 1, [A2])
  const FZ1 := MakeFile(7, 1, [Z1])
  const FZ2 := MakeFile(9, 1, [Z2])
  const FM := MakeFile(11, 1, [M])
  const OUT := MakeFile(12, 1, [A2, Z2])

  const V1 := Two([], [FA1])
  const V2 := Two([FA2], [FA1])
  const V3 := Two([FA2], [FA1, FZ1])
  const V4 := Two([FA2, FZ2], [FA1, FZ1])
  const V5 := Two([FA2, FZ2], [FA1, FM, FZ1])
  const LOST := Two([], [OUT, FM])

  const S1 := Rest(V1, 4, 1, [], [A1])
  const S2 := Rest(V2, 6, 2, [], [A1, A2])
  const S3 := Rest(V3, 8, 3, [], [A1, A2, Z1])
  const BEGUN := Rest(V4, 10, 4, [], [A1, A2, Z1, Z2])
  const MEANWHILE := Rest(V5, 12, 5, [], [A1, A2, Z1, Z2, M])

  const STATES := [Initial(), Written(Initial(), [A1]), Frozen(Initial(), [A1]),
                   S1, Written(S1, [A2]), Frozen(S1, [A2]),
                   S2, Written(S2, [Z1]), Frozen(S2, [Z1]),
                   S3, Written(S3, [Z2]), Frozen(S3, [Z2]),
                   BEGUN, Written(BEGUN, [M]), Frozen(BEGUN, [M]), MEANWHILE]

  const ACTIONS := [Write([A1]), Switch, Flush(3, 2, 1), Write([A2]), Switch, Flush(5, 1, 1),
                    Write([Z1]), Switch, Flush(7, 2, 1), Write([Z2]), Switch, Flush(9, 1, 1),
                    Write([M]), Switch, Flush(11, 2, 1)]

  // ---------------------------------------------------------------------
  // The run
  // ---------------------------------------------------------------------

  lemma FileLists()
    ensures FileSet([]) == {} && FileSet([FA1]) == {FA1} && FileSet([FA2]) == {FA2}
    ensures FileSet([FA1, FZ1]) == {FA1, FZ1} && FileSet([FA2, FZ2]) == {FA2, FZ2} && FileSet([FA1, FM, FZ1]) == {FA1, FM, FZ1}
    ensures FileSet([OUT]) == {OUT} && FileSet([OUT, FM]) == {OUT, FM}
  {
  }

  lemma ListsOrdered()
    ensures Ordered([FA1]) && Ordered([FA2]) && Ordered([FA1, FZ1]) && Ordered([FA2, FZ2]) && Ordered([FA1, FM, FZ1]) && Ordered([OUT, FM])
  {
  }

  lemma Grows()
    ensures Added(EMPTY, 2, FA1, V1) && Added(V1, 1, FA2, V2) && Added(V2, 2, FZ1, V3) && Added(V3, 1, FZ2, V4) && Added(V4, 2, FM, V5)
  {
    hide Ordered;
    ListsOrdered();
  }

  /** A file goes to level 1 if level 2 already has its key, and else to level 2. */
  lemma Picks()
    ensures PickedFor(EMPTY, [A1], TARGET, 2) && PickedFor(V1, [A2], TARGET, 1)
    ensures PickedFor(V2, [Z1], TARGET, 2) && PickedFor(V3, [Z2], TARGET, 1) && PickedFor(V4, [M], TARGET, 2)
  {
    hide IsPick;
    GoesToSecond([], [], 1.0, 1.0);
    assert FA1 in [FA1] && OverlappingTo([FA1], 0, Some(1.0), Some(1.0)) == [] && OverlappingFiles([FA1], Some(1.0), Some(1.0)) == [FA1];
    GoesToFirst([], [FA1], 1.0, 1.0);
    GoesToSecond([FA2], [FA1], 3.0, 3.0);
    OnlyLast();
    GoesToFirst([FA2], [FA1, FZ1], 3.0, 3.0);
    GoesToSecond([FA2, FZ2], [FA1, FZ1], 2.0, 2.0);
  }

  lemma OnlyLast()
    ensures OverlappingFiles([FA1, FZ1], Some(3.0), Some(3.0)) == [FZ1] && SomeOverlap([FA1, FZ1], Some(3.0), Some(3.0))
  {
    assert OverlappingTo([FA1, FZ1], 0, Some(3.0), Some(3.0)) == [];
    assert OverlappingTo([FA1, FZ1], 1, Some(3.0), Some(3.0)) == [];
    assert FZ1 in [FA1, FZ1];
  }

  ghost predicate Leg(i: nat)
    requires i + 3 <= |ACTIONS|
  {
    forall k :: i <= k < i + 3 ==> Step(STATES[k], ACTIONS[k], STATES[k + 1]) && Scheduled(STATES[k], ACTIONS[k], TARGET)
  }

  lemma OneLeg(i: nat, s: State, e: Entry, level: nat, w: Levels)
    requires i + 3 <= |ACTIONS| && Inv(s) && s.mem == [] && s.imm.None? && NextBatch(s, [e])
    requires PickedFor(s.version, [e], TARGET, level) && Added(s.version, level, MakeFile(s.nextFile + 1, 1, [e]), w)
    requires STATES[i] == s && STATES[i + 1] == Written(s, [e]) && STATES[i + 2] == Frozen(s, [e]) && STATES[i + 3] == Flushed(s, [e], w)
    requires ACTIONS[i] == Write([e]) && ACTIONS[i + 1] == Switch && ACTIONS[i + 2] == Flush(s.nextFile + 1, level, 1)
    ensures Leg(i) && Inv(STATES[i + 3])
  {
    hide Inv, Step, Scheduled, Added, IsPick, NextBatch;
    Cycle(s, [e], 1, level, w);
    forall k | i <= k < i + 3 ensures Step(STATES[k], ACTIONS[k], STATES[k + 1]) && Scheduled(STATES[k], ACTIONS[k], TARGET) {
      assert k == i || k == i + 1 || k == i + 2;
    }
  }

  lemma FirstLeg()
    ensures Leg(0) && Inv(S1)
  {
    hide Inv, Leg, Added, IsPick;
    Db.InitialInv();
    Grows();
    Picks();
    assert Flushed(Initial(), [A1], V1) == S1;
    OneLeg(0, Initial(), A1, 2, V1);
  }

  lemma SecondLeg()
    requires Inv(S1)
    ensures Leg(3) && Inv(S2)
  {
    hide Inv, Leg, Added, IsPick;
    Grows();
    Picks();
    assert Flushed(S1, [A2], V2) == S2;
    OneLeg(3, S1, A2, 1, V2);
  }

  lemma NextLegs()
    requires Inv(S2)
    ensures Leg(6) && Leg(9) && Inv(BEGUN)
  {
    hide Inv, Leg, Added, IsPick;
    Grows();
    Picks();
    assert Flushed(S2, [Z1], V3) == S3 && Flushed(S3, [Z2], V4) == BEGUN;
    OneLeg(6, S2, Z1, 2, V3);
    OneLeg(9, S3, Z2, 1, V4);
  }

  lemma LastLeg()
    requires Inv(BEGUN)
    ensures Leg(12)
  {
    hide Inv, Leg, Added, IsPick;
    Grows();
    Picks();
    assert Flushed(BEGUN, [M], V5) == MEANWHILE;
    OneLeg(12, BEGUN, M, 2, V5);
  }

  lemma TheRun()
    ensures IsScheduledRun(STATES, ACTIONS, TARGET)
  {
    hide Inv, Step, Scheduled;
    FirstLeg();
    SecondLeg();
    NextLegs();
    LastLeg();
    forall i | 0 <= i < |ACTIONS| ensures Step(STATES[i], ACTIONS[i], STATES[i + 1]) && Scheduled(STATES[i], ACTIONS[i], TARGET) {
      assert i < 3 || 3 <= i < 6 || 6 <= i < 9 || 9 <= i < 12 || 12 <= i;
    }
  }

  // ---------------------------------------------------------------------
  // The compaction
  // ---------------------------------------------------------------------

  const IN0 := [FA2, FZ2]
  const IN1 := [FA1, FZ1]
  const INPUT := [A2, A1, Z2, Z1]

  lemma Selected()
    ensures GoodInputs(V4[1], V4[2], IN0, IN1) && UpperEdgeClosed(V4[2], IN1)
    ensures IN0 == OverlappingFiles(V4[1], None, None)
  {
    assert OverlappingTo(IN0, 0, None, None) == [];
    assert OverlappingTo(IN0, 1, None, None) == [FA2];
    assert OverlappingTo(IN1, 0, Some(1.0), Some(3.0)) == [];
    assert OverlappingTo(IN1, 1, Some(1.0), Some(3.0)) == [FA1];
    assert OverlappingTo(IN1, 2, Some(1.0), Some(3.0)) == [FA1, FZ1];
    assert Spans(IN0, 1.0, 3.0) && IN1 == OverlappingFiles(V4[2], Some(1.0), Some(3.0));
  }

  lemma InputEntries()
    ensures Sorted(INPUT) && ToSet(INPUT) == LevelEntries(IN0) + LevelEntries(IN1)
  {
    assert LevelEntries(IN0) == {A2, Z2} by {
      assert FA2 in IN0 && FZ2 in IN0 && A2 in FA2.entries && Z2 in FZ2.entries;
    }
    assert LevelEntries(IN1) == {A1, Z1} by {
      assert FA1 in IN1 && FZ1 in IN1 && A1 in FA1.entries && Z1 in FZ1.entries;
    }
  }

  lemma OldOnesDropped()
    ensures Kept(V4, 1, INPUT, 4, 4) == [A2, Z2]
  {
    assert Kept(V4, 1, INPUT, 0, 4) == [];
    assert Kept(V4, 1, INPUT, 1, 4) == [A2];
    assert Kept(V4, 1, INPUT, 2, 4) == [A2];
    assert Kept(V4, 1, INPUT, 3, 4) == [A2, Z2];
  }

  lemma Works()
    ensures Worked(Now(BEGUN), 1, IN0, IN1, INPUT, [OUT])
  {
    hide GoodInputs, UpperEdgeClosed, Sorted, Kept;
    Selected();
    InputEntries();
    OldOnesDropped();
    assert [OUT][..0] == [] && Contents([OUT]) == [A2, Z2];
  }

  lemma InstalledLater()
    ensures Installs(V5, CompactionEdit(1, IN0, IN1, [OUT]), LOST)
  {
    hide BySmallest, FileSet;
    var edit := CompactionEdit(1, IN0, IN1, [OUT]);
    FileLists();
    ListsOrdered();
    assert Numbers({FA2, FZ2}) == {5, 9} && Numbers({FA1, FZ1}) == {3, 7} && Numbers({OUT}) == {12};
    forall l | 0 <= l < NUM_LEVELS ensures Ordered(LOST[l]) && FileSet(LOST[l]) == InstallAt(FileSet(V5[l]), edit, l) {
      CompactionEditAt(1, IN0, IN1, [OUT], l);
      if l == 1 {
        UppersGone();
      } else if l == 2 {
        LowersReplaced();
      } else {
        assert LOST[l] == V5[l] == [];
      }
    }
  }

  lemma UppersGone()
    ensures Surviving({FA2, FZ2}, LevelState({5, 9}, {})) == {}
  {
  }

  lemma LowersReplaced()
    ensures Surviving({FA1, FM, FZ1}, LevelState({3, 7}, {OUT})) == {OUT, FM}
  {
  }

  /** The binary search stops at the output, whose range covers the key. */
  lemma LooksInTheWrongFile()
    ensures SortedGet(LOST[2], 2.0, 5) == None
  {
    var files, key := [OUT, FM], SeekKey(2.0, 5);
    assert Bisect(files, key, 0, 0) == 0;
    assert Bisect(files, key, 0, 1) == 0;
    assert Bisect(files, key, 0, 2) == 0;
    assert LowerBound([A2, Z2], key) == 1;
  }

  /**
   The store, each of whose flushes goes to the level the code picks, reaches a
   state with no memtable waiting in which a compaction of the whole of level 1
   begins.  Its inputs are well selected and have a closed upper edge, but a
   gap.  While it works, a key in the gap is written, switched and flushed.
   Installed then, it leaves overlapping files in level 2, and none of the
   levels' searches finds the last write to that key any more.
   */
  lemma FlushIsHidden()
    ensures IsScheduledRun(STATES, ACTIONS, TARGET) && STATES[12] == BEGUN && STATES[15] == MEANWHILE && BEGUN.imm.None?
    ensures IN0 == OverlappingFiles(BEGUN.version[1], None, None)
    ensures Worked(Now(BEGUN), 1, IN0, IN1, INPUT, [OUT]) && UpperEdgeClosed(BEGUN.version[2], IN1)
    ensures Installs(MEANWHILE.version, CompactionEdit(1, IN0, IN1, [OUT]), LOST) && !ValidVersion(LOST)
    ensures LastWrite(MEANWHILE.history, 2.0, 5) == Some([7]) && M in FM.entries && FM in LOST[2]
    ensures LOST[0] == [] && forall l :: 1 <= l < NUM_LEVELS ==> SortedGet(LOST[l], 2.0, 5) == None
  {
    hide IsScheduledRun, Worked, Installs, GoodInputs;
    TheRun();
    Works();
    Selected();
    InstalledLater();
    LooksInTheWrongFile();
    assert !SortedDisjoint(LOST[2]) by {
      assert !Less(OUT.largest, FM.smallest);
      assert LOST[2][0] == OUT && LOST[2][1] == FM;
    }
    forall l | 1 <= l < NUM_LEVELS && l != 2 ensures SortedGet(LOST[l], 2.0, 5) == None {
      assert LOST[l] == [];
    }
  }
}
