/**
 A run of the store after which the inputs that `SetupOtherInputs` selects are
 not safe to compact: the compaction makes a deleted key readable again.

 A snapshot keeps an old value of a key beside its deletion marker; a
 compaction closes an output between the two, so that the next level holds them
 in different files.  Once the snapshot is gone, a file that reaches only to the
 first of them is compacted: the marker goes, and the old value stays behind.
 */
module SplitKey {
  import opened Basics
  import opened DbFormat
  import opened Version
  import opened InputSelection
  import opened DropRules
  import opened CompactionWork
  import opened VersionBuilder
  import opened Manifest
  import opened CompactionEffect
  import opened EdgeClosure
  import opened DbState
  import opened Scenario
  import Db

  const OLD := Entry(InternalKey(2.0, 1, Value), [7])
  const LOW := Entry(InternalKey(1.0, 2, Value), [])
  const MARKER := Entry(InternalKey(2.0, 3, Deletion), [])
  const TOP := Entry(InternalKey(1.0, 4, Value), [])

  const FLUSHED := MakeFile(3, 1, [OLD])
  const DELETING := MakeFile(5, TARGET, [LOW, MARKER])
  // As large as an output gets: it is closed after the marker.
  const FIRST_HALF := MakeFile(6, TARGET, [LOW, MARKER])
  const SECOND_HALF := MakeFile(7, 1, [OLD])
  const TOP_FILE := MakeFile(9, 1, [TOP])
  const RESULT := MakeFile(10, 1, [TOP])

  const HALVES := [FIRST_HALF, SECOND_HALF]
  const H3 := [OLD, LOW, MARKER]
  const H4 := [OLD, LOW, MARKER, TOP]

  const ONE_FILE := Rest(Two([], [FLUSHED]), 4, 1, [], [OLD])
  const WITH_SNAPSHOT := Rest(Two([], [FLUSHED]), 4, 1, [1], [OLD])
  const TWO_FILES := Rest(Two([DELETING], [FLUSHED]), 6, 3, [1], H3)
  const SPLIT := Rest(Two([], HALVES), 8, 3, [1], H3)
  const RELEASED := Rest(Two([], HALVES), 8, 3, [], H3)
  const READY := Rest(Two([TOP_FILE], HALVES), 10, 4, [], H4)
  const RUINED := Rest(Two([], [RESULT, SECOND_HALF]), 11, 4, [], H4)

  const SPLIT_INPUT := [LOW, MARKER, OLD]
  const INPUT := [TOP, LOW, MARKER]

  const STATES := [Initial(), Written(Initial(), [OLD]), Frozen(Initial(), [OLD]), ONE_FILE,
                   WITH_SNAPSHOT, Written(WITH_SNAPSHOT, [LOW, MARKER]), Frozen(WITH_SNAPSHOT, [LOW, MARKER]), TWO_FILES,
                   SPLIT, RELEASED, Written(RELEASED, [TOP]), Frozen(RELEASED, [TOP]), READY]

  const ACTIONS := [Write([OLD]), Switch, Flush(3, 2, 1),
                    TakeSnapshot, Write([LOW, MARKER]), Switch, Flush(5, 1, TARGET),
                    Compact(Now(TWO_FILES), 1, [DELETING], [FLUSHED], SPLIT_INPUT, HALVES),
                    ReleaseSnapshot(0), Write([TOP]), Switch, Flush(9, 1, 1)]

  // ---------------------------------------------------------------------
  // The steps
  // ---------------------------------------------------------------------

  lemma FileLists()
    ensures FileSet([]) == {} && FileSet([FLUSHED]) == {FLUSHED} && FileSet([DELETING]) == {DELETING} && FileSet([TOP_FILE]) == {TOP_FILE}
    ensures FileSet([FIRST_HALF]) == {FIRST_HALF} && FileSet([RESULT]) == {RESULT}
    ensures FileSet(HALVES) == {FIRST_HALF, SECOND_HALF} && FileSet([RESULT, SECOND_HALF]) == {RESULT, SECOND_HALF}
  {
  }

  lemma ListsOrdered()
    ensures Ordered([FLUSHED]) && Ordered([DELETING]) && Ordered([TOP_FILE]) && Ordered(HALVES) && Ordered([RESULT, SECOND_HALF])
  {
  }

  lemma Grows()
    ensures Added(EMPTY, 2, FLUSHED, Two([], [FLUSHED]))
    ensures Added(Two([], [FLUSHED]), 1, DELETING, Two([DELETING], [FLUSHED]))
    ensures Added(Two([], HALVES), 1, TOP_FILE, Two([TOP_FILE], HALVES))
  {
    hide Ordered;
    ListsOrdered();
  }

  lemma Picks()
    ensures PickedFor(EMPTY, [OLD], TARGET, 2)
    ensures PickedFor(Two([], [FLUSHED]), [LOW, MARKER], TARGET, 1)
    ensures PickedFor(Two([], HALVES), [TOP], TARGET, 1)
  {
    hide IsPick;
    GoesToSecond([], [], 2.0, 2.0);
    assert FLUSHED in [FLUSHED] && OverlappingTo([FLUSHED], 0, Some(1.0), Some(2.0)) == [];
    assert OverlappingFiles([FLUSHED], Some(1.0), Some(2.0)) == [FLUSHED];
    GoesToFirst([], [FLUSHED], 1.0, 2.0);
    OnlyFirst();
    assert FIRST_HALF in HALVES && TotalFileSize([FIRST_HALF]) == TARGET;
    GoesToFirst([], HALVES, 1.0, 1.0);
  }

  lemma OnlyFirst()
    ensures OverlappingFiles(HALVES, Some(1.0), Some(1.0)) == [FIRST_HALF]
  {
    assert OverlappingTo(HALVES, 0, Some(1.0), Some(1.0)) == [];
    assert OverlappingTo(HALVES, 1, Some(1.0), Some(1.0)) == [FIRST_HALF];
  }

  ghost predicate Taken(k: nat)
    requires k < |ACTIONS|
  {
    Step(STATES[k], ACTIONS[k], STATES[k + 1]) && Scheduled(STATES[k], ACTIONS[k], TARGET)
  }

  lemma FirstSteps()
    ensures Taken(0) && Taken(1) && Taken(2) && Inv(ONE_FILE)
  {
    hide Inv, Added, IsPick;
    Db.InitialInv();
    Grows();
    Picks();
    assert Flushed(Initial(), [OLD], Two([], [FLUSHED])) == ONE_FILE;
    Cycle(Initial(), [OLD], 1, 2, Two([], [FLUSHED]));
  }

  lemma DeletingSteps()
    requires Inv(ONE_FILE)
    ensures Taken(3) && Taken(4) && Taken(5) && Taken(6) && Inv(TWO_FILES)
  {
    hide Inv, Added, IsPick;
    assert [] + [1] == [1];
    Db.SnapshotKeeps(ONE_FILE, WITH_SNAPSHOT);
    Grows();
    Picks();
    assert Flushed(WITH_SNAPSHOT, [LOW, MARKER], Two([DELETING], [FLUSHED])) == TWO_FILES;
    Cycle(WITH_SNAPSHOT, [LOW, MARKER], TARGET, 1, Two([DELETING], [FLUSHED]));
  }

  lemma SplittingStep()
    requires Inv(TWO_FILES)
    ensures Taken(7) && Inv(SPLIT)
  {
    hide Inv, Compacted, NothingExposed;
    SplitRewrites();
    NothingExposedYet();
    Db.CompactKeeps(TWO_FILES, SPLIT, Now(TWO_FILES), 1, [DELETING], [FLUSHED], SPLIT_INPUT, HALVES);
  }

  lemma LastSteps()
    requires Inv(SPLIT)
    ensures Taken(8) && Taken(9) && Taken(10) && Taken(11) && Inv(READY)
  {
    hide Inv, Added, IsPick;
    assert [1][..0] + [1][1..] == [];
    Db.ReleaseKeeps(SPLIT, RELEASED, 0);
    Grows();
    Picks();
    assert Flushed(RELEASED, [TOP], Two([TOP_FILE], HALVES)) == READY;
    Cycle(RELEASED, [TOP], 1, 1, Two([TOP_FILE], HALVES));
  }

  lemma TheRun()
    ensures IsScheduledRun(STATES, ACTIONS, TARGET) && Inv(READY)
  {
    hide Inv, Step, Scheduled;
    FirstSteps();
    DeletingSteps();
    SplittingStep();
    LastSteps();
    forall i | 0 <= i < |ACTIONS| ensures Taken(i) {
      if i < 7 {
        assert i == 0 || i == 1 || i == 2 || i == 3 || i == 4 || i == 5 || i == 6;
      } else {
        assert i == 7 || i == 8 || i == 9 || i == 10 || i == 11;
      }
    }
    assert forall i :: 0 <= i < |ACTIONS| ==> Taken(i);
  }

  // ---------------------------------------------------------------------
  // The compaction that splits the key
  // ---------------------------------------------------------------------

  /** Compacting a file of level 1 with the first file of level 2. */
  lemma InstallsInto(f: FileMeta, g: FileMeta, lower: seq<FileMeta>, outs: seq<FileMeta>, newLower: seq<FileMeta>)
    requires Ordered(newLower) && FileSet(newLower) == Surviving(FileSet(lower), LevelState({g.number} - Numbers(FileSet(outs)), FileSet(outs)))
    ensures Installs(Two([f], lower), CompactionEdit(1, [f], [g], outs), Two([], newLower))
  {
    hide Surviving, BySmallest;
    var v, w := Two([f], lower), Two([], newLower);
    assert FileSet([f]) == {f} && Numbers({f}) == {f.number} && FileSet([g]) == {g} && Numbers({g}) == {g.number};
    assert FileSet([]) == {} && Numbers({}) == {};
    forall l | 0 <= l < NUM_LEVELS
      ensures Ordered(w[l]) && FileSet(w[l]) == InstallAt(FileSet(v[l]), CompactionEdit(1, [f], [g], outs), l)
    {
      CompactionEditAt(1, [f], [g], outs, l);
      assert START == LevelState({}, {});
      assert ApplyAt(START, CompactionEdit(1, [f], [g], outs), l)
          == LevelState(if l == 1 then {f.number} else if l == 2 then {g.number} - Numbers(FileSet(outs)) else {}, if l == 2 then FileSet(outs) else {});
      if l == 1 {
        OnlyFileGone(f);
      } else if l != 2 {
        assert w[l] == v[l] == [];
        NothingToDo();
      }
    }
  }

  lemma OnlyFileGone(f: FileMeta)
    ensures Surviving({f}, LevelState({f.number}, {})) == {}
  {
  }

  lemma NothingToDo()
    ensures Surviving({}, LevelState({}, {})) == {}
  {
  }

  lemma SplitKept(v: Levels)
    ensures Kept(v, 1, SPLIT_INPUT, 3, 1) == SPLIT_INPUT
  {
    assert Kept(v, 1, SPLIT_INPUT, 0, 1) == [];
    assert Kept(v, 1, SPLIT_INPUT, 1, 1) == [LOW];
    assert Kept(v, 1, SPLIT_INPUT, 2, 1) == [LOW, MARKER];
  }

  lemma SplitContents()
    ensures Contents(HALVES) == SPLIT_INPUT
  {
    assert HALVES[..1] == [FIRST_HALF] && [FIRST_HALF][..0] == [];
    assert Contents([FIRST_HALF]) == [LOW, MARKER];
  }

  lemma SplitSelected()
    ensures GoodInputs(TWO_FILES.version[1], TWO_FILES.version[2], [DELETING], [FLUSHED])
  {
    assert OverlappingTo([FLUSHED], 0, Some(1.0), Some(2.0)) == [];
    assert Spans([DELETING], 1.0, 2.0) && [FLUSHED] == OverlappingFiles([FLUSHED], Some(1.0), Some(2.0));
  }

  lemma SplitEntries()
    ensures Sorted(SPLIT_INPUT) && ToSet(SPLIT_INPUT) == LevelEntries([DELETING]) + LevelEntries([FLUSHED])
  {
    assert LevelEntries([DELETING]) == {LOW, MARKER} by {
      assert DELETING in [DELETING] && LOW in DELETING.entries && MARKER in DELETING.entries;
    }
    assert LevelEntries([FLUSHED]) == {OLD} by {
      assert FLUSHED in [FLUSHED] && OLD in FLUSHED.entries;
    }
  }

  lemma SplitRewrites()
    requires Inv(TWO_FILES)
    ensures Compacted(TWO_FILES.version, Now(TWO_FILES), 1, [DELETING], [FLUSHED], SPLIT_INPUT, HALVES, SPLIT.version)
  {
    hide Inv, GoodInputs, Kept, Ordered, Sorted;
    SplitSelected();
    SplitEntries();
    SplitKept(TWO_FILES.version);
    SplitContents();
    FileLists();
    ListsOrdered();
    assert Numbers({FIRST_HALF, SECOND_HALF}) == {6, 7};
    assert Surviving({FLUSHED}, LevelState({3}, {FIRST_HALF, SECOND_HALF})) == {FIRST_HALF, SECOND_HALF};
    InstallsInto(DELETING, FLUSHED, [FLUSHED], HALVES, HALVES);
    IsNumbered(TWO_FILES);
    Db.ConsecutiveAreNew(TWO_FILES.version, 6, HALVES);
  }

  lemma NothingExposedYet()
    ensures NothingExposed(TWO_FILES, Now(TWO_FILES), 1, [DELETING], [FLUSHED], SPLIT_INPUT)
  {
  }

  // ---------------------------------------------------------------------
  // The compaction that exposes it
  // ---------------------------------------------------------------------

  lemma Selected()
    ensures GoodInputs(READY.version[1], READY.version[2], [TOP_FILE], [FIRST_HALF])
  {
    OnlyFirst();
    assert Spans([TOP_FILE], 1.0, 1.0) && [FIRST_HALF] == OverlappingFiles(HALVES, Some(1.0), Some(1.0));
  }

  lemma InputEntries()
    ensures Sorted(INPUT) && ToSet(INPUT) == LevelEntries([TOP_FILE]) + LevelEntries([FIRST_HALF])
  {
    assert LevelEntries([TOP_FILE]) == {TOP} by {
      assert TOP_FILE in [TOP_FILE] && TOP in TOP_FILE.entries;
    }
    assert LevelEntries([FIRST_HALF]) == {LOW, MARKER} by {
      assert FIRST_HALF in [FIRST_HALF] && LOW in FIRST_HALF.entries && MARKER in FIRST_HALF.entries;
    }
  }

  lemma LeftOutside()
    ensures Outside(READY, 1, [TOP_FILE], [FIRST_HALF]) == {OLD}
  {
    var v, in0, in1 := READY.version, [TOP_FILE], [FIRST_HALF];
    assert SECOND_HALF in v[2] && OLD in SECOND_HALF.entries && !IsInput(1, in0, in1, 2, SECOND_HALF);
    forall x | x in RestEntries(v, 1, in0, in1) ensures x == OLD {
      var l, f := FindInRest(v, 1, in0, in1, x);
      assert l == 1 || l == 2;
    }
  }

  lemma MarkerDropped()
    ensures Obsolete(READY.version, 1, MARKER, 4) && Kept(READY.version, 1, INPUT, 3, 4) == [TOP]
  {
    var v := READY.version;
    assert IsBaseLevel(v, 1, 2.0);
    assert Kept(v, 1, INPUT, 0, 4) == [];
    assert Kept(v, 1, INPUT, 1, 4) == [TOP];
    assert Kept(v, 1, INPUT, 2, 4) == [TOP];
  }

  lemma Exposes()
    ensures Exposed(READY.version, 1, {OLD}, INPUT, 4, 2.0)
  {
    MarkerDropped();
    assert IsNewest({OLD}, 2.0, 4, OLD);
    assert ExposedAt(READY.version, 1, {OLD}, INPUT, 4, 2, OLD);
  }

  lemma RuinRewrites()
    requires Inv(READY)
    ensures Compacted(READY.version, Now(READY), 1, [TOP_FILE], [FIRST_HALF], INPUT, [RESULT], RUINED.version)
  {
    hide Inv, GoodInputs, Kept, Ordered, Sorted;
    Selected();
    InputEntries();
    MarkerDropped();
    assert [RESULT][..0] == [] && Contents([RESULT]) == [TOP];
    FileLists();
    ListsOrdered();
    assert Numbers({RESULT}) == {10};
    assert Surviving({FIRST_HALF, SECOND_HALF}, LevelState({6}, {RESULT})) == {RESULT, SECOND_HALF};
    InstallsInto(TOP_FILE, FIRST_HALF, HALVES, [RESULT], [RESULT, SECOND_HALF]);
    IsNumbered(READY);
    Db.ConsecutiveAreNew(READY.version, 10, [RESULT]);
  }

  lemma RuinedRead()
    ensures Read(All(RUINED), 2.0, 4) == Some([7])
  {
    var S := All(RUINED);
    assert SECOND_HALF in RUINED.version[2] && OLD in SECOND_HALF.entries;
    InVersion(RUINED.version, 2, SECOND_HALF, OLD);
    forall e | e in S ensures e == TOP || e == OLD {
      var l, f := FindInVersion(RUINED.version, e);
      assert l == 2;
    }
    assert IsNewest(S, 2.0, 4, OLD);
    ReadNewest(S, 2.0, 4, OLD);
  }

  lemma LastIsDeletion()
    ensures LastWrite(H4, 2.0, 4) == None
  {
    assert H4[..3] == H3;
    assert LastWrite(H4, 2.0, 4) == LastWrite(H3, 2.0, 4);
  }

  /**
   The store, by steps the code takes, reaches a state in which the inputs
   selected for a compaction of level 1 expose a deleted key: carrying the
   compaction out, with the drop rules and the version edit of the code, brings
   back a value where the history says that there is none.
   */
  lemma SplitKeyIsExposed()
    ensures IsScheduledRun(STATES, ACTIONS, TARGET) && STATES[|ACTIONS|] == READY && READY.imm.None?
    ensures GoodInputs(READY.version[1], READY.version[2], [TOP_FILE], [FIRST_HALF])
    ensures Exposed(READY.version, 1, Outside(READY, 1, [TOP_FILE], [FIRST_HALF]), INPUT, Oldest(READY), 2.0)
    ensures Compacted(READY.version, Now(READY), 1, [TOP_FILE], [FIRST_HALF], INPUT, [RESULT], RUINED.version)
    ensures LastWrite(READY.history, 2.0, 4) == None && Read(All(READY), 2.0, 4) == None
    ensures Read(All(RUINED), 2.0, 4) == Some([7])
  {
    hide Compacted, GoodInputs, Exposed, Inv, Scheduled;
    TheRun();
    Selected();
    LeftOutside();
    Exposes();
    RuinRewrites();
    RuinedRead();
    LastIsDeletion();
    Db.RunReads(STATES, ACTIONS, |ACTIONS|, 2.0, 4);
  }
}
