/**
 Installing edits one at a time (`VersionSet::LogAndApply`) against replaying
 them all after a restart (`VersionSet::Recover`).
 */
module Manifest {
  import opened Basics
  import opened DbFormat
  import opened Version
  import opened VersionBuilder

  const START := LevelState({}, {})

  /** `w` is what one edit makes of version `v`. */
  ghost predicate Installs(v: Levels, edit: Edit, w: Levels) {
    && |v| == |w| == NUM_LEVELS
    && forall l :: 0 <= l < NUM_LEVELS ==> Ordered(w[l]) && FileSet(w[l]) == InstallAt(FileSet(v[l]), edit, l)
  }

  ghost predicate InRange(edit: Edit) {
    && (forall a :: a in edit.added ==> a.0 < NUM_LEVELS)
    && (forall d :: d in edit.deleted ==> d.0 < NUM_LEVELS)
  }

  /** The edit adds files under numbers its levels do not use yet. */
  ghost predicate LegalEdit(v: Levels, edit: Edit)
    requires |v| == NUM_LEVELS
  {
    && InRange(edit)
    && forall l :: 0 <= l < NUM_LEVELS ==>
         UniqueNumbers(AddedAt(edit, l)) && Numbers(FileSet(v[l])) !! Numbers(AddedAt(edit, l))
  }

  /** Over a whole log of edits, no (level, number) pair is ever added twice. */
  ghost predicate LegalEdits(v: Levels, edits: seq<Edit>)
    requires |v| == NUM_LEVELS
  {
    && (forall e :: e in edits ==> InRange(e))
    && forall l :: 0 <= l < NUM_LEVELS ==>
         AddedOnce(FileSet(v[l]), edits, l) && forall e :: e in edits ==> UniqueNumbers(AddedAt(e, l))
  }

  /** The version change of `LogAndApply`: builder on the current version, apply, save. */
  method LogAndApply(v: Levels, edit: Edit) returns (w: Levels)
    requires |v| == NUM_LEVELS && WellNumbered(v) && LegalEdit(v, edit)
    ensures Installs(v, edit, w) && WellNumbered(w)
  {
    var builder := new Builder(v);
    forall l | 0 <= l < NUM_LEVELS ensures FileSet(v[l]) + FileSet(builder.added[l]) == FileSet(v[l]) {
      assert builder.State(l) == START;
    }
    builder.Apply(edit);
    w := builder.SaveTo();
    forall l | 0 <= l < NUM_LEVELS ensures UniqueNumbers(FileSet(w[l])) {
      assert FileSet(w[l]) <= FileSet(v[l]) + FileSet(builder.added[l]);
    }
  }

  /** The loop of `Recover`: every edit of the manifest goes into one builder. */
  method Replay(base: Levels, edits: seq<Edit>) returns (w: Levels)
    requires |base| == NUM_LEVELS && WellNumbered(base) && LegalEdits(base, edits)
    ensures |w| == NUM_LEVELS
    ensures forall l :: 0 <= l < NUM_LEVELS ==> Ordered(w[l]) && FileSet(w[l]) == InstallAllAt(FileSet(base[l]), edits, l)
  {
    var builder := new Builder(base);
    for n := 0 to |edits|
      invariant builder.Valid() && fresh(builder)
      invariant forall l :: 0 <= l < NUM_LEVELS ==> builder.State(l) == ApplyAllAt(START, edits[..n], l)
    {
      assert edits[n] in edits;
      forall l | 0 <= l < NUM_LEVELS ensures ApplyAllAt(START, edits[..n + 1], l) == ApplyAt(ApplyAllAt(START, edits[..n], l), edits[n], l) {
        assert edits[..n + 1][..n] == edits[..n];
      }
      builder.Apply(edits[n]);
    }
    assert edits[..|edits|] == edits;
    w := builder.SaveTo();
    forall l | 0 <= l < NUM_LEVELS ensures FileSet(w[l]) == InstallAllAt(FileSet(base[l]), edits, l) {
      ReplayEqualsInstall(FileSet(base[l]), edits, l);
    }
  }

  /** A chain of versions, each made from the one before by the next edit. */
  ghost predicate Chain(vs: seq<Levels>, edits: seq<Edit>) {
    |vs| == |edits| + 1 && forall i :: 0 <= i < |edits| ==> Installs(vs[i], edits[i], vs[i + 1])
  }

  lemma {:induction false} ChainIsInstallAll(vs: seq<Levels>, edits: seq<Edit>, l: nat)
    requires Chain(vs, edits) && |vs[0]| == NUM_LEVELS && l < NUM_LEVELS
    ensures |vs[|edits|]| == NUM_LEVELS
    ensures FileSet(vs[|edits|][l]) == InstallAllAt(FileSet(vs[0][l]), edits, l)
  {
    if edits != [] {
      var n := |edits| - 1;
      assert Chain(vs[..n + 1], edits[..n]);
      ChainIsInstallAll(vs[..n + 1], edits[..n], l);
    }
  }

  const EMPTY: Levels := [[], [], [], [], [], [], []]

  /** The record `WriteSnapshot` puts at the head of a new manifest: every file of the version. */
  ghost predicate SnapshotOf(v: Levels, edit: Edit)
    requires |v| == NUM_LEVELS
  {
    edit.deleted == {} && InRange(edit) && forall l :: 0 <= l < NUM_LEVELS ==> AddedAt(edit, l) == FileSet(v[l])
  }

  lemma SnapshotInstalls(v: Levels, edit: Edit)
    requires |v| == NUM_LEVELS && WellNumbered(v) && SnapshotOf(v, edit)
    ensures Installs(EMPTY, edit, v)
  {
    forall l | 0 <= l < NUM_LEVELS ensures FileSet(v[l]) == InstallAt(FileSet(EMPTY[l]), edit, l) {
      assert FileSet(EMPTY[l]) == {};
      assert DeletedAt(edit, l) == {};
    }
  }

  /**
   Recovering from a manifest (a snapshot record followed by every later edit)
   rebuilds, list for list, the version that was current when the last edit was installed.
   */
  lemma RecoveredIsCurrent(vs: seq<Levels>, snapshot: Edit, edits: seq<Edit>, w: Levels)
    requires Chain(vs, edits) && |vs[0]| == NUM_LEVELS && WellNumbered(vs[0]) && SnapshotOf(vs[0], snapshot)
    requires |vs[|edits|]| == NUM_LEVELS && WellNumbered(vs[|edits|])
    requires |w| == NUM_LEVELS
    requires forall l :: 0 <= l < NUM_LEVELS ==>
               Ordered(w[l]) && FileSet(w[l]) == InstallAllAt(FileSet(EMPTY[l]), [snapshot] + edits, l)
    ensures w == vs[|edits|]
  {
    SnapshotInstalls(vs[0], snapshot);
    var all, chain := [snapshot] + edits, [EMPTY] + vs;
    assert Chain(chain, all);
    forall l | 0 <= l < NUM_LEVELS ensures w[l] == vs[|edits|][l] {
      ChainIsInstallAll(chain, all, l);
      ChainIsInstallAll(vs, edits, l);
      OrderedUnique(w[l], vs[|edits|][l]);
    }
    ChainIsInstallAll(vs, edits, 0);
  }

  /** A chain of versions as `LogAndApply` makes it: every edit is legal for the version it is applied to. */
  ghost predicate LegalChain(vs: seq<Levels>, edits: seq<Edit>) {
    && Chain(vs, edits)
    && (forall i :: 0 <= i < |vs| ==> |vs[i]| == NUM_LEVELS && WellNumbered(vs[i]))
    && (forall i :: 0 <= i < |edits| ==> LegalEdit(vs[i], edits[i]))
  }

  /** No (level, file number) pair is added by two of the edits. */
  ghost predicate NeverAddedTwice(edits: seq<Edit>) {
    forall i, j, l :: 0 <= i < j < |edits| && 0 <= l < NUM_LEVELS ==> Numbers(AddedAt(edits[i], l)) !! Numbers(AddedAt(edits[j], l))
  }

  lemma {:induction false} EverIsAdded(edits: seq<Edit>, n: nat, l: nat, m: nat) returns (i: nat)
    requires n <= |edits| && m in Numbers(EverAt({}, edits[..n], l))
    ensures i < n && m in Numbers(AddedAt(edits[i], l))
  {
    var f :| f in EverAt({}, edits[..n], l) && f.number == m;
    assert n > 0;
    assert edits[..n][..n - 1] == edits[..n - 1];
    if f in AddedAt(edits[n - 1], l) {
      i := n - 1;
    } else {
      assert f in EverAt({}, edits[..n - 1], l);
      i := EverIsAdded(edits, n - 1, l, m);
    }
  }

  lemma OnceFromNever(edits: seq<Edit>, l: nat)
    requires NeverAddedTwice(edits) && l < NUM_LEVELS
    ensures AddedOnce({}, edits, l)
  {
    forall n | 0 <= n < |edits| ensures Numbers(EverAt({}, edits[..n], l)) !! Numbers(AddedAt(edits[n], l)) {
      forall m | m in Numbers(EverAt({}, edits[..n], l)) ensures m !in Numbers(AddedAt(edits[n], l)) {
        var i := EverIsAdded(edits, n, l, m);
        assert Numbers(AddedAt(edits[i], l)) !! Numbers(AddedAt(edits[n], l));
      }
    }
  }

  lemma LegalFromChain(vs: seq<Levels>, snapshot: Edit, edits: seq<Edit>)
    requires LegalChain(vs, edits) && SnapshotOf(vs[0], snapshot) && NeverAddedTwice([snapshot] + edits)
    ensures WellNumbered(EMPTY) && LegalEdits(EMPTY, [snapshot] + edits)
  {
    var all := [snapshot] + edits;
    forall k | 0 <= k < |all| ensures InRange(all[k]) && forall l :: 0 <= l < NUM_LEVELS ==> UniqueNumbers(AddedAt(all[k], l)) {
      if k > 0 {
        assert LegalEdit(vs[k - 1], edits[k - 1]);
      }
    }
    forall l | 0 <= l < NUM_LEVELS ensures FileSet(EMPTY[l]) == {} && AddedOnce(FileSet(EMPTY[l]), all, l) {
      OnceFromNever(all, l);
    }
    forall l | 0 <= l < |EMPTY| ensures EMPTY[l] == [] {}
  }

  /** `Recover` on a manifest rebuilds the current version. */
  method RecoverCurrent(snapshot: Edit, edits: seq<Edit>, ghost vs: seq<Levels>) returns (w: Levels)
    requires LegalChain(vs, edits) && SnapshotOf(vs[0], snapshot) && NeverAddedTwice([snapshot] + edits)
    ensures w == vs[|edits|]
  {
    LegalFromChain(vs, snapshot, edits);
    w := Replay(EMPTY, [snapshot] + edits);
    RecoveredIsCurrent(vs, snapshot, edits, w);
  }
}
