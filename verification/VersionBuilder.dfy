/**
 Applying version edits: `VersionSet::Builder`, and why replaying a manifest in
 one builder gives the same levels as installing its edits one at a time.
 */
module VersionBuilder {
  import opened Basics
  import opened DbFormat
  import opened Version

  datatype Edit = Edit(deleted: set<(nat, nat)>, added: seq<(nat, FileMeta)>)

  /** `BySmallestKey`: by smallest key, ties broken by file number. */
  predicate BySmallest(f: FileMeta, g: FileMeta) {
    Less(f.smallest, g.smallest) || (f.smallest == g.smallest && f.number < g.number)
  }

  ghost predicate Ordered(files: seq<FileMeta>) {
    forall i, j :: 0 <= i < j < |files| ==> BySmallest(files[i], files[j])
  }

  ghost function FileSet(files: seq<FileMeta>): set<FileMeta> {
    set f | f in files
  }

  ghost predicate UniqueNumbers(F: set<FileMeta>) {
    forall f, g :: f in F && g in F && f.number == g.number ==> f == g
  }

  lemma OrderTotal(F: set<FileMeta>, f: FileMeta, g: FileMeta)
    requires UniqueNumbers(F) && f in F && g in F && f != g
    ensures BySmallest(f, g) || BySmallest(g, f)
  {
  }

  /** An ordered file list is determined by the files in it. */
  lemma {:induction false} OrderedUnique(a: seq<FileMeta>, b: seq<FileMeta>)
    requires Ordered(a) && Ordered(b) && FileSet(a) == FileSet(b)
    ensures a == b
  {
    if a == [] || b == [] {
      NoFiles(a);
      NoFiles(b);
    } else {
      var m, n := |a| - 1, |b| - 1;
      SameLast(a, b);
      LastOut(a);
      LastOut(b);
      OrderedUnique(a[..m], b[..n]);
      assert a == a[..m] + [a[m]] && b == b[..n] + [b[n]];
    }
  }

  lemma NoFiles(a: seq<FileMeta>)
    ensures FileSet(a) == {} <==> a == []
  {
    if a != [] { assert a[0] in FileSet(a); }
  }

  lemma SameLast(a: seq<FileMeta>, b: seq<FileMeta>)
    requires Ordered(a) && Ordered(b) && FileSet(a) == FileSet(b) && a != [] && b != []
    ensures a[|a| - 1] == b[|b| - 1]
  {
    var x, y := a[|a| - 1], b[|b| - 1];
    assert x in FileSet(a) && y in FileSet(b);
    var i :| 0 <= i < |b| && b[i] == x;
    var j :| 0 <= j < |a| && a[j] == y;
  }

  lemma LastOut(a: seq<FileMeta>)
    requires Ordered(a) && a != []
    ensures FileSet(a[..|a| - 1]) == FileSet(a) - {a[|a| - 1]}
  {
    var m := |a| - 1;
    forall f | f in FileSet(a) && f != a[m] ensures f in FileSet(a[..m]) {
      var i :| 0 <= i < |a| && a[i] == f;
      assert a[..m][i] == f;
    }
    forall f | f in FileSet(a[..m]) ensures f in FileSet(a) && f != a[m] {
      var i :| 0 <= i < m && a[i] == f;
    }
  }

  // ---------------------------------------------------------------------
  // One level of a builder
  // ---------------------------------------------------------------------

  /** `LevelState`: numbers to drop, and files to add on top of the base version. */
  datatype LevelState = LevelState(deleted: set<nat>, added: set<FileMeta>)

  ghost function DeletedAt(edit: Edit, l: nat): set<nat> {
    set d | d in edit.deleted && d.0 == l :: d.1
  }

  ghost function AddedAt(edit: Edit, l: nat): set<FileMeta> {
    set a | a in edit.added && a.0 == l :: a.1
  }

  ghost function Numbers(F: set<FileMeta>): set<nat> {
    set f | f in F :: f.number
  }

  /** Deletions first; then each added file is also taken off the deletion list. */
  ghost function ApplyAt(st: LevelState, edit: Edit, l: nat): LevelState {
    LevelState(st.deleted + DeletedAt(edit, l) - Numbers(AddedAt(edit, l)), st.added + AddedAt(edit, l))
  }

  ghost function AddAt(st: LevelState, added: seq<(nat, FileMeta)>, l: nat): LevelState {
    ApplyAt(st, Edit({}, added), l)
  }

  lemma AddAtGrows(st: LevelState, added: seq<(nat, FileMeta)>, i: nat, l: nat)
    requires i < |added|
    ensures var s := AddAt(st, added[..i], l);
            AddAt(st, added[..i + 1], l) ==
              if added[i].0 == l then LevelState(s.deleted - {added[i].1.number}, s.added + {added[i].1}) else s
  {
    var p, q := added[..i], added[..i + 1];
    assert q == p + [added[i]];
    assert AddedAt(Edit({}, q), l) == AddedAt(Edit({}, p), l) + if added[i].0 == l then {added[i].1} else {};
  }

  /** An edit's file is new to its level, also after the files before it were added. */
  lemma Fresh(base: set<FileMeta>, was: set<FileMeta>, edit: Edit, i: nat)
    requires i < |edit.added|
    requires UniqueNumbers(base + was) && UniqueNumbers(AddedAt(edit, edit.added[i].0))
    requires Numbers(base + was) !! Numbers(AddedAt(edit, edit.added[i].0))
    ensures edit.added[i].1.number !in Numbers(base)
    ensures UniqueNumbers(was + AddedAt(Edit({}, edit.added[..i]), edit.added[i].0) + {edit.added[i].1})
  {
    var l, f := edit.added[i].0, edit.added[i].1;
    var A := AddedAt(edit, l);
    assert edit.added[i] in edit.added;
    assert AddedAt(Edit({}, edit.added[..i]), l) + {f} <= A;
    assert forall g :: g in A ==> g.number in Numbers(A);
    assert forall g :: g in base + was ==> g.number in Numbers(base + was);
    assert Numbers(base) <= Numbers(base + was);
  }

  ghost function ApplyAllAt(st: LevelState, edits: seq<Edit>, l: nat): LevelState {
    if edits == [] then st
    else ApplyAt(ApplyAllAt(st, edits[..|edits| - 1], l), edits[|edits| - 1], l)
  }

  /** The files a builder leaves in a level. */
  ghost function Surviving(base: set<FileMeta>, st: LevelState): set<FileMeta> {
    set f | f in base + st.added && f.number !in st.deleted
  }

  /** The same level when an edit is installed on its own. */
  ghost function InstallAt(files: set<FileMeta>, edit: Edit, l: nat): set<FileMeta> {
    Surviving(files, ApplyAt(LevelState({}, {}), edit, l))
  }

  ghost function InstallAllAt(files: set<FileMeta>, edits: seq<Edit>, l: nat): set<FileMeta> {
    if edits == [] then files
    else InstallAt(InstallAllAt(files, edits[..|edits| - 1], l), edits[|edits| - 1], l)
  }

  ghost function EverAt(files: set<FileMeta>, edits: seq<Edit>, l: nat): set<FileMeta> {
    files + ApplyAllAt(LevelState({}, {}), edits, l).added
  }

  /** No (level, file number) pair is added twice, counting the base version's files. */
  ghost predicate AddedOnce(files: set<FileMeta>, edits: seq<Edit>, l: nat) {
    forall n :: 0 <= n < |edits| ==> Numbers(EverAt(files, edits[..n], l)) !! Numbers(AddedAt(edits[n], l))
  }

  lemma InstallOne(base: set<FileMeta>, st: LevelState, edit: Edit, l: nat)
    requires Numbers(base + st.added) !! Numbers(AddedAt(edit, l))
    ensures Surviving(base, ApplyAt(st, edit, l)) == InstallAt(Surviving(base, st), edit, l)
  {
    var A, B := Surviving(base, ApplyAt(st, edit, l)), InstallAt(Surviving(base, st), edit, l);
    var more := AddedAt(edit, l);
    assert forall f :: f in more ==> f.number in Numbers(more);
    assert forall f :: f in base + st.added ==> f.number in Numbers(base + st.added);
    forall f ensures f in A <==> f in B {
    }
  }

  /** Replaying all edits in one builder ends in the same files as installing them one by one. */
  lemma {:induction false} ReplayEqualsInstall(files: set<FileMeta>, edits: seq<Edit>, l: nat)
    requires AddedOnce(files, edits, l)
    ensures Surviving(files, ApplyAllAt(LevelState({}, {}), edits, l)) == InstallAllAt(files, edits, l)
  {
    if edits == [] {
      assert Surviving(files, LevelState({}, {})) == files;
    } else {
      var n := |edits| - 1;
      assert forall k :: 0 <= k < n ==> edits[..n][..k] == edits[..k];
      ReplayEqualsInstall(files, edits[..n], l);
      InstallOne(files, ApplyAllAt(LevelState({}, {}), edits[..n], l), edits[n], l);
    }
  }

  // ---------------------------------------------------------------------
  // The builder object
  // ---------------------------------------------------------------------

  /** `std::set::insert`: keeps the list ordered; a file equal in the order is not added again. */
  method InsertOrdered(files: seq<FileMeta>, f: FileMeta) returns (r: seq<FileMeta>)
    requires Ordered(files) && UniqueNumbers(FileSet(files) + {f})
    ensures Ordered(r) && FileSet(r) == FileSet(files) + {f}
  {
    var k := 0;
    while k < |files| && BySmallest(files[k], f)
      invariant 0 <= k <= |files|
      invariant forall i :: 0 <= i < k ==> BySmallest(files[i], f)
    {
      k := k + 1;
    }
    if k < |files| && !BySmallest(f, files[k]) {
      assert files[k] in FileSet(files);
      r := files;
    } else {
      r := files[..k] + [f] + files[k..];
      Inserted(files, k, f);
    }
  }

  lemma Inserted(files: seq<FileMeta>, k: nat, f: FileMeta)
    requires Ordered(files) && k <= |files|
    requires forall i :: 0 <= i < k ==> BySmallest(files[i], f)
    requires k < |files| ==> BySmallest(f, files[k])
    ensures Ordered(files[..k] + [f] + files[k..])
    ensures FileSet(files[..k] + [f] + files[k..]) == FileSet(files) + {f}
  {
    var r := files[..k] + [f] + files[k..];
    forall i, j | 0 <= i < j < |r| ensures BySmallest(r[i], r[j]) {
      if i == k {
        assert k == j - 1 || BySmallest(files[k], files[j - 1]);
      }
    }
    assert files == files[..k] + files[k..];
  }

  /** Merge of the base list and the added list, without the deleted files. */
  method SaveLevel(base: seq<FileMeta>, added: seq<FileMeta>, deleted: set<nat>) returns (r: seq<FileMeta>)
    requires Ordered(base) && Ordered(added)
    requires FileSet(base) !! FileSet(added) && UniqueNumbers(FileSet(base) + FileSet(added))
    ensures Ordered(r)
    ensures FileSet(r) == Surviving(FileSet(base), LevelState(deleted, FileSet(added)))
  {
    r := [];
    var b := 0;
    for a := 0 to |added|
      invariant 0 <= b <= |base| && Progress(base, b, added, a, deleted, r)
    {
      // `std::upper_bound`: base files not after the added one go first
      while b < |base| && !BySmallest(added[a], base[b])
        invariant 0 <= b <= |base| && Progress(base, b, added, a, deleted, r)
      {
        TakeBase(base, added, a, b, deleted, r);
        r := MaybeAddFile(r, base[b], deleted);
        b := b + 1;
      }
      TakeAdded(base, added, a, b, deleted, r);
      r := MaybeAddFile(r, added[a], deleted);
    }
    while b < |base|
      invariant 0 <= b <= |base| && Progress(base, b, added, |added|, deleted, r)
    {
      TakeRest(base, added, b, deleted, r);
      r := MaybeAddFile(r, base[b], deleted);
      b := b + 1;
    }
    AllTaken(base, added, deleted, r);
  }

  ghost predicate Below(files: seq<FileMeta>, n: nat, f: FileMeta)
    requires n <= |files|
  {
    forall i :: 0 <= i < n ==> BySmallest(files[i], f)
  }

  /** `r` is the ordered list of the files taken so far that are not deleted. */
  ghost predicate Progress(base: seq<FileMeta>, b: nat, added: seq<FileMeta>, a: nat, deleted: set<nat>, r: seq<FileMeta>)
    requires b <= |base| && a <= |added|
  {
    && Ordered(r)
    && (forall f :: f in r <==> (f in base[..b] || f in added[..a]) && f.number !in deleted)
    && (a < |added| ==> Below(base, b, added[a]))
    && (b < |base| ==> Below(added, a, base[b]))
  }

  function MaybeAddFile(r: seq<FileMeta>, f: FileMeta, deleted: set<nat>): seq<FileMeta> {
    if f.number in deleted then r else r + [f]
  }

  lemma Take(base: seq<FileMeta>, b: nat, added: seq<FileMeta>, a: nat, f: FileMeta, deleted: set<nat>, r: seq<FileMeta>)
    requires b <= |base| && a <= |added| && Progress(base, b, added, a, deleted, r)
    requires Below(base, b, f) && Below(added, a, f)
    ensures Ordered(MaybeAddFile(r, f, deleted))
    ensures forall g :: g in MaybeAddFile(r, f, deleted) <==> (g in base[..b] || g in added[..a] || g == f) && g.number !in deleted
  {
    forall i | 0 <= i < |r| ensures BySmallest(r[i], f) {
      assert r[i] in r;
    }
  }

  lemma TakeBase(base: seq<FileMeta>, added: seq<FileMeta>, a: nat, b: nat, deleted: set<nat>, r: seq<FileMeta>)
    requires Ordered(base) && Ordered(added) && a < |added| && b < |base|
    requires FileSet(base) !! FileSet(added) && UniqueNumbers(FileSet(base) + FileSet(added))
    requires Progress(base, b, added, a, deleted, r) && !BySmallest(added[a], base[b])
    ensures Progress(base, b + 1, added, a, deleted, MaybeAddFile(r, base[b], deleted))
  {
    assert base[b] in FileSet(base) && added[a] in FileSet(added);
    OrderTotal(FileSet(base) + FileSet(added), base[b], added[a]);
    Take(base, b, added, a, base[b], deleted, r);
    assert base[..b + 1] == base[..b] + [base[b]];
  }

  lemma TakeAdded(base: seq<FileMeta>, added: seq<FileMeta>, a: nat, b: nat, deleted: set<nat>, r: seq<FileMeta>)
    requires Ordered(base) && Ordered(added) && a < |added| && b <= |base|
    requires Progress(base, b, added, a, deleted, r) && (b < |base| ==> BySmallest(added[a], base[b]))
    ensures Progress(base, b, added, a + 1, deleted, MaybeAddFile(r, added[a], deleted))
  {
    Take(base, b, added, a, added[a], deleted, r);
    assert added[..a + 1] == added[..a] + [added[a]];
  }

  lemma TakeRest(base: seq<FileMeta>, added: seq<FileMeta>, b: nat, deleted: set<nat>, r: seq<FileMeta>)
    requires Ordered(base) && b < |base| && Progress(base, b, added, |added|, deleted, r)
    ensures Progress(base, b + 1, added, |added|, deleted, MaybeAddFile(r, base[b], deleted))
  {
    Take(base, b, added, |added|, base[b], deleted, r);
    assert base[..b + 1] == base[..b] + [base[b]];
  }

  lemma AllTaken(base: seq<FileMeta>, added: seq<FileMeta>, deleted: set<nat>, r: seq<FileMeta>)
    requires Progress(base, |base|, added, |added|, deleted, r)
    ensures FileSet(r) == Surviving(FileSet(base), LevelState(deleted, FileSet(added)))
  {
    assert base[..|base|] == base && added[..|added|] == added;
  }

  /** A version that a builder can start from, and whose files can be deleted by number. */
  ghost predicate WellNumbered(v: Levels) {
    forall l :: 0 <= l < |v| ==> Ordered(v[l]) && UniqueNumbers(FileSet(v[l]))
  }

  /** `VersionSet::Builder`, with the added `std::set` of each level kept as an ordered list. */
  class Builder {
    const base: Levels
    var deleted: seq<set<nat>>
    var added: seq<seq<FileMeta>>

    ghost predicate Valid()
      reads this
    {
      && |base| == NUM_LEVELS && |deleted| == NUM_LEVELS && |added| == NUM_LEVELS
      && WellNumbered(base)
      && forall l :: 0 <= l < NUM_LEVELS ==>
           Ordered(added[l]) && FileSet(base[l]) !! FileSet(added[l]) && UniqueNumbers(FileSet(base[l]) + FileSet(added[l]))
    }

    /** What the builder has recorded for a level. */
    ghost function State(l: nat): LevelState
      requires Valid() && l < NUM_LEVELS
      reads this
    {
      LevelState(deleted[l], FileSet(added[l]))
    }

    constructor (v: Levels)
      requires |v| == NUM_LEVELS && WellNumbered(v)
      ensures Valid() && base == v
      ensures forall l :: 0 <= l < NUM_LEVELS ==> State(l) == LevelState({}, {})
    {
      base := v;
      deleted := seq(NUM_LEVELS, i => {});
      added := seq(NUM_LEVELS, i => []);
    }

    /** No file of the edit has a number already used in its level. */
    ghost predicate NewNumbers(edit: Edit)
      requires Valid()
      reads this
    {
      && (forall a :: a in edit.added ==> a.0 < NUM_LEVELS)
      && (forall d :: d in edit.deleted ==> d.0 < NUM_LEVELS)
      && forall l :: 0 <= l < NUM_LEVELS ==>
           Numbers(FileSet(base[l]) + FileSet(added[l])) !! Numbers(AddedAt(edit, l)) && UniqueNumbers(AddedAt(edit, l))
    }

    /** Every level ends in the state `ApplyAt` describes. */
    method Apply(edit: Edit)
      requires Valid() && NewNumbers(edit)
      modifies this
      ensures Valid()
      ensures forall l :: 0 <= l < NUM_LEVELS ==> State(l) == ApplyAt(old(State(l)), edit, l)
    {
      hide FileSet;
      RecordDeletions(edit);
      ghost var start := deleted;
      for i := 0 to |edit.added|
        invariant Valid()
        invariant forall l :: 0 <= l < NUM_LEVELS ==>
          State(l) == AddAt(LevelState(start[l], FileSet(old(added)[l])), edit.added[..i], l)
      {
        var level, f := edit.added[i].0, edit.added[i].1;
        assert edit.added[i] in edit.added;
        Fresh(FileSet(base[level]), FileSet(old(added)[level]), edit, i);
        forall l | 0 <= l < NUM_LEVELS {
          AddAtGrows(LevelState(start[l], FileSet(old(added)[l])), edit.added, i, l);
        }
        AddFile(level, f);
      }
      assert edit.added[..|edit.added|] == edit.added;
    }

    method AddFile(level: nat, f: FileMeta)
      requires Valid() && level < NUM_LEVELS
      requires f.number !in Numbers(FileSet(base[level])) && UniqueNumbers(FileSet(added[level]) + {f})
      modifies this
      ensures Valid()
      ensures State(level) == LevelState(old(deleted[level]) - {f.number}, FileSet(old(added[level])) + {f})
      ensures forall l :: 0 <= l < NUM_LEVELS && l != level ==> State(l) == old(State(l))
    {
      deleted := deleted[level := deleted[level] - {f.number}];
      var files := InsertOrdered(added[level], f);
      added := added[level := files];
    }

    method RecordDeletions(edit: Edit)
      requires Valid() && forall d :: d in edit.deleted ==> d.0 < NUM_LEVELS
      modifies this`deleted
      ensures Valid()
      ensures forall l :: 0 <= l < NUM_LEVELS ==> deleted[l] == old(deleted[l]) + DeletedAt(edit, l)
    {
      var todo := edit.deleted;
      while todo != {}
        invariant todo <= edit.deleted && |deleted| == NUM_LEVELS
        invariant forall l :: 0 <= l < NUM_LEVELS ==> deleted[l] + DeletedAt(Edit(todo, []), l) == old(deleted[l]) + DeletedAt(edit, l)
        decreases todo
      {
        var d :| d in todo;
        deleted := deleted[d.0 := deleted[d.0] + {d.1}];
        todo := todo - {d};
      }
    }

    method SaveTo() returns (v: Levels)
      requires Valid()
      ensures |v| == NUM_LEVELS
      ensures forall l :: 0 <= l < NUM_LEVELS ==> Ordered(v[l]) && FileSet(v[l]) == Surviving(FileSet(base[l]), State(l))
    {
      v := [];
      for level := 0 to NUM_LEVELS
        invariant |v| == level
        invariant forall l :: 0 <= l < level ==> Ordered(v[l]) && FileSet(v[l]) == Surviving(FileSet(base[l]), State(l))
      {
        var files := SaveLevel(base[level], added[level], deleted[level]);
        v := v + [files];
      }
    }
  }
}
