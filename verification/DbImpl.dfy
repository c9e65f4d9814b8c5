/**
 `DBImpl`: each public operation and each background job is a step of the
 state machine, so the invariant holds between any two of them.
 */
module DbImpl {
  import opened Basics
  import opened DbFormat
  import opened Version
  import opened InputSelection
  import opened DropRules
  import opened CompactionWork
  import opened VersionBuilder
  import opened Manifest
  import opened CompactionEffect
  import opened EdgeClosure
  import opened DbState
  import Db

  /** One operation of a write batch. */
  datatype Op = Put(user: UserKey, value: Bytes) | Delete(user: UserKey)

  function Sequenced(op: Op, sequence: nat): Entry {
    match op
    case Put(u, v) => Entry(InternalKey(u, sequence, Value), v)
    case Delete(u) => Entry(InternalKey(u, sequence, Deletion), [])
  }

  /** The entries a batch becomes when its first operation gets number `first`. */
  function SequencedAll(batch: seq<Op>, first: nat): (es: seq<Entry>)
    ensures |es| == |batch| && forall i :: 0 <= i < |es| ==> es[i] == Sequenced(batch[i], first + i)
    decreases |batch|
  {
    if batch == [] then []
    else SequencedAll(batch[..|batch| - 1], first) + [Sequenced(batch[|batch| - 1], first + |batch| - 1)]
  }

  // ---------------------------------------------------------------------
  // The inputs of a compaction share no internal key
  // ---------------------------------------------------------------------

  lemma OrderedNoDuplicates(files: seq<FileMeta>)
    requires Ordered(files)
    ensures NoDuplicates(files)
  {
    forall i, j | 0 <= i < j < |files| ensures files[i] != files[j] {
      assert BySmallest(files[i], files[j]);
    }
  }

  lemma LevelsReady(s: State)
    requires Inv(s)
    ensures |s.version| == NUM_LEVELS && forall l :: 0 <= l < |s.version| ==> ValidLevel(l, s.version[l])
  {
    HistoryDistinct(s.history);
    Db.DistinctSubset(Entries(s.version), ToSet(s.history));
    OrderedNoDuplicates(s.version[0]);
    ValidLevels(s.version);
  }

  /** Two different files of one level hold no common key. */
  lemma FilesDiffer(level: nat, files: seq<FileMeta>, f: FileMeta, g: FileMeta, x: Entry, y: Entry)
    requires ValidFiles(files) && (level > 0 ==> SortedDisjoint(files)) && (level == 0 ==> NewerByNumber(files))
    requires f in files && g in files && f != g && x in f.entries && y in g.entries
    ensures x.key != y.key
  {
    if level == 0 {
      assert f.number != g.number;
      assert Above(FileEntries(f), FileEntries(g)) || Above(FileEntries(g), FileEntries(f));
      assert x in FileEntries(f) && y in FileEntries(g);
    } else {
      ApartFromSorted(files, f, g);
      FileBounds(f, x);
      FileBounds(g, y);
    }
  }

  lemma LevelsDiffer(v: Levels, l: nat, m: nat, f: FileMeta, g: FileMeta, x: Entry, y: Entry)
    requires LevelsOrdered(v) && l < m < |v| && f in v[l] && g in v[m] && x in f.entries && y in g.entries
    ensures x.key != y.key
  {
    InLevel(v[l], f, x);
    InLevel(v[m], g, y);
    assert Above(LevelEntries(v[l]), LevelEntries(v[m]));
  }

  lemma InputsDisjoint(v: Levels, level: nat, in0: seq<FileMeta>, in1: seq<FileMeta>)
    requires ValidVersion(v) && level + 1 < |v| && NoDuplicates(in0) && NoDuplicates(in1)
    requires (forall f :: f in in0 ==> f in v[level]) && (forall f :: f in in1 ==> f in v[level + 1])
    ensures DisjointKeys(in0 + in1) && ValidFiles(in0 + in1)
    ensures LevelEntries(in0 + in1) == LevelEntries(in0) + LevelEntries(in1)
  {
    var files := in0 + in1;
    forall i, j, x, y | 0 <= i < j < |files| && x in files[i].entries && y in files[j].entries ensures x.key != y.key {
      var f, g := files[i], files[j];
      if j < |in0| {
        FilesDiffer(level, v[level], f, g, x, y);
      } else {
        assert g == in1[j - |in0|] && g in in1;
        if i < |in0| {
          LevelsDiffer(v, level, level + 1, f, g, x, y);
        } else {
          assert f == in1[i - |in0|] && f in in1;
          FilesDiffer(level + 1, v[level + 1], f, g, x, y);
        }
      }
    }
  }

  lemma InputsReady(v: Levels, level: nat, in0: seq<FileMeta>, in1: seq<FileMeta>)
    requires ValidVersion(v) && level + 1 < |v| && GoodInputs(v[level], v[level + 1], in0, in1)
    ensures DisjointKeys(in0 + in1) && ValidFiles(in0 + in1)
    ensures LevelEntries(in0 + in1) == LevelEntries(in0) + LevelEntries(in1)
  {
    var next := v[level + 1];
    var lo, hi :| Spans(in0, lo, hi) && in1 == OverlappingFiles(next, Some(lo), Some(hi));
    SortedNoDuplicates(next);
    OverlapNoDuplicates(next, |next|, Some(lo), Some(hi));
    InputsDisjoint(v, level, in0, in1);
  }

  // ---------------------------------------------------------------------
  // Safety of a compaction, in terms a caller can look up in the version
  // ---------------------------------------------------------------------

  lemma ClosedIsUnexposed(s: State, level: nat, in0: seq<FileMeta>, in1: seq<FileMeta>, input: seq<Entry>)
    requires Inv(s) && level + 1 < |s.version| && GoodInputs(s.version[level], s.version[level + 1], in0, in1)
    requires ToSet(input) == LevelEntries(in0) + LevelEntries(in1)
    requires UpperEdgeClosed(s.version[level + 1], in1)
    ensures NothingExposed(s, Now(s), level, in0, in1, input)
  {
    var newer := ToSet(s.mem) + ImmEntries(s);
    Db.SplitStore(s, level, in0, in1, input);
    assert Above(newer, ToSet(input));
    forall u ensures !Exposed(s.version, level, Outside(s, level, in0, in1), input, Oldest(s), u) {
      EdgeClosedIsSafe(s.version, level, in0, in1, newer, input, Oldest(s), u);
    }
  }

  // ---------------------------------------------------------------------
  // What each operation computes
  // ---------------------------------------------------------------------

  /** `WriteBatchInternal::InsertInto`: the batch's entries go into the memtable one by one. */
  method InsertInto(mem: seq<Entry>, added: seq<Entry>, ghost s: State) returns (r: seq<Entry>)
    requires Inv(s) && mem == s.mem && Db.Ascends(added, s.lastSequence)
    ensures Sorted(r) && ToSet(r) == ToSet(mem) + ToSet(added)
  {
    r := mem;
    for i := 0 to |added|
      invariant Sorted(r) && ToSet(r) == ToSet(mem) + ToSet(added[..i])
    {
      assert added[..i + 1] == added[..i] + [added[i]];
      NewKey(s, added[..i], added[i]);
      r := Insert(r, added[i]);
    }
    assert added[..|added|] == added;
  }

  /** The memtable after a batch, whose operations take the next sequence numbers. */
  method InsertBatch(mem: seq<Entry>, batch: seq<Op>, first: nat, ghost s: State) returns (r: seq<Entry>, ghost s': State)
    requires Inv(s) && mem == s.mem && first == s.lastSequence + 1 && s.lastSequence + |batch| < MAX_SEQUENCE
    ensures s' == s.(mem := r, lastSequence := s.lastSequence + |batch|, history := s.history + SequencedAll(batch, first))
    ensures Inv(s') && Step(s, Action.Write(SequencedAll(batch, first)), s')
  {
    var added := SequencedAll(batch, first);
    r := InsertInto(mem, added, s);
    s' := s.(mem := r, lastSequence := s.lastSequence + |batch|, history := s.history + added);
    Written(s, s', batch, added);
  }

  method Insert(mem: seq<Entry>, e: Entry) returns (r: seq<Entry>)
    requires Sorted(mem) && forall x :: x in ToSet(mem) ==> x.key != e.key
    ensures Sorted(r) && ToSet(r) == ToSet(mem) + {e}
  {
    assert forall x :: x in mem ==> x in ToSet(mem);
    MergeSorted(mem, [e]);
    r := Merge(mem, [e]);
  }

  /** Builds the table of the immutable memtable, if it has any entry, and installs it. */
  method WriteLevel0Table(imm: seq<Entry>, version: Levels, nextFile: nat, size: nat, targetFileSize: nat, ghost s: State)
    returns (level: nat, w: Levels)
    requires Inv(s) && s.imm == Some(imm) && version == s.version && nextFile == s.nextFile
    ensures FlushStep(s, s.(imm := None, version := w, nextFile := nextFile + 1), nextFile, level, size)
    ensures Scheduled(s, Flush(nextFile, level, size), targetFileSize)
  {
    level, w := 0, version;
    if imm != [] {
      var f := MakeFile(nextFile, size, imm);
      Db.MemtableFile(s, f);
      level := PickLevelForMemTableOutput(version, f.smallest.user, f.largest.user, targetFileSize);
      PickedPlace(version, level, f, targetFileSize);
      Db.NextIsFlushNumber(version, nextFile);
      FlushAdds(version, nextFile, level, f, version);
      w := LogAndApply(version, FlushEdit(level, f));
    }
  }

  ghost predicate Selected(v: Levels, c: Compaction) {
    c.level + 1 < |v| && GoodInputs(v[c.level], v[c.level + 1], c.in0, c.in1)
  }

  ghost predicate EdgeClosed(v: Levels, c: Compaction)
    requires c.level + 1 < |v|
  {
    UpperEdgeClosed(v[c.level + 1], c.in1)
  }

  method MoveFile(version: Levels, c: Compaction, ghost s: State) returns (w: Levels)
    requires Inv(s) && version == s.version && Selected(version, c) && |c.in0| == 1 && c.in1 == []
    ensures MoveStep(s, s.(version := w), c.level, c.in0[0])
  {
    var f := c.in0[0];
    assert c.in0 == [f] && f in c.in0;
    Db.MovedFresh(version, s.nextFile, c.level, f);
    EditLegal(version, c.level, [f], [], [f]);
    w := LogAndApply(version, CompactionEdit(c.level, [f], [], [f]));
  }

  method Rewrite(version: Levels, c: Compaction, nextFile: nat, snapshot: nat, sizes: nat -> nat, ghost s: State)
    returns (w: Levels, next: nat, ghost input: seq<Entry>, ghost outs: seq<FileMeta>)
    requires Inv(s) && version == s.version && nextFile == s.nextFile && snapshot == Oldest(s) && Selected(version, c)
    ensures Compacted(s.version, Now(s), c.level, c.in0, c.in1, input, outs, w) && next == s.nextFile + |outs|
    ensures forall i :: 0 <= i < |outs| ==> outs[i].number < next
  {
    InputsReady(version, c.level, c.in0, c.in1);
    var merged := MakeInput(c.in0 + c.in1);
    var cursor := new Cursor(version, c.level);
    OldestInRange(s);
    var outputs;
    outputs, next := DoCompactionWork(cursor, merged, snapshot, nextFile, sizes);
    Db.ConsecutiveAreNew(version, nextFile, outputs);
    Db.FreshNumbers(version, c.level, outputs);
    EditLegal(version, c.level, c.in0, c.in1, outputs);
    w := LogAndApply(version, CompactionEdit(c.level, c.in0, c.in1, outputs));
    input, outs := merged, outputs;
  }

  /** A trivial move if possible, else a rewrite. */
  method CarryOut(version: Levels, c: Compaction, nextFile: nat, snapshot: nat, manual: bool, targetFileSize: nat, sizes: nat -> nat, ghost s: State)
    returns (w: Levels, next: nat, ghost a: Action, ghost s': State)
    requires Inv(s) && version == s.version && nextFile == s.nextFile && snapshot == Oldest(s) && Selected(version, c)
    ensures s' == s.(version := w, nextFile := next) && (s.imm.None? ==> Scheduled(s, a, targetFileSize))
    ensures Structure(s') && (EdgeClosed(version, c) ==> Inv(s') && Step(s, a, s'))
  {
    if !manual && |c.in0| == 1 && c.in1 == [] && TotalFileSize(c.grandparents) <= 10 * targetFileSize {
      w, s' := MoveOne(version, c, s);
      next := nextFile;
      a := Move(c.level, c.in0[0]);
    } else {
      w, next, a, s' := RewriteAll(version, c, nextFile, snapshot, sizes, s);
    }
  }

  method MoveOne(version: Levels, c: Compaction, ghost s: State) returns (w: Levels, ghost s': State)
    requires Inv(s) && version == s.version && Selected(version, c) && |c.in0| == 1 && c.in1 == []
    ensures s' == s.(version := w) && Inv(s') && Step(s, Move(c.level, c.in0[0]), s')
  {
    w := MoveFile(version, c, s);
    s' := s.(version := w);
    Db.MoveKeeps(s, s', c.level, c.in0[0]);
  }

  method RewriteAll(version: Levels, c: Compaction, nextFile: nat, snapshot: nat, sizes: nat -> nat, ghost s: State)
    returns (w: Levels, next: nat, ghost a: Action, ghost s': State)
    requires Inv(s) && version == s.version && nextFile == s.nextFile && snapshot == Oldest(s) && Selected(version, c)
    ensures s' == s.(version := w, nextFile := next) && a.Compact? && a.basis == Now(s)
    ensures Structure(s') && (EdgeClosed(s.version, c) ==> Inv(s') && Step(s, a, s'))
  {
    ghost var input;
    ghost var outs;
    w, next, input, outs := Rewrite(version, c, nextFile, snapshot, sizes, s);
    s' := s.(version := w, nextFile := next);
    a := Compact(Now(s), c.level, c.in0, c.in1, input, outs);
    RewriteOutcome(s, s', c, input, outs, a);
  }

  lemma OldestInRange(s: State)
    requires Structure(s)
    ensures Oldest(s) < MAX_SEQUENCE
  {
    assert s.snapshots != [] ==> s.snapshots[0] in s.snapshots;
  }

  lemma InvIsStructure(s: State)
    requires Inv(s)
    ensures Structure(s)
  {
  }

  /** What to compact: a file of some level, or a range asked for by hand. */
  datatype Choice = Automatic(level: nat, file: nat) | Manual(level: nat, begin: Option<UserKey>, end: Option<UserKey>)

  /** A good selection; one that starts from a single file has no gaps. */
  ghost predicate ChosenFor(v: Levels, choice: Choice, c: Compaction) {
    && Selected(v, c) && c.level == choice.level
    && (choice.Automatic? ==> GapFree(v[c.level + 1], c.in0, c.in1))
  }

  ghost predicate Closed(v: Levels, c: Compaction) {
    c.level + 1 < |v| && EdgeClosed(v, c)
  }

  predicate MayChoose(v: Levels, choice: Choice) {
    choice.level + 1 < |v| && (choice.Automatic? ==> choice.file < |v[choice.level]|)
  }

  class DBImpl {
    var mem: seq<Entry>
    var imm: Option<seq<Entry>>
    var version: Levels
    var nextFile: nat
    var lastSequence: nat
    var snapshots: seq<nat>
    ghost var history: seq<Entry>

    ghost function View(): State
      reads this
    {
      State(mem, imm, version, nextFile, lastSequence, snapshots, history)
    }

    ghost predicate Valid()
      reads this
    {
      Inv(View())
    }

    constructor ()
      ensures Valid() && View() == Initial()
    {
      mem, imm, version, nextFile, lastSequence, snapshots, history := [], None, EMPTY, 2, 0, [], [];
      new;
      Db.InitialInv();
    }

    /** A read without a snapshot sees the present; with one, the past it names. */
    method Get(u: UserKey, snapshot: Option<nat>) returns (r: Option<Bytes>)
      requires Valid() && (snapshot.Some? ==> snapshot.value in snapshots)
      ensures r == LastWrite(history, u, if snapshot.Some? then snapshot.value else lastSequence)
    {
      var q := if snapshot.Some? then snapshot.value else lastSequence;
      OldestIsLeast(View(), q);
      r := Db.Get(mem, imm, version, u, q, View());
    }

    method Write(batch: seq<Op>)
      requires Valid() && lastSequence + |batch| < MAX_SEQUENCE
      modifies this
      ensures Valid() && history == old(history) + SequencedAll(batch, old(lastSequence) + 1)
      ensures Step(old(View()), Action.Write(SequencedAll(batch, old(lastSequence) + 1)), View())
    {
      hide Inv, Step;
      ghost var after;
      history := history + SequencedAll(batch, lastSequence + 1);
      mem, after := InsertBatch(mem, batch, lastSequence + 1, old(View()));
      lastSequence := lastSequence + |batch|;
      assert View() == after;
    }

    /** The switch inside `MakeRoomForWrite`. */
    method SwitchMemTable()
      requires Valid() && imm.None?
      modifies this
      ensures Valid() && Step(old(View()), Switch, View())
    {
      ghost var before := View();
      imm := Some(mem);
      mem := [];
      nextFile := nextFile + 1;
      Db.SwitchKeeps(before, View());
    }

    method CompactMemTable(size: nat, targetFileSize: nat) returns (ghost level: nat)
      requires Valid() && imm.Some?
      modifies this
      ensures Valid() && Step(old(View()), Flush(old(nextFile), level, size), View())
      ensures Scheduled(old(View()), Flush(old(nextFile), level, size), targetFileSize)
      ensures history == old(history) && snapshots == old(snapshots)
    {
      hide Inv;
      ghost var before := View();
      level, version := WriteLevel0Table(imm.value, version, nextFile, size, targetFileSize, before);
      imm := None;
      nextFile := nextFile + 1;
      Db.FlushKeeps(before, View(), before.nextFile, level, size);
    }

    /**
     A chosen compaction, carried out.  Whatever the inputs, the levels stay in
     order; if no user key is split at the upper edge of `in1`, reads are kept too.
     */
    method RunCompaction(c: Compaction, manual: bool, targetFileSize: nat, sizes: nat -> nat) returns (ghost a: Action)
      requires Valid() && Selected(version, c)
      modifies this
      ensures Structure(View()) && history == old(history) && snapshots == old(snapshots)
      ensures EdgeClosed(old(version), c) ==> Valid() && Step(old(View()), a, View())
      ensures old(imm).None? ==> Scheduled(old(View()), a, targetFileSize)
    {
      hide Inv, Step, Structure;
      ghost var after;
      version, nextFile, a, after :=
        CarryOut(version, c, nextFile, if snapshots == [] then lastSequence else snapshots[0], manual, targetFileSize, sizes, View());
      assert View() == after;
    }

    /** A waiting memtable goes first; otherwise a compaction is chosen and carried out, if there is one. */
    method BackgroundCompaction(choice: Option<Choice>, size: nat, targetFileSize: nat, sizes: nat -> nat)
      returns (ghost a: Option<Action>, ghost c: Option<Compaction>)
      requires Valid() && (choice.Some? ==> MayChoose(version, choice.value))
      modifies this
      ensures Structure(View()) && history == old(history) && snapshots == old(snapshots)
      ensures a.Some? ==> Scheduled(old(View()), a.value, targetFileSize)
      ensures old(imm).Some? ==> Valid() && c == None && a.Some? && a.value.Flush? && Step(old(View()), a.value, View())
      ensures c.None? && old(imm).None? ==> View() == old(View())
      ensures c.Some? ==> a.Some? && choice.Some? && ChosenFor(old(version), choice.value, c.value)
      ensures c.Some? && Closed(old(version), c.value) ==> Valid() && Step(old(View()), a.value, View())
    {
      hide Inv, Step, Structure, Scheduled, GoodInputs, GapFree, ValidLevel, UpperEdgeClosed;
      a, c := None, None;
      InvIsStructure(View());
      if imm.Some? {
        ghost var level := CompactMemTable(size, targetFileSize);
        a := Some(Flush(old(nextFile), level, size));
        InvIsStructure(View());
        return;
      }
      if choice.None? {
        return;
      }
      LevelsReady(View());
      var chosen: Option<Compaction>;
      match choice.value {
        case Automatic(level, i) =>
          var r := PickCompaction(version, level, i, targetFileSize);
          chosen := Some(r);
        case Manual(level, begin, end) =>
          chosen := CompactRange(version, level, begin, end, targetFileSize);
      }
      if chosen.Some? {
        ghost var action := RunCompaction(chosen.value, choice.value.Manual?, targetFileSize, sizes);
        a, c := Some(action), chosen;
      }
    }

    method GetSnapshot() returns (sequence: nat)
      requires Valid()
      modifies this
      ensures Valid() && sequence in snapshots && Step(old(View()), TakeSnapshot, View())
    {
      ghost var before := View();
      sequence := lastSequence;
      snapshots := snapshots + [sequence];
      Db.SnapshotKeeps(before, View());
    }

    method ReleaseSnapshot(i: nat)
      requires Valid() && i < |snapshots|
      modifies this
      ensures Valid() && Step(old(View()), Action.ReleaseSnapshot(i), View())
    {
      ghost var before := View();
      snapshots := snapshots[..i] + snapshots[i + 1..];
      Db.ReleaseKeeps(before, View(), i);
    }
  }

  lemma OldestIsLeast(s: State, q: nat)
    requires Structure(s) && (q in s.snapshots || q == s.lastSequence)
    ensures Oldest(s) <= q
  {
    if s.snapshots != [] {
      assert s.snapshots[0] in s.snapshots;
    }
  }

  /** A newly sequenced entry has a key the memtable does not hold. */
  lemma NewKey(s: State, added: seq<Entry>, e: Entry)
    requires Inv(s) && e.key.sequence > s.lastSequence
    requires forall i :: 0 <= i < |added| ==> added[i].key.sequence < e.key.sequence
    ensures forall x :: x in ToSet(s.mem) + ToSet(added) ==> x.key != e.key
  {
    Db.HistoryBelow(s);
    forall x | x in ToSet(s.mem) ensures x.key.sequence <= s.lastSequence {
      assert x in All(s) && x in ToSet(s.history);
    }
  }

  lemma RewriteOutcome(s: State, s': State, c: Compaction, input: seq<Entry>, outs: seq<FileMeta>, a: Action)
    requires Inv(s) && Compacted(s.version, Now(s), c.level, c.in0, c.in1, input, outs, s'.version)
    requires s.nextFile <= s'.nextFile && (forall i :: 0 <= i < |outs| ==> outs[i].number < s'.nextFile)
    requires s' == s.(version := s'.version, nextFile := s'.nextFile) && a == Compact(Now(s), c.level, c.in0, c.in1, input, outs)
    ensures Structure(s') && (EdgeClosed(s.version, c) ==> Inv(s') && Step(s, a, s'))
  {
    StillStructured(s, s', c, input, outs);
    if EdgeClosed(s.version, c) {
      Rewritten(s, s', c, input, outs);
    }
  }

  lemma Written(s: State, s': State, batch: seq<Op>, added: seq<Entry>)
    requires Inv(s) && added == SequencedAll(batch, s.lastSequence + 1) && s.lastSequence + |added| < MAX_SEQUENCE
    requires Sorted(s'.mem) && ToSet(s'.mem) == ToSet(s.mem) + ToSet(added)
    requires s' == s.(mem := s'.mem, lastSequence := s.lastSequence + |added|, history := s.history + added)
    ensures Inv(s') && Step(s, Action.Write(added), s')
  {
    assert WriteStep(s, s', added);
    Db.WriteKeeps(s, s', added);
  }

  lemma StillStructured(s: State, s': State, c: Compaction, input: seq<Entry>, outs: seq<FileMeta>)
    requires Inv(s) && Compacted(s.version, Now(s), c.level, c.in0, c.in1, input, outs, s'.version)
    requires s.nextFile <= s'.nextFile && (forall i :: 0 <= i < |outs| ==> outs[i].number < s'.nextFile)
    requires s' == s.(version := s'.version, nextFile := s'.nextFile)
    ensures Structure(s')
  {
    Db.SplitStore(s, c.level, c.in0, c.in1, input);
    Db.InputSequences(s, input);
    Db.CompactVersionFacts(s.version, s.nextFile, Now(s), c.level, c.in0, c.in1, input, outs, s'.version, s'.nextFile);
    Db.KeptWithin(s.version, c.level, input, Oldest(s));
    Db.WithVersion(s, s');
  }

  lemma ClosedStep(s: State, s': State, c: Compaction, input: seq<Entry>, outs: seq<FileMeta>)
    requires Inv(s) && Compacted(s.version, Now(s), c.level, c.in0, c.in1, input, outs, s'.version)
    requires s.nextFile <= s'.nextFile && (forall i :: 0 <= i < |outs| ==> outs[i].number < s'.nextFile)
    requires s' == s.(version := s'.version, nextFile := s'.nextFile) && EdgeClosed(s.version, c)
    ensures CompactStep(s, s', Now(s), c.level, c.in0, c.in1, input, outs)
  {
    ClosedIsUnexposed(s, c.level, c.in0, c.in1, input);
  }

  lemma Rewritten(s: State, s': State, c: Compaction, input: seq<Entry>, outs: seq<FileMeta>)
    requires Inv(s) && Compacted(s.version, Now(s), c.level, c.in0, c.in1, input, outs, s'.version)
    requires s.nextFile <= s'.nextFile && (forall i :: 0 <= i < |outs| ==> outs[i].number < s'.nextFile)
    requires s' == s.(version := s'.version, nextFile := s'.nextFile) && EdgeClosed(s.version, c)
    ensures Inv(s') && Step(s, Compact(Now(s), c.level, c.in0, c.in1, input, outs), s')
  {
    ClosedStep(s, s', c, input, outs);
    Db.CompactKeeps(s, s', Now(s), c.level, c.in0, c.in1, input, outs);
  }
}
