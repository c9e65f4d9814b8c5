/**
 The store as a state machine: batch writes, memtable switches and flushes,
 trivial moves, compactions, snapshots.
 */
module DbState {
  import opened Basics
  import opened DbFormat
  import opened Version
  import opened InputSelection
  import opened DropRules
  import opened CompactionWork
  import opened VersionBuilder
  import opened Manifest
  import opened CompactionEffect

  /** `history` records every sequenced operation; it is the specification, not part of the store. */
  datatype State = State(mem: seq<Entry>, imm: Option<seq<Entry>>, version: Levels, nextFile: nat,
                         lastSequence: nat, snapshots: seq<nat>, history: seq<Entry>)

  ghost function ImmEntries(s: State): set<Entry> {
    if s.imm.Some? then ToSet(s.imm.value) else {}
  }

  ghost function All(s: State): set<Entry> {
    ToSet(s.mem) + ImmEntries(s) + Entries(s.version)
  }

  /** `smallest_snapshot`: the oldest live snapshot, or the present. */
  function Oldest(s: State): nat {
    if s.snapshots == [] then s.lastSequence else s.snapshots[0]
  }

  ghost predicate Newer(A: set<Entry>, B: set<Entry>) {
    forall a, b :: a in A && b in B ==> a.key.sequence > b.key.sequence
  }

  ghost predicate Ascending(q: seq<nat>) {
    forall i, j :: 0 <= i < j < |q| ==> q[i] <= q[j]
  }

  /** Every read at or above the oldest snapshot is decided as the history decides it. */
  ghost predicate Faithful(entries: set<Entry>, history: set<Entry>, oldest: nat) {
    forall u, q :: q >= oldest ==> Read(entries, u, q) == Read(history, u, q)
  }

  ghost predicate Structure(s: State) {
    && ValidHistory(s.history) && LastNumber(s.history) <= s.lastSequence < MAX_SEQUENCE
    && Sorted(s.mem) && (s.imm.Some? ==> Sorted(s.imm.value))
    && ValidVersion(s.version) && Numbered(s.version, s.nextFile)
    && Newer(ToSet(s.mem), ImmEntries(s) + Entries(s.version)) && Newer(ImmEntries(s), Entries(s.version))
    && Ascending(s.snapshots) && forall q :: q in s.snapshots ==> q <= s.lastSequence
  }

  ghost predicate Inv(s: State) {
    && Structure(s)
    && All(s) <= ToSet(s.history)
    && Faithful(All(s), ToSet(s.history), Oldest(s))
  }

  // ---------------------------------------------------------------------
  // Steps
  // ---------------------------------------------------------------------

  /** A batch: its operations take the next sequence numbers, in order. */
  ghost predicate WriteStep(s: State, s': State, added: seq<Entry>) {
    && s.lastSequence + |added| < MAX_SEQUENCE
    && (forall i :: 0 <= i < |added| ==> added[i].key.sequence == s.lastSequence + 1 + i)
    && Sorted(s'.mem) && ToSet(s'.mem) == ToSet(s.mem) + ToSet(added)
    && s' == s.(mem := s'.mem, lastSequence := s.lastSequence + |added|, history := s.history + added)
  }

  /** The memtable switch of `MakeRoomForWrite`; its new log draws a file number. */
  ghost predicate SwitchStep(s: State, s': State) {
    s.imm.None? && s' == s.(mem := [], imm := Some(s.mem), nextFile := s.nextFile + 1)
  }

  /** A number drawn for a flushed table: unused, and above those of level 0, where newer tables have higher numbers. */
  ghost predicate FlushNumber(v: Levels, n: nat) {
    Unused(v, n) && 0 < |v| && AllBelow(NumbersAt(v, 0), n)
  }

  /** The table of the immutable memtable, number `n`, goes into a level that may take it. */
  ghost predicate FlushInstalls(s: State, w: Levels, n: nat, level: nat, size: nat)
    requires s.imm.Some? && s.imm.value != []
  {
    var f := MakeFile(n, size, s.imm.value);
    GoodPlace(s.version, level, f) && Installs(s.version, FlushEdit(level, f), w)
  }

  /** `CompactMemTable`: an empty memtable leaves no table behind. */
  ghost predicate FlushStep(s: State, s': State, n: nat, level: nat, size: nat) {
    && s.imm.Some? && s.nextFile <= s'.nextFile
    && if s.imm.value == [] then s' == s.(imm := None, nextFile := s'.nextFile)
       else
         && FlushNumber(s.version, n) && n < s'.nextFile && FlushInstalls(s, s'.version, n, level, size)
         && s' == s.(imm := None, version := s'.version, nextFile := s'.nextFile)
  }

  /** A file moves down one level without being rewritten. */
  ghost predicate MoveStep(s: State, s': State, level: nat, f: FileMeta) {
    && level + 1 < |s.version| && GoodInputs(s.version[level], s.version[level + 1], [f], [])
    && Installs(s.version, CompactionEdit(level, [f], [], [f]), s'.version)
    && s' == s.(version := s'.version)
  }

  /** Everything a compaction does not read: memtables and the other files. */
  ghost function Outside(s: State, level: nat, in0: seq<FileMeta>, in1: seq<FileMeta>): set<Entry> {
    ToSet(s.mem) + ImmEntries(s) + RestEntries(s.version, level, in0, in1)
  }

  /**
   What a compaction goes by when it drops entries: the version and the oldest
   snapshot there were when it began.
   */
  datatype Basis = Basis(version: Levels, snapshot: nat)

  function Now(s: State): Basis {
    Basis(s.version, Oldest(s))
  }

  /** What `DoCompactionWork` makes of inputs selected when the compaction began. */
  ghost predicate Worked(b: Basis, level: nat, in0: seq<FileMeta>, in1: seq<FileMeta>, input: seq<Entry>, outs: seq<FileMeta>) {
    && level + 1 < |b.version| && GoodInputs(b.version[level], b.version[level + 1], in0, in1)
    && Sorted(input) && ToSet(input) == LevelEntries(in0) + LevelEntries(in1)
    && Contents(outs) == Kept(b.version, level, input, |input|, b.snapshot)
    && (forall i :: 0 <= i < |outs| ==> FinishedFile(outs[i]))
  }

  ghost predicate NothingExposed(s: State, b: Basis, level: nat, in0: seq<FileMeta>, in1: seq<FileMeta>, input: seq<Entry>) {
    forall u :: !Exposed(b.version, level, Outside(s, level, in0, in1), input, b.snapshot, u)
  }

  /** Each output has a number of its own that the version does not use. */
  ghost predicate NewNumbers(v: Levels, outs: seq<FileMeta>) {
    && (forall i, j :: 0 <= i < j < |outs| ==> outs[i].number != outs[j].number)
    && forall i :: 0 <= i < |outs| ==> Unused(v, outs[i].number)
  }

  /** Version `w` results from compacting the selected inputs of `v`, the drop rules going by `b`. */
  ghost predicate Compacted(v: Levels, b: Basis, level: nat, in0: seq<FileMeta>, in1: seq<FileMeta>,
                            input: seq<Entry>, outs: seq<FileMeta>, w: Levels) {
    Rewrites(v, b, level, in0, in1, input, outs, w) && NewNumbers(v, outs)
  }

  ghost predicate Rewrites(v: Levels, b: Basis, level: nat, in0: seq<FileMeta>, in1: seq<FileMeta>,
                           input: seq<Entry>, outs: seq<FileMeta>, w: Levels) {
    && level + 1 < |v| && GoodInputs(v[level], v[level + 1], in0, in1)
    && Sorted(input) && ToSet(input) == LevelEntries(in0) + LevelEntries(in1)
    && Contents(outs) == Kept(b.version, level, input, |input|, b.snapshot)
    && (forall i :: 0 <= i < |outs| ==> FinishedFile(outs[i]))
    && Installs(v, CompactionEdit(level, in0, in1, outs), w)
  }

  /** A compaction whose drops expose nothing (see `DropRules.ReadsPreservedIff`). */
  ghost predicate CompactStep(s: State, s': State, b: Basis, level: nat, in0: seq<FileMeta>, in1: seq<FileMeta>, input: seq<Entry>, outs: seq<FileMeta>) {
    && Compacted(s.version, b, level, in0, in1, input, outs, s'.version)
    && b.snapshot <= Oldest(s) && NothingExposed(s, b, level, in0, in1, input)
    && s.nextFile <= s'.nextFile && (forall i :: 0 <= i < |outs| ==> outs[i].number < s'.nextFile)
    && s' == s.(version := s'.version, nextFile := s'.nextFile)
  }

  ghost predicate SnapshotStep(s: State, s': State) {
    s' == s.(snapshots := s.snapshots + [s.lastSequence])
  }

  ghost predicate ReleaseStep(s: State, s': State, i: nat) {
    i < |s.snapshots| && s' == s.(snapshots := s.snapshots[..i] + s.snapshots[i + 1..])
  }

  // ---------------------------------------------------------------------
  // Runs
  // ---------------------------------------------------------------------

  datatype Action =
    | Write(added: seq<Entry>)
    | Switch
    | Flush(number: nat, level: nat, size: nat)
    | Move(level: nat, file: FileMeta)
    | Compact(basis: Basis, level: nat, in0: seq<FileMeta>, in1: seq<FileMeta>, input: seq<Entry>, outs: seq<FileMeta>)
    | TakeSnapshot
    | ReleaseSnapshot(index: nat)

  ghost predicate Step(s: State, a: Action, s': State) {
    match a
    case Write(added) => WriteStep(s, s', added)
    case Switch => SwitchStep(s, s')
    case Flush(n, level, size) => FlushStep(s, s', n, level, size)
    case Move(level, f) => MoveStep(s, s', level, f)
    case Compact(b, level, in0, in1, input, outs) => CompactStep(s, s', b, level, in0, in1, input, outs)
    case TakeSnapshot => SnapshotStep(s, s')
    case ReleaseSnapshot(i) => ReleaseStep(s, s', i)
  }

  /**
   Of the steps the machine admits, those the background thread takes: a
   memtable goes to the level that is picked for it, and one that waits is
   flushed before any compaction begins.
   */
  ghost predicate Scheduled(s: State, a: Action, targetFileSize: nat) {
    match a
    case Flush(n, level, size) => s.imm.Some? && s.imm.value != [] ==> PickedFor(s.version, s.imm.value, targetFileSize, level)
    case Move(level, f) => s.imm.None?
    case Compact(b, level, in0, in1, input, outs) => s.imm.None? && b == Now(s)
    case _ => true
  }

  ghost predicate PickedFor(v: Levels, es: seq<Entry>, targetFileSize: nat, level: nat)
    requires es != []
  {
    IsPick(v, es[0].key.user, es[|es| - 1].key.user, targetFileSize, level)
  }

  ghost predicate IsScheduledRun(states: seq<State>, actions: seq<Action>, targetFileSize: nat) {
    IsRun(states, actions) && forall i :: 0 <= i < |actions| ==> Scheduled(states[i], actions[i], targetFileSize)
  }

  function Initial(): State {
    State([], None, EMPTY, 2, 0, [], [])
  }

  ghost predicate IsRun(states: seq<State>, actions: seq<Action>) {
    && |states| == |actions| + 1 && states[0] == Initial()
    && forall i :: 0 <= i < |actions| ==> Step(states[i], actions[i], states[i + 1])
  }
}
