/**
 The store together with what it has put on disk: logs, tables and manifest.
 Between any two steps, replaying the logs the manifest asks for on top of the
 tables it names accounts for every acknowledged write.
 */
module Durability {
  import opened Basics
  import opened DbFormat
  import opened Version
  import opened InputSelection
  import opened DropRules
  import opened CompactionWork
  import opened VersionBuilder
  import opened Manifest
  import opened CompactionEffect
  import opened EdgeClosure
  import opened Meanwhile
  import opened DbState
  import Db
  import DbImpl

  /** Records appended so far, the first `synced` of which a power loss cannot take. */
  datatype LogFile = LogFile(records: seq<seq<Entry>>, synced: nat)

  /** What a reader of the manifest learns from it. */
  datatype Descriptor = Descriptor(version: Levels, logNumber: nat, nextFile: nat, lastSequence: nat)

  /**
   `active` is the current log.  A batch is `pending` once it is in the log but
   not in the memtable.  `outputs` are the tables built and not yet committed,
   with what their jobs wrote into them (`pending_outputs_`); one of them may be
   the table `flushing` the immutable memtable.  `job` is what a compaction under
   way goes by; flushes may be committed before it is.  `held` are the versions
   that are referenced, as often as they are, by readers, iterators and the
   compaction under way.  The rest is known only to the
   proof: the log of the immutable memtable, how many writes are in tables, how
   many were made before the last switch, and which writes were acknowledged to
   writers that asked for a sync.
   */
  datatype Durable = Durable(s: State, logs: map<nat, LogFile>, tables: map<nat, seq<Entry>>, manifest: Descriptor,
                             active: nat, pending: Option<seq<Entry>>, outputs: map<nat, seq<Entry>>, flushing: Option<nat>, job: Option<Basis>, held: multiset<Levels>,
                             immLog: nat, flushed: nat, switched: nat, syncAcked: set<Entry>)

  function Flatten(records: seq<seq<Entry>>): seq<Entry> {
    if records == [] then [] else Flatten(records[..|records| - 1]) + records[|records| - 1]
  }

  function PendingEntries(d: Durable): seq<Entry> {
    if d.pending.Some? then d.pending.value else []
  }

  // ---------------------------------------------------------------------
  // The invariant
  // ---------------------------------------------------------------------

  ghost predicate Cuts(d: Durable) {
    && d.flushed <= d.switched <= |d.s.history| && (d.s.imm.None? ==> d.flushed == d.switched)
    && ToSet(d.s.mem) == ToSet(d.s.history[d.switched..])
    && (d.s.imm.Some? ==> ToSet(d.s.imm.value) == ToSet(d.s.history[d.flushed..d.switched]))
  }

  /** The logs a recovery would replay, and what they hold. */
  ghost predicate LogsHold(d: Durable)
    requires Cuts(d)
  {
    && d.manifest.logNumber <= d.active && d.active in d.logs
    && Flatten(d.logs[d.active].records) == d.s.history[d.switched..] + PendingEntries(d)
    && (d.s.imm.Some? ==>
          && d.manifest.logNumber <= d.immLog < d.active && d.immLog in d.logs
          && Flatten(d.logs[d.immLog].records) == d.s.history[d.flushed..d.switched])
    && (forall n :: n in d.logs && n >= d.manifest.logNumber ==> n == d.active || (d.s.imm.Some? && n == d.immLog))
    && (forall n :: n in d.logs ==> n < d.s.nextFile)
  }

  /** The tables alone answer like the first `n` writes alone. */
  ghost predicate TablesFaithful(v: Levels, history: seq<Entry>, n: nat) {
    n <= |history| && Entries(v) <= ToSet(history[..n]) && Faithful(Entries(v), ToSet(history[..n]), LastNumber(history[..n]))
  }

  /** Every output is on disk as its job wrote it, under a number below the counter that no version uses. */
  ghost predicate OutputsOk(d: Durable) {
    && (forall n :: n in d.outputs ==> OutputOk(d, n))
    && (d.flushing.Some? ==> FlushingOk(d, d.flushing.value))
  }

  ghost predicate OutputOk(d: Durable, n: nat)
    requires n in d.outputs
  {
    n < d.s.nextFile && Unused(d.s.version, n) && n in d.tables && d.tables[n] == d.outputs[n]
  }

  /** No table flushed meanwhile can have come between. */
  ghost predicate FlushingOk(d: Durable, n: nat) {
    && n in d.outputs && d.s.imm.Some? && d.outputs[n] == d.s.imm.value
    && 0 < |d.s.version| && AllBelow(NumbersAt(d.s.version, 0), n)
  }

  ghost predicate LiveTable(v: Levels, n: nat) {
    exists l :: 0 <= l < |v| && n in NumbersAt(v, l)
  }

  ghost predicate OnDisk(f: FileMeta, tables: map<nat, seq<Entry>>) {
    f.number in tables && tables[f.number] == f.entries
  }

  ghost predicate TablesOnDisk(v: Levels, tables: map<nat, seq<Entry>>) {
    forall l, f :: 0 <= l < |v| && f in v[l] ==> OnDisk(f, tables)
  }

  ghost predicate ManifestCurrent(d: Durable)
    requires Cuts(d)
  {
    && d.manifest.version == d.s.version && Numbered(d.s.version, d.manifest.nextFile)
    && d.manifest.nextFile <= d.s.nextFile
    && LastNumber(d.s.history[..d.flushed]) <= d.manifest.lastSequence <= d.s.lastSequence
  }

  ghost predicate SyncedIn(log: LogFile, acked: set<Entry>) {
    && log.synced <= |log.records|
    && forall e :: e in acked && e in Flatten(log.records) ==> e in Flatten(log.records[..log.synced])
  }

  ghost predicate SyncKept(d: Durable) {
    && d.syncAcked <= ToSet(d.s.history)
    && forall n :: n in d.logs && n >= d.manifest.logNumber ==> SyncedIn(d.logs[n], d.syncAcked)
  }

  ghost predicate PendingOk(d: Durable) {
    && d.s.lastSequence + |PendingEntries(d)| < MAX_SEQUENCE
    && (forall i :: 0 <= i < |PendingEntries(d)| ==> PendingEntries(d)[i].key.sequence == d.s.lastSequence + 1 + i)
  }

  /** Since the compaction under way began, flushes have added files, and no older snapshot has come. */
  ghost predicate JobOk(d: Durable) {
    d.job.Some? ==> BasisHolds(d.job.value, d.s)
  }

  ghost predicate BasisHolds(b: Basis, s: State) {
    ValidVersion(b.version) && Grown(b.version, s.version) && b.snapshot <= Oldest(s)
  }

  /** The files of every referenced version are there, whether or not it is still the current one. */
  ghost predicate HeldOk(held: multiset<Levels>, tables: map<nat, seq<Entry>>, next: nat) {
    forall v :: v in held ==> TablesOnDisk(v, tables) && NumbersBelow(v, next)
  }

  ghost predicate NumbersBelow(v: Levels, next: nat) {
    forall l, f :: 0 <= l < |v| && f in v[l] ==> f.number < next
  }

  ghost predicate DurInv(d: Durable) {
    && Inv(d.s) && Cuts(d) && LogsHold(d) && TablesFaithful(d.s.version, d.s.history, d.flushed)
    && TablesOnDisk(d.s.version, d.tables) && ManifestCurrent(d) && SyncKept(d) && PendingOk(d)
    && OutputsOk(d) && JobOk(d) && HeldOk(d.held, d.tables, d.s.nextFile)
  }

  // ---------------------------------------------------------------------
  // Steps
  // ---------------------------------------------------------------------

  /** The head writer appends its group's batch to the log. */
  ghost predicate AppendStep(d: Durable, d': Durable, added: seq<Entry>) {
    && d.pending.None? && d.active in d.logs
    && d.s.lastSequence + |added| < MAX_SEQUENCE
    && (forall i :: 0 <= i < |added| ==> added[i].key.sequence == d.s.lastSequence + 1 + i)
    && var log := d.logs[d.active];
       d' == d.(pending := Some(added), logs := d.logs[d.active := log.(records := log.records + [added])])
  }

  ghost predicate SyncStep(d: Durable, d': Durable) {
    && d.active in d.logs
    && var log := d.logs[d.active];
       d' == d.(logs := d.logs[d.active := log.(synced := |log.records|)])
  }

  /** The batch enters the memtable and its writers are acknowledged; with `sync`, only after a sync. */
  ghost predicate AckStep(d: Durable, d': Durable, sync: bool) {
    && d.pending.Some? && WriteStep(d.s, d'.s, d.pending.value) && d.active in d.logs
    && (sync ==> d.logs[d.active].synced == |d.logs[d.active].records|)
    && d' == d.(s := d'.s, pending := None, syncAcked := d.syncAcked + if sync then ToSet(d.pending.value) else {})
  }

  /** A new log and a new memtable. */
  ghost predicate SwitchLogStep(d: Durable, d': Durable) {
    && d.pending.None? && SwitchStep(d.s, d'.s)
    && d' == d.(s := d'.s, logs := d.logs[d.s.nextFile := LogFile([], 0)], active := d.s.nextFile,
                immLog := d.active, switched := |d.s.history|)
  }

  /** A job draws a number and writes a table under it. */
  ghost predicate BuildStep(d: Durable, d': Durable, es: seq<Entry>) {
    var n := d.s.nextFile;
    d' == d.(s := d.s.(nextFile := n + 1), tables := d.tables[n := es], outputs := d.outputs[n := es])
  }

  /** The table of the immutable memtable is written. */
  ghost predicate FlushBuild(d: Durable, d': Durable) {
    && d.s.imm.Some? && d.s.imm.value != [] && d.flushing.None?
    && var n := d.s.nextFile;
       d' == d.(s := d.s.(nextFile := n + 1), tables := d.tables[n := d.s.imm.value], outputs := d.outputs[n := d.s.imm.value],
                flushing := Some(n))
  }

  /** A job gives up one of its outputs. */
  ghost predicate AbandonStep(d: Durable, d': Durable, n: nat) {
    d.flushing != Some(n) && d' == d.(outputs := d.outputs - {n})
  }

  /** Committing a flush also moves the manifest on to the current log. */
  ghost predicate FlushCommit(d: Durable, d': Durable, level: nat, size: nat) {
    && d.s.imm.Some?
    && (if d.s.imm.value == [] then d'.s == d.s.(imm := None, nextFile := d.s.nextFile + 1)
        else
          && d.flushing.Some? && FlushInstalls(d.s, d'.s.version, d.flushing.value, level, size)
          && d'.s == d.s.(imm := None, version := d'.s.version))
    && d' == d.(s := d'.s, manifest := Descriptor(d'.s.version, d.active, d'.s.nextFile, d.s.lastSequence),
                outputs := if d.flushing.Some? then d.outputs - {d.flushing.value} else d.outputs, flushing := None,
                flushed := d.switched)
  }

  ghost predicate MoveCommit(d: Durable, d': Durable, level: nat, f: FileMeta) {
    && d.job.None? && MoveStep(d.s, d'.s, level, f)
    && d' == d.(s := d'.s, manifest := Descriptor(d'.s.version, d.manifest.logNumber, d'.s.nextFile, d.s.lastSequence))
  }

  /** The files are outputs of a compaction, each built under a number of its own. */
  ghost predicate Built(d: Durable, outs: seq<FileMeta>) {
    && (forall i, j :: 0 <= i < j < |outs| ==> outs[i].number != outs[j].number)
    && forall i :: 0 <= i < |outs| ==> BuiltAs(d, outs[i])
  }

  ghost predicate BuiltAs(d: Durable, o: FileMeta) {
    o.number in d.outputs && d.outputs[o.number] == o.entries && d.flushing != Some(o.number)
  }

  /** A compaction begins: its input version and the oldest snapshot are fixed from now on. */
  ghost predicate BeginStep(d: Durable, d': Durable) {
    d.job.None? && d' == d.(job := Some(Now(d.s)), held := d.held + multiset{d.s.version})
  }

  /** No gap between the inputs (see `Meanwhile.ValidIffClear`), and a closed upper edge (see `EdgeClosure`). */
  ghost predicate WellChosen(b: Basis, level: nat, in0: seq<FileMeta>, in1: seq<FileMeta>) {
    level + 1 < |b.version| && GapFree(b.version[level + 1], in0, in1) && UpperEdgeClosed(b.version[level + 1], in1)
  }

  ghost predicate CompactCommit(d: Durable, d': Durable, level: nat, in0: seq<FileMeta>, in1: seq<FileMeta>,
                                input: seq<Entry>, outs: seq<FileMeta>) {
    && d.job.Some? && Worked(d.job.value, level, in0, in1, input, outs) && WellChosen(d.job.value, level, in0, in1)
    && Installs(d.s.version, CompactionEdit(level, in0, in1, outs), d'.s.version) && Built(d, outs)
    && d' == d.(s := d.s.(version := d'.s.version), outputs := d.outputs - Numbers(FileSet(outs)), job := None,
                held := d.held - multiset{d.job.value.version},
                manifest := Descriptor(d'.s.version, d.manifest.logNumber, d.s.nextFile, d.s.lastSequence))
  }

  /** A compaction that failed, or came to nothing. */
  ghost predicate GiveUpStep(d: Durable, d': Durable) {
    d.job.Some? && d' == d.(job := None, held := d.held - multiset{d.job.value.version})
  }

  /** A reader takes a reference to the current version. */
  ghost predicate HoldStep(d: Durable, d': Durable) {
    d' == d.(held := d.held + multiset{d.s.version})
  }

  ghost predicate DropStep(d: Durable, d': Durable, v: Levels) {
    v in d.held && d' == d.(held := d.held - multiset{v})
  }

  /** `DeleteObsoleteFiles`, one table at a time: in no referenced version, and not being built. */
  ghost predicate DeleteTable(d: Durable, d': Durable, n: nat) {
    && !LiveTable(d.s.version, n) && (forall v :: v in d.held ==> !LiveTable(v, n))
    && n !in d.outputs && d' == d.(tables := d.tables - {n})
  }

  ghost predicate DeleteLog(d: Durable, d': Durable, n: nat) {
    n < d.manifest.logNumber && d' == d.(logs := d.logs - {n})
  }

  ghost predicate SnapshotsStep(d: Durable, d': Durable) {
    (SnapshotStep(d.s, d'.s) || exists i :: ReleaseStep(d.s, d'.s, i)) && d' == d.(s := d'.s)
  }

  datatype Event =
    | Append(added: seq<Entry>) | Sync | Ack(sync: bool) | SwitchLog
    | Build(es: seq<Entry>) | BuildFlush | Abandon(n: nat) | Flush(level: nat, size: nat) | Move(level: nat, file: FileMeta)
    | Begin | GiveUp | Compact(level: nat, in0: seq<FileMeta>, in1: seq<FileMeta>, input: seq<Entry>, outs: seq<FileMeta>)
    | Hold | Drop(v: Levels) | RemoveTable(n: nat) | RemoveLog(n: nat) | Snapshots

  ghost predicate DurStep(d: Durable, a: Event, d': Durable) {
    match a
    case Append(added) => AppendStep(d, d', added)
    case Sync => SyncStep(d, d')
    case Ack(sync) => AckStep(d, d', sync)
    case SwitchLog => SwitchLogStep(d, d')
    case Build(es) => BuildStep(d, d', es)
    case BuildFlush => FlushBuild(d, d')
    case Abandon(n) => AbandonStep(d, d', n)
    case Flush(level, size) => FlushCommit(d, d', level, size)
    case Move(level, f) => MoveCommit(d, d', level, f)
    case Begin => BeginStep(d, d')
    case GiveUp => GiveUpStep(d, d')
    case Compact(level, in0, in1, input, outs) => CompactCommit(d, d', level, in0, in1, input, outs)
    case Hold => HoldStep(d, d')
    case Drop(v) => DropStep(d, d', v)
    case RemoveTable(n) => DeleteTable(d, d', n)
    case RemoveLog(n) => DeleteLog(d, d', n)
    case Snapshots => SnapshotsStep(d, d')
  }

  // ---------------------------------------------------------------------
  // Each step keeps the invariant
  // ---------------------------------------------------------------------

  lemma FlattenSnoc(records: seq<seq<Entry>>, r: seq<Entry>)
    ensures Flatten(records + [r]) == Flatten(records) + r
  {
    assert (records + [r])[..|records|] == records;
  }

  lemma AppendSynced(log: LogFile, added: seq<Entry>, acked: set<Entry>)
    requires SyncedIn(log, acked) && forall e :: e in added ==> e !in acked
    ensures SyncedIn(log.(records := log.records + [added]), acked)
  {
    FlattenSnoc(log.records, added);
    assert (log.records + [added])[..log.synced] == log.records[..log.synced];
  }

  lemma NewNotAcked(d: Durable, added: seq<Entry>)
    requires Inv(d.s) && SyncKept(d)
    requires forall i :: 0 <= i < |added| ==> added[i].key.sequence == d.s.lastSequence + 1 + i
    ensures forall e :: e in added ==> e !in d.syncAcked
  {
    Db.HistoryBelow(d.s);
    assert forall e :: e in d.syncAcked ==> e in ToSet(d.s.history);
  }

  lemma AppendKeeps(d: Durable, d': Durable, added: seq<Entry>)
    requires DurInv(d) && AppendStep(d, d', added)
    ensures DurInv(d')
  {
    hide Inv, TablesFaithful, TablesOnDisk;
    var log := d.logs[d.active];
    FlattenSnoc(log.records, added);
    NewNotAcked(d, added);
    AppendSynced(log, added, d.syncAcked);
    assert SyncedIn(d'.logs[d.active], d.syncAcked);
    assert forall n :: n in d'.logs && n != d.active ==> d'.logs[n] == d.logs[n];
  }

  lemma SyncKeeps(d: Durable, d': Durable)
    requires DurInv(d) && SyncStep(d, d')
    ensures DurInv(d')
  {
    var log := d.logs[d.active];
    assert log.records[..|log.records|] == log.records;
    assert SyncedIn(d'.logs[d.active], d.syncAcked);
  }

  lemma AckCuts(d: Durable, d': Durable, sync: bool)
    requires DurInv(d) && AckStep(d, d', sync)
    ensures Cuts(d') && LogsHold(d') && TablesFaithful(d'.s.version, d'.s.history, d'.flushed) && ManifestCurrent(d')
  {
    hide Inv, SyncKept, OutputsOk, TablesOnDisk, Faithful, Numbered, PendingOk, Sorted;
    var h, added := d.s.history, d.pending.value;
    LongerHistory(h, added, d.flushed, d.switched);
    AckFiled(d, d', sync);
  }

  lemma LongerHistory(h: seq<Entry>, added: seq<Entry>, m: nat, n: nat)
    requires m <= n <= |h|
    ensures (h + added)[n..] == h[n..] + added && (h + added)[m..n] == h[m..n] && (h + added)[..m] == h[..m]
    ensures ToSet((h + added)[n..]) == ToSet(h[n..]) + ToSet(added)
  {
    assert (h + added)[n..] == h[n..] + added;
  }

  lemma AckFiled(d: Durable, d': Durable, sync: bool)
    requires DurInv(d) && AckStep(d, d', sync)
    ensures Cuts(d') && LogsHold(d')
  {
    hide Inv, SyncKept, OutputsOk, TablesOnDisk, TablesFaithful, ManifestCurrent, PendingOk, Sorted, Flatten;
    LongerHistory(d.s.history, d.pending.value, d.flushed, d.switched);
  }

  lemma PendingIsNew(d: Durable)
    requires Inv(d.s) && PendingOk(d)
    ensures forall e :: e in PendingEntries(d) ==> e !in ToSet(d.s.history)
  {
    Db.HistoryBelow(d.s);
  }

  lemma AckSynced(d: Durable, d': Durable, sync: bool, n: nat)
    requires DurInv(d) && AckStep(d, d', sync) && n in d.logs && n >= d.manifest.logNumber
    ensures SyncedIn(d.logs[n], d'.syncAcked)
  {
    var log := d.logs[n];
    assert SyncedIn(log, d.syncAcked);
    if sync && n == d.active {
      assert log.records[..|log.records|] == log.records;
    } else if sync {
      PendingIsNew(d);
      assert Flatten(log.records) == d.s.history[d.flushed..d.switched];
      assert forall e :: e in d.s.history[d.flushed..d.switched] ==> e in ToSet(d.s.history);
    }
  }

  lemma AckKeeps(d: Durable, d': Durable, sync: bool)
    requires DurInv(d) && AckStep(d, d', sync)
    ensures DurInv(d')
  {
    hide Inv, TablesFaithful, TablesOnDisk, Cuts, LogsHold, ManifestCurrent, WriteStep, SyncedIn;
    AckStore(d, d', sync);
    AckCuts(d, d', sync);
    AckOutputs(d, d', sync);
    forall n | n in d'.logs && n >= d'.manifest.logNumber ensures SyncedIn(d'.logs[n], d'.syncAcked) {
      AckSynced(d, d', sync, n);
    }
    assert d'.syncAcked <= ToSet(d'.s.history);
  }

  lemma AckStore(d: Durable, d': Durable, sync: bool)
    requires DurInv(d) && AckStep(d, d', sync)
    ensures Inv(d'.s) && d'.s.nextFile == d.s.nextFile && PendingOk(d') && JobOk(d') && TablesOnDisk(d'.s.version, d'.tables)
    ensures ToSet(d'.s.history) == ToSet(d.s.history) + ToSet(d.pending.value)
  {
    hide Inv, TablesFaithful, TablesOnDisk, Cuts, LogsHold, ManifestCurrent, SyncKept, OutputsOk;
    Db.WriteKeeps(d.s, d'.s, d.pending.value);
  }

  lemma AckOutputs(d: Durable, d': Durable, sync: bool)
    requires DurInv(d) && AckStep(d, d', sync)
    ensures OutputsOk(d')
  {
    hide Inv, TablesFaithful, TablesOnDisk, Cuts, LogsHold, ManifestCurrent, SyncKept;
    forall n | n in d'.outputs ensures OutputOk(d', n) {
      assert OutputOk(d, n);
    }
  }

  lemma SwitchKeeps(d: Durable, d': Durable)
    requires DurInv(d) && SwitchLogStep(d, d')
    ensures DurInv(d')
  {
    hide Inv, TablesFaithful, TablesOnDisk, HeldOk;
    HeldLater(d.held, d.tables, d.s.nextFile, d'.s.nextFile);
    Db.SwitchKeeps(d.s, d'.s);
    SwitchCuts(d, d');
    assert SyncedIn(LogFile([], 0), d.syncAcked);
    Db.NumberedLater(d.s.version, d.manifest.nextFile, d.manifest.nextFile);
  }

  lemma SwitchCuts(d: Durable, d': Durable)
    requires DurInv(d) && SwitchLogStep(d, d')
    ensures Cuts(d') && LogsHold(d')
  {
    var h := d.s.history;
    assert h[|h|..] == [];
    assert h[d.switched..] == h[d.flushed..|h|];
  }

  lemma OldestLater(s: State, s': State, i: nat)
    requires Inv(s) && ReleaseStep(s, s', i)
    ensures Oldest(s) <= Oldest(s')
  {
    assert s'.snapshots != [] ==> s'.snapshots[0] in s.snapshots;
    assert s.snapshots[0] in s.snapshots;
  }

  lemma SnapshotsKeep(d: Durable, d': Durable)
    requires DurInv(d) && SnapshotsStep(d, d')
    ensures DurInv(d')
  {
    hide Inv, TablesFaithful, TablesOnDisk;
    if SnapshotStep(d.s, d'.s) {
      Db.SnapshotKeeps(d.s, d'.s);
    } else {
      var i :| ReleaseStep(d.s, d'.s, i);
      Db.ReleaseKeeps(d.s, d'.s, i);
      OldestLater(d.s, d'.s, i);
    }
  }

  lemma HeldLater(held: multiset<Levels>, tables: map<nat, seq<Entry>>, next: nat, later: nat)
    requires HeldOk(held, tables, next) && next <= later
    ensures HeldOk(held, tables, later)
  {
    forall v | v in held ensures TablesOnDisk(v, tables) && NumbersBelow(v, later) {
      assert NumbersBelow(v, next);
    }
  }

  lemma HeldBeside(held: multiset<Levels>, tables: map<nat, seq<Entry>>, n: nat, es: seq<Entry>)
    requires HeldOk(held, tables, n)
    ensures HeldOk(held, tables[n := es], n + 1)
  {
    forall v | v in held ensures TablesOnDisk(v, tables[n := es]) && NumbersBelow(v, n + 1) {
      assert NumbersBelow(v, n) && TablesOnDisk(v, tables);
      forall l, f | 0 <= l < |v| && f in v[l] ensures OnDisk(f, tables[n := es]) {
        assert OnDisk(f, tables);
      }
    }
  }

  lemma HeldMore(s: State, held: multiset<Levels>, tables: map<nat, seq<Entry>>)
    requires Inv(s) && TablesOnDisk(s.version, tables) && HeldOk(held, tables, s.nextFile)
    ensures HeldOk(held + multiset{s.version}, tables, s.nextFile)
  {
    forall l, f | 0 <= l < |s.version| && f in s.version[l] ensures f.number < s.nextFile {
      HasNumber(s.version, l, f);
    }
  }

  lemma HeldLess(held: multiset<Levels>, v: Levels, tables: map<nat, seq<Entry>>, next: nat)
    requires HeldOk(held, tables, next)
    ensures HeldOk(held - multiset{v}, tables, next)
  {
  }

  lemma HoldKeeps(d: Durable, d': Durable)
    requires DurInv(d) && HoldStep(d, d')
    ensures DurInv(d')
  {
    hide Inv, TablesFaithful, TablesOnDisk, HeldOk;
    HeldMore(d.s, d.held, d.tables);
    SameOutputs(d, d');
  }

  lemma DropKeeps(d: Durable, d': Durable, v: Levels)
    requires DurInv(d) && DropStep(d, d', v)
    ensures DurInv(d')
  {
    hide Inv, TablesFaithful, TablesOnDisk, HeldOk;
    HeldLess(d.held, v, d.tables, d.s.nextFile);
    SameOutputs(d, d');
  }

  /** Writing a table under the next number touches no table in use. */
  lemma NewTable(d: Durable, d': Durable, es: seq<Entry>)
    requires DurInv(d)
    requires var n := d.s.nextFile;
             d' == d.(s := d.s.(nextFile := n + 1), tables := d.tables[n := es], outputs := d.outputs[n := es], flushing := d'.flushing)
    requires d'.flushing == d.flushing || (d'.flushing == Some(d.s.nextFile) && d.s.imm == Some(es))
    ensures DurInv(d')
  {
    hide Inv, TablesFaithful, Cuts, LogsHold, ManifestCurrent, SyncKept;
    var n := d.s.nextFile;
    Renumbered(d.s, d'.s);
    StillNumbered(d.s);
    forall l, f | 0 <= l < |d.s.version| && f in d.s.version[l] ensures OnDisk(f, d'.tables) {
      assert OnDisk(f, d.tables);
      HasNumber(d.s.version, l, f);
    }
    forall m | m in d'.outputs ensures OutputOk(d', m) {
      if m == n {
        BeyondIsUnused(d.s.version, n, n);
      } else {
        assert OutputOk(d, m);
      }
    }
    assert d.flushing.Some? ==> OutputOk(d, d.flushing.value);
    HeldBeside(d.held, d.tables, n, es);
    NewTableRest(d, d');
  }

  lemma StillNumbered(s: State)
    requires Inv(s)
    ensures Numbered(s.version, s.nextFile) && 0 < |s.version| && AllBelow(NumbersAt(s.version, 0), s.nextFile)
  {
  }

  lemma NewTableRest(d: Durable, d': Durable)
    requires DurInv(d) && Inv(d'.s) && TablesOnDisk(d'.s.version, d'.tables) && OutputsOk(d')
    requires d' == d.(s := d.s.(nextFile := d'.s.nextFile), tables := d'.tables, outputs := d'.outputs, flushing := d'.flushing)
    requires d.s.nextFile <= d'.s.nextFile && HeldOk(d'.held, d'.tables, d'.s.nextFile)
    ensures DurInv(d')
  {
    hide Inv, OutputsOk, TablesOnDisk, HeldOk;
  }

  lemma Renumbered(s: State, s': State)
    requires Inv(s) && s.nextFile <= s'.nextFile && s' == s.(nextFile := s'.nextFile)
    ensures Inv(s')
  {
    Db.NumberedLater(s.version, s.nextFile, s'.nextFile);
    assert All(s') == All(s);
  }

  lemma FlushBuildKeeps(d: Durable, d': Durable)
    requires DurInv(d) && FlushBuild(d, d')
    ensures DurInv(d')
  {
    assert AllBelow(NumbersAt(d.s.version, 0), d.s.nextFile);
    NewTable(d, d', d.s.imm.value);
  }

  lemma AbandonKeeps(d: Durable, d': Durable, n: nat)
    requires DurInv(d) && AbandonStep(d, d', n)
    ensures DurInv(d')
  {
    hide Inv;
    forall m | m in d'.outputs ensures OutputOk(d', m) {
      assert OutputOk(d, m);
    }
  }

  /** No file of a referenced version is ever deleted. */
  lemma DeleteTableKeeps(d: Durable, d': Durable, n: nat)
    requires DurInv(d) && DeleteTable(d, d', n)
    ensures DurInv(d')
  {
    forall m | m in d'.outputs ensures OutputOk(d', m) {
      assert OutputOk(d, m);
    }
    forall l, f | 0 <= l < |d.s.version| && f in d.s.version[l] ensures OnDisk(f, d'.tables) {
      assert OnDisk(f, d.tables);
      HasNumber(d.s.version, l, f);
    }
    forall v | v in d.held ensures TablesOnDisk(v, d'.tables) && NumbersBelow(v, d.s.nextFile) {
      assert TablesOnDisk(v, d.tables) && NumbersBelow(v, d.s.nextFile);
      forall l, f | 0 <= l < |v| && f in v[l] ensures OnDisk(f, d'.tables) {
        assert OnDisk(f, d.tables);
        HasNumber(v, l, f);
      }
    }
  }

  /** No log a recovery needs is ever deleted. */
  lemma DeleteLogKeeps(d: Durable, d': Durable, n: nat)
    requires DurInv(d) && DeleteLog(d, d', n)
    ensures DurInv(d')
  {
  }

  // ---------------------------------------------------------------------
  // Commits
  // ---------------------------------------------------------------------

  lemma AddedOnDisk(v: Levels, level: nat, f: FileMeta, w: Levels, tables: map<nat, seq<Entry>>)
    requires TablesOnDisk(v, tables) && Added(v, level, f, w) && OnDisk(f, tables)
    ensures TablesOnDisk(w, tables)
  {
  }

  lemma ReplacedOnDisk(v: Levels, level: nat, in0: seq<FileMeta>, in1: seq<FileMeta>, outs: seq<FileMeta>, w: Levels, tables: map<nat, seq<Entry>>)
    requires TablesOnDisk(v, tables) && Replaced(v, level, in0, in1, outs, w) && forall o :: o in outs ==> OnDisk(o, tables)
    ensures TablesOnDisk(w, tables)
  {
    forall l, f | 0 <= l < |w| && f in w[l] ensures OnDisk(f, tables) {
      if !(l == level + 1 && f in outs) {
        assert f in v[l];
      }
    }
  }

  /** The flushed writes extend what the tables stand for. */
  lemma LastOfPrefix(h: seq<Entry>, n: nat, m: nat)
    requires ValidHistory(h) && n <= m <= |h|
    ensures ValidHistory(h[..n]) && LastNumber(h[..n]) <= LastNumber(h[..m]) <= LastNumber(h)
  {
  }

  lemma FlushedFaithful(v: Levels, w: Levels, history: seq<Entry>, n: nat, m: nat)
    requires TablesFaithful(v, history, n) && n <= m <= |history| && ValidHistory(history)
    requires Entries(w) == Entries(v) + ToSet(history[n..m])
    ensures TablesFaithful(w, history, m)
  {
    var H, N := ToSet(history[..n]), ToSet(history[n..m]);
    assert history[..m] == history[..n] + history[n..m];
    assert ToSet(history[..m]) == H + N;
    assert ValidHistory(history[..m]);
    HistoryDistinct(history[..m]);
    LastOfPrefix(history, n, m);
    Db.FaithfulGrows(Entries(v), H, N, LastNumber(history[..n]));
  }

  lemma FlushIsStep(d: Durable, d': Durable, level: nat, size: nat)
    requires DurInv(d) && FlushCommit(d, d', level, size)
    ensures FlushStep(d.s, d'.s, if d.flushing.Some? then d.flushing.value else 0, level, size)
  {
    if d.s.imm.value != [] {
      assert OutputOk(d, d.flushing.value) && FlushingOk(d, d.flushing.value);
    }
  }

  lemma FlushEntries(s: State, s': State, n: nat, level: nat, size: nat)
    requires Inv(s) && FlushStep(s, s', n, level, size)
    ensures Entries(s'.version) == Entries(s.version) + ImmEntries(s) && ValidVersion(s'.version) && Numbered(s'.version, s'.nextFile)
  {
    if s.imm.value == [] {
      assert ImmEntries(s) == {};
      Db.NumberedLater(s.version, s.nextFile, s'.nextFile);
    } else {
      var f := MakeFile(n, size, s.imm.value);
      Db.MemtableFile(s, f);
      Db.FlushedVersion(s.version, s.nextFile, level, f, s'.version, s'.nextFile);
    }
  }

  lemma FlushAdded(d: Durable, d': Durable, level: nat, size: nat)
    requires DurInv(d) && FlushCommit(d, d', level, size) && d.s.imm.value != []
    ensures Added(d.s.version, level, MakeFile(d.flushing.value, size, d.s.imm.value), d'.s.version)
  {
    var n := d.flushing.value;
    assert OutputOk(d, n) && FlushingOk(d, n);
    FlushAdds(d.s.version, d.s.nextFile, level, MakeFile(n, size, d.s.imm.value), d'.s.version);
  }

  lemma FlushOnDisk(d: Durable, d': Durable, level: nat, size: nat)
    requires DurInv(d) && FlushCommit(d, d', level, size)
    ensures TablesOnDisk(d'.s.version, d'.tables)
  {
    if d.s.imm.value != [] {
      var n := d.flushing.value;
      FlushAdded(d, d', level, size);
      assert OutputOk(d, n) && FlushingOk(d, n);
      AddedOnDisk(d.s.version, level, MakeFile(n, size, d.s.imm.value), d'.s.version, d.tables);
    }
  }

  lemma StillUnused(v: Levels, level: nat, f: FileMeta, w: Levels, n: nat)
    requires Added(v, level, f, w) && Unused(v, n) && n != f.number
    ensures Unused(w, n)
  {
    forall l | 0 <= l < |w| ensures n !in NumbersAt(w, l) {
      assert n !in NumbersAt(v, l);
      forall g | g in FileSet(w[l]) ensures g.number != n {
        if g in v[l] { HasNumber(v, l, g); }
      }
    }
  }

  lemma FlushOutputs(d: Durable, d': Durable, level: nat, size: nat)
    requires DurInv(d) && FlushCommit(d, d', level, size)
    ensures OutputsOk(d')
  {
    hide Inv;
    forall m | m in d'.outputs ensures OutputOk(d', m) {
      assert OutputOk(d, m);
      if d.s.imm.value != [] {
        FlushAdded(d, d', level, size);
        StillUnused(d.s.version, level, MakeFile(d.flushing.value, size, d.s.imm.value), d'.s.version, m);
      }
    }
  }

  lemma FlushCommitKeeps(d: Durable, d': Durable, level: nat, size: nat)
    requires DurInv(d) && FlushCommit(d, d', level, size)
    ensures DurInv(d')
  {
    var n := if d.flushing.Some? then d.flushing.value else 0;
    FlushIsStep(d, d', level, size);
    Db.FlushKeeps(d.s, d'.s, n, level, size);
    FlushEntries(d.s, d'.s, n, level, size);
    FlushOnDisk(d, d', level, size);
    FlushOutputs(d, d', level, size);
    FlushedFaithful(d.s.version, d'.s.version, d.s.history, d.flushed, d.switched);
    LastOfPrefix(d.s.history, d.switched, d.switched);
    FlushJob(d, d', n, level, size);
    FlushRest(d, d', level, size);
  }

  /** The new file arrives in the version a compaction under way will be installed into. */
  lemma FlushJob(d: Durable, d': Durable, n: nat, level: nat, size: nat)
    requires DurInv(d) && FlushCommit(d, d', level, size)
    ensures JobOk(d')
  {
    hide Cuts, LogsHold, SyncKept, ManifestCurrent, TablesFaithful, TablesOnDisk, Grown, ValidVersion, Faithful, Numbered;
    if d.job.Some? && d.s.imm.value != [] {
      var f := MakeFile(d.flushing.value, size, d.s.imm.value);
      FlushAdded(d, d', level, size);
      Db.MemtableFile(d.s, f);
      assert Above(FileEntries(f), Entries(d.s.version));
      FlushGrows(d.job.value.version, d.s.version, level, f, d'.s.version);
    }
  }

  lemma FlushRest(d: Durable, d': Durable, level: nat, size: nat)
    requires DurInv(d) && FlushCommit(d, d', level, size) && Inv(d'.s) && Numbered(d'.s.version, d'.s.nextFile)
    requires TablesOnDisk(d'.s.version, d'.tables) && OutputsOk(d') && JobOk(d')
    requires TablesFaithful(d'.s.version, d.s.history, d.switched) && LastNumber(d.s.history[..d.switched]) <= d.s.lastSequence
    ensures DurInv(d')
  {
    hide Inv, OutputsOk, TablesOnDisk, TablesFaithful, Numbered, FlushInstalls, HeldOk;
    HeldLater(d.held, d.tables, d.s.nextFile, d'.s.nextFile);
  }

  /** A commit that changes nothing but the tables and their number. */
  lemma Recommitted(d: Durable, d': Durable)
    requires DurInv(d) && Inv(d'.s) && TablesFaithful(d'.s.version, d.s.history, d.flushed)
    requires TablesOnDisk(d'.s.version, d.tables) && Numbered(d'.s.version, d'.s.nextFile) && d.s.nextFile <= d'.s.nextFile
    requires d' == d.(s := d.s.(version := d'.s.version, nextFile := d'.s.nextFile), outputs := d'.outputs, job := None, held := d'.held,
                      manifest := Descriptor(d'.s.version, d.manifest.logNumber, d'.s.nextFile, d.s.lastSequence))
    requires OutputsOk(d') && HeldOk(d'.held, d.tables, d.s.nextFile)
    ensures DurInv(d')
  {
    hide Inv, OutputsOk, TablesOnDisk, TablesFaithful, Numbered, HeldOk;
    HeldLater(d'.held, d.tables, d.s.nextFile, d'.s.nextFile);
    assert LastNumber(d.s.history[..d.flushed]) <= d.manifest.lastSequence <= d.s.lastSequence;
  }

  /** A file that came into a level was there, in the level above, or is an output. */
  lemma ReplacedUnused(v: Levels, level: nat, in0: seq<FileMeta>, in1: seq<FileMeta>, outs: seq<FileMeta>, w: Levels, n: nat)
    requires Replaced(v, level, in0, in1, outs, w) && Unused(v, n) && n !in Numbers(FileSet(outs))
    ensures Unused(w, n)
  {
    forall l | 0 <= l < |w| ensures n !in NumbersAt(w, l) {
      assert n !in NumbersAt(v, l);
      forall g | g in FileSet(w[l]) ensures g.number != n {
        assert g in outs ==> g in FileSet(outs);
        if g in v[l] { HasNumber(v, l, g); }
      }
    }
  }

  lemma ReplacedBelow(v: Levels, level: nat, in0: seq<FileMeta>, in1: seq<FileMeta>, outs: seq<FileMeta>, w: Levels, n: nat)
    requires Replaced(v, level, in0, in1, outs, w) && 0 < |v| && AllBelow(NumbersAt(v, 0), n)
    ensures 0 < |w| && AllBelow(NumbersAt(w, 0), n)
  {
    forall m | m in NumbersAt(w, 0) ensures m < n {
      var g :| g in FileSet(w[0]) && g.number == m;
      HasNumber(v, 0, g);
    }
  }

  /** The outputs that were not committed stay as they are. */
  lemma ReplacedOutputs(d: Durable, d': Durable, level: nat, in0: seq<FileMeta>, in1: seq<FileMeta>, outs: seq<FileMeta>)
    requires OutputsOk(d) && Replaced(d.s.version, level, in0, in1, outs, d'.s.version)
    requires d' == d.(s := d.s.(version := d'.s.version), outputs := d'.outputs, manifest := d'.manifest, job := d'.job, held := d'.held)
    requires forall n :: n in d'.outputs ==> n in d.outputs && d'.outputs[n] == d.outputs[n] && Unused(d'.s.version, n)
    requires d.flushing.Some? ==> d.flushing.value in d'.outputs
    ensures OutputsOk(d')
  {
    forall n | n in d'.outputs ensures OutputOk(d', n) {
      assert OutputOk(d, n);
    }
    if d.flushing.Some? {
      ReplacedBelow(d.s.version, level, in0, in1, outs, d'.s.version, d.flushing.value);
    }
  }

  lemma MoveCommitKeeps(d: Durable, d': Durable, level: nat, f: FileMeta)
    requires DurInv(d) && MoveCommit(d, d', level, f)
    ensures DurInv(d')
  {
    Db.MoveKeeps(d.s, d'.s, level, f);
    MovedOnDisk(d.s, d'.s, level, f, d.tables);
    MovedOutputs(d, d', level, f);
    Recommitted(d, d');
  }

  lemma MovedUnused(v: Levels, next: nat, level: nat, f: FileMeta, w: Levels, n: nat)
    requires ValidVersion(v) && Numbered(v, next) && level + 1 < |v| && f in v[level] && Unused(v, n)
    requires Replaced(v, level, [f], [], [f], w)
    ensures Unused(w, n)
  {
    HasNumber(v, level, f);
    assert FileSet([f]) == {f} && Numbers({f}) == {f.number};
    assert n !in NumbersAt(v, level);
    ReplacedUnused(v, level, [f], [], [f], w, n);
  }

  lemma MoveReplaces(s: State, s': State, level: nat, f: FileMeta)
    requires Inv(s) && MoveStep(s, s', level, f)
    ensures level + 1 < |s.version| && f in s.version[level] && Replaced(s.version, level, [f], [], [f], s'.version)
    ensures s' == s.(version := s'.version)
  {
    assert f in [f];
    Db.MovedReplaces(s.version, s.nextFile, level, f, s'.version);
  }

  lemma MovedOutputs(d: Durable, d': Durable, level: nat, f: FileMeta)
    requires DurInv(d) && MoveCommit(d, d', level, f)
    ensures OutputsOk(d')
  {
    hide TablesFaithful, TablesOnDisk, Cuts, LogsHold, ManifestCurrent, SyncKept, MoveStep, ValidVersion, Numbered, Replaced, Unused;
    MoveReplaces(d.s, d'.s, level, f);
    forall n | n in d.outputs ensures Unused(d'.s.version, n) {
      assert OutputOk(d, n);
      MovedUnused(d.s.version, d.s.nextFile, level, f, d'.s.version, n);
    }
    ReplacedOutputs(d, d', level, [f], [], [f]);
  }

  lemma MovedOnDisk(s: State, s': State, level: nat, f: FileMeta, tables: map<nat, seq<Entry>>)
    requires Inv(s) && TablesOnDisk(s.version, tables) && MoveStep(s, s', level, f)
    ensures TablesOnDisk(s'.version, tables) && Entries(s'.version) == Entries(s.version) && Numbered(s'.version, s.nextFile)
  {
    assert f in [f];
    Db.MovedVersion(s.version, s.nextFile, level, f, s'.version);
    Db.MovedReplaces(s.version, s.nextFile, level, f, s'.version);
    ReplacedOnDisk(s.version, level, [f], [], [f], s'.version, tables);
  }

  // ---------------------------------------------------------------------
  // Compaction
  // ---------------------------------------------------------------------

  /** What was built can be committed: its numbers are still unused and its tables still there. */
  lemma BuiltIsNew(d: Durable, outs: seq<FileMeta>)
    requires DurInv(d) && Built(d, outs)
    ensures NewNumbers(d.s.version, outs)
    ensures forall o :: o in outs ==> OnDisk(o, d.tables)
    ensures forall i :: 0 <= i < |outs| ==> outs[i].number < d.s.nextFile
  {
    hide Inv;
    forall i | 0 <= i < |outs|
      ensures Unused(d.s.version, outs[i].number) && OnDisk(outs[i], d.tables) && outs[i].number < d.s.nextFile
    {
      assert BuiltAs(d, outs[i]) && OutputOk(d, outs[i].number);
    }
  }

  lemma CompactedOutputs(d: Durable, d': Durable, level: nat, in0: seq<FileMeta>, in1: seq<FileMeta>, input: seq<Entry>, outs: seq<FileMeta>)
    requires DurInv(d) && CompactCommit(d, d', level, in0, in1, input, outs)
    requires Replaced(d.s.version, level, in0, in1, outs, d'.s.version)
    ensures OutputsOk(d')
  {
    hide Inv, Worked, WellChosen, JobOk;
    forall n | n in d'.outputs ensures Unused(d'.s.version, n) {
      assert OutputOk(d, n);
      ReplacedUnused(d.s.version, level, in0, in1, outs, d'.s.version, n);
    }
    if d.flushing.Some? {
      FlushingStays(d, outs);
    }
    ReplacedOutputs(d, d', level, in0, in1, outs);
  }

  lemma FlushingStays(d: Durable, outs: seq<FileMeta>)
    requires Built(d, outs) && d.flushing.Some?
    ensures d.flushing.value !in Numbers(FileSet(outs))
  {
    forall o | o in FileSet(outs) ensures o.number != d.flushing.value {
      var i :| 0 <= i < |outs| && outs[i] == o;
      assert BuiltAs(d, outs[i]);
    }
  }

  /** Once all entries are visible, a later snapshot sees nothing more. */
  lemma AllVisible(S: set<Entry>, n: nat, u: UserKey, q: nat, q': nat)
    requires Distinct(S) && (forall e :: e in S ==> e.key.sequence <= n) && n <= q && n <= q'
    ensures Read(S, u, q) == Read(S, u, q')
  {
    if NoneVisible(S, u, q) {
      ReadNothing(S, u, q);
      ReadNothing(S, u, q');
    } else {
      var e := NewestExists(S, u, q);
      ReadNewest(S, u, q, e);
      ReadNewest(S, u, q', e);
    }
  }

  lemma SameReads(V: set<Entry>, W: set<Entry>, H: set<Entry>, last: nat, u: UserKey, q: nat, late: nat)
    requires Distinct(H) && W <= V <= H && (forall e :: e in H ==> e.key.sequence <= last) && last <= q <= late
    requires Faithful(V, H, last) && Read(W, u, late) == Read(V, u, late)
    ensures Read(W, u, q) == Read(H, u, q)
  {
    Db.DistinctSubset(W, H);
    AllVisible(W, last, u, q, late);
    AllVisible(H, last, u, q, late);
  }

  /** The inputs are still good in the version they are taken from. */
  lemma CommitRewrites(d: Durable, d': Durable, level: nat, in0: seq<FileMeta>, in1: seq<FileMeta>, input: seq<Entry>, outs: seq<FileMeta>)
    requires DurInv(d) && CompactCommit(d, d', level, in0, in1, input, outs)
    ensures Rewrites(d.s.version, d.job.value, level, in0, in1, input, outs, d'.s.version)
  {
    hide TablesFaithful, TablesOnDisk, Cuts, LogsHold, ManifestCurrent, SyncKept, OutputsOk, Grown, GapFree, UpperEdgeClosed, KeptAbove, MeetsRange, Faithful;
    StillGood(d.job.value.version, d.s.version, level, in0, in1);
  }

  /** Nothing is exposed, whatever newer writes are in memory. */
  lemma Unexposed(b: Basis, s: State, level: nat, in0: seq<FileMeta>, in1: seq<FileMeta>, input: seq<Entry>, outs: seq<FileMeta>, memory: set<Entry>, u: UserKey)
    requires BasisHolds(b, s) && Worked(b, level, in0, in1, input, outs) && WellChosen(b, level, in0, in1) && Above(memory, ToSet(input))
    ensures !Exposed(b.version, level, memory + RestEntries(s.version, level, in0, in1), input, b.snapshot, u)
  {
    hide GapFree, UpperEdgeClosed, GoodInputs, Kept, ValidVersion;
    DecidedSafely(b.version, s.version, level, in0, in1, memory, input, b.snapshot, u);
  }

  lemma CompactedTables(b: Basis, s: State, w: Levels, level: nat, in0: seq<FileMeta>, in1: seq<FileMeta>, input: seq<Entry>,
                        outs: seq<FileMeta>, history: seq<Entry>, n: nat)
    requires BasisHolds(b, s) && Worked(b, level, in0, in1, input, outs) && WellChosen(b, level, in0, in1)
    requires ValidHistory(history) && TablesFaithful(s.version, history, n)
    requires Entries(s.version) == Before(RestEntries(s.version, level, in0, in1), input)
    requires Entries(w) == After(b.version, level, RestEntries(s.version, level, in0, in1), input, b.snapshot)
    ensures TablesFaithful(w, history, n)
  {
    hide BasisHolds, WellChosen, Entries, Before, After, RestEntries;
    var v := s.version;
    var R, H := RestEntries(v, level, in0, in1), ToSet(history[..n]);
    var last := LastNumber(history[..n]);
    forall e | e in H ensures e.key.sequence <= last {
      LastIsLargest(history[..n], e);
    }
    AfterWithinBefore(b.version, level, R, input, b.snapshot);
    HistoryDistinct(history[..n]);
    Db.DistinctSubset(Entries(v), H);
    Db.DistinctSubset(Entries(w), Entries(v));
    forall u, q | q >= last ensures Read(Entries(w), u, q) == Read(H, u, q) {
      CompactedRead(b, s, level, in0, in1, input, outs, u, Max(q, b.snapshot));
      SameReads(Entries(v), Entries(w), H, last, u, q, Max(q, b.snapshot));
    }
  }

  lemma CompactedRead(b: Basis, s: State, level: nat, in0: seq<FileMeta>, in1: seq<FileMeta>, input: seq<Entry>, outs: seq<FileMeta>,
                      u: UserKey, q: nat)
    requires BasisHolds(b, s) && Worked(b, level, in0, in1, input, outs) && WellChosen(b, level, in0, in1) && q >= b.snapshot
    requires Distinct(Before(RestEntries(s.version, level, in0, in1), input))
    ensures var R := RestEntries(s.version, level, in0, in1);
            Read(After(b.version, level, R, input, b.snapshot), u, q) == Read(Before(R, input), u, q)
  {
    hide BasisHolds, WellChosen, Kept, Exposed, GoodInputs;
    var R := RestEntries(s.version, level, in0, in1);
    assert {} + R == R;
    Unexposed(b, s, level, in0, in1, input, outs, {}, u);
    UnexposedReads(b.version, level, R, input, b.snapshot, u, q);
  }

  lemma CompactedEntries(s: State, b: Basis, w: Levels, next: nat, level: nat, in0: seq<FileMeta>, in1: seq<FileMeta>, input: seq<Entry>, outs: seq<FileMeta>)
    requires Inv(s) && Compacted(s.version, b, level, in0, in1, input, outs, w)
    requires s.nextFile <= next && forall i :: 0 <= i < |outs| ==> outs[i].number < next
    ensures Entries(s.version) == Before(RestEntries(s.version, level, in0, in1), input)
    ensures Entries(w) == After(b.version, level, RestEntries(s.version, level, in0, in1), input, b.snapshot)
    ensures Numbered(w, next)
  {
    Db.SplitStore(s, level, in0, in1, input);
    Db.InputSequences(s, input);
    Db.CompactVersionFacts(s.version, s.nextFile, b, level, in0, in1, input, outs, w, next);
  }

  lemma CompactedReplaces(s: State, b: Basis, w: Levels, level: nat, in0: seq<FileMeta>, in1: seq<FileMeta>, input: seq<Entry>, outs: seq<FileMeta>)
    requires Inv(s) && Compacted(s.version, b, level, in0, in1, input, outs, w)
    ensures Replaced(s.version, level, in0, in1, outs, w)
  {
    Db.FreshNumbers(s.version, level, outs);
    Db.InputsInNext(s.version[level + 1], in0, in1);
    EditReplaces(s.version, s.nextFile, level, in0, in1, outs, w);
  }

  lemma StillUnexposed(s: State, b: Basis, level: nat, in0: seq<FileMeta>, in1: seq<FileMeta>, input: seq<Entry>, outs: seq<FileMeta>)
    requires Inv(s) && BasisHolds(b, s) && Worked(b, level, in0, in1, input, outs) && WellChosen(b, level, in0, in1)
    requires level + 1 < |s.version| && GoodInputs(s.version[level], s.version[level + 1], in0, in1)
    ensures NothingExposed(s, b, level, in0, in1, input)
  {
    var memory := ToSet(s.mem) + ImmEntries(s);
    Db.SplitStore(s, level, in0, in1, input);
    assert Above(memory, ToSet(input));
    forall u ensures !Exposed(b.version, level, Outside(s, level, in0, in1), input, b.snapshot, u) {
      Unexposed(b, s, level, in0, in1, input, outs, memory, u);
    }
  }

  /** Gap-free inputs with a closed upper edge make it a step of the store, which keeps its reads. */
  lemma SafeCompaction(s: State, s': State, b: Basis, level: nat, in0: seq<FileMeta>, in1: seq<FileMeta>, input: seq<Entry>, outs: seq<FileMeta>)
    requires Inv(s) && Compacted(s.version, b, level, in0, in1, input, outs, s'.version)
    requires BasisHolds(b, s) && Worked(b, level, in0, in1, input, outs) && WellChosen(b, level, in0, in1)
    requires forall i :: 0 <= i < |outs| ==> outs[i].number < s.nextFile
    requires s' == s.(version := s'.version)
    ensures Inv(s')
  {
    hide Inv, WellChosen, Worked, NothingExposed;
    StillUnexposed(s, b, level, in0, in1, input, outs);
    Db.CompactKeeps(s, s', b, level, in0, in1, input, outs);
  }

  lemma CompactCommitKeeps(d: Durable, d': Durable, level: nat, in0: seq<FileMeta>, in1: seq<FileMeta>, input: seq<Entry>, outs: seq<FileMeta>)
    requires DurInv(d) && CompactCommit(d, d', level, in0, in1, input, outs)
    ensures DurInv(d')
  {
    hide Inv, Rewrites, OutputsOk, Cuts, LogsHold, SyncKept, ManifestCurrent, TablesFaithful, TablesOnDisk, Worked, WellChosen, BasisHolds;
    var b := d.job.value;
    BuiltIsNew(d, outs);
    CommitRewrites(d, d', level, in0, in1, input, outs);
    SafeCompaction(d.s, d'.s, b, level, in0, in1, input, outs);
    CompactedEntries(d.s, b, d'.s.version, d'.s.nextFile, level, in0, in1, input, outs);
    CompactedReplaces(d.s, b, d'.s.version, level, in0, in1, input, outs);
    ReplacedOnDisk(d.s.version, level, in0, in1, outs, d'.s.version, d.tables);
    CompactedOutputs(d, d', level, in0, in1, input, outs);
    ValidStored(d);
    HeldLess(d.held, b.version, d.tables, d.s.nextFile);
    CompactedTables(b, d.s, d'.s.version, level, in0, in1, input, outs, d.s.history, d.flushed);
    Recommitted(d, d');
  }

  lemma ValidStored(d: Durable)
    requires DurInv(d)
    ensures ValidHistory(d.s.history)
  {
  }

  lemma BeginKeeps(d: Durable, d': Durable)
    requires DurInv(d) && BeginStep(d, d')
    ensures DurInv(d')
  {
    hide Inv, TablesFaithful, TablesOnDisk, BasisHolds, HeldOk;
    BasisNow(d.s);
    HeldMore(d.s, d.held, d.tables);
    SameOutputs(d, d');
  }

  lemma BasisNow(s: State)
    requires Inv(s)
    ensures BasisHolds(Now(s), s)
  {
    hide Faithful, Newer, ValidHistory;
  }

  lemma GiveUpKeeps(d: Durable, d': Durable)
    requires DurInv(d) && GiveUpStep(d, d')
    ensures DurInv(d')
  {
    hide Inv, TablesFaithful, TablesOnDisk, HeldOk;
    HeldLess(d.held, d.job.value.version, d.tables, d.s.nextFile);
    SameOutputs(d, d');
  }

  lemma SameOutputs(d: Durable, d': Durable)
    requires OutputsOk(d) && d'.s == d.s && d'.tables == d.tables && d'.outputs == d.outputs && d'.flushing == d.flushing
    ensures OutputsOk(d')
  {
    forall n | n in d'.outputs ensures OutputOk(d', n) {
      assert OutputOk(d, n);
    }
  }

  // ---------------------------------------------------------------------
  // Every step
  // ---------------------------------------------------------------------

  lemma DurStepKeeps(d: Durable, a: Event, d': Durable)
    requires DurInv(d) && DurStep(d, a, d')
    ensures DurInv(d')
  {
    hide DurInv;
    match a
    case Append(added) => AppendKeeps(d, d', added);
    case Sync => SyncKeeps(d, d');
    case Ack(sync) => AckKeeps(d, d', sync);
    case SwitchLog => SwitchKeeps(d, d');
    case Build(es) => NewTable(d, d', es);
    case BuildFlush => FlushBuildKeeps(d, d');
    case Abandon(n) => AbandonKeeps(d, d', n);
    case Flush(level, size) => FlushCommitKeeps(d, d', level, size);
    case Move(level, f) => MoveCommitKeeps(d, d', level, f);
    case Begin => BeginKeeps(d, d');
    case GiveUp => GiveUpKeeps(d, d');
    case Compact(level, in0, in1, input, outs) => CompactCommitKeeps(d, d', level, in0, in1, input, outs);
    case Hold => HoldKeeps(d, d');
    case Drop(v) => DropKeeps(d, d', v);
    case RemoveTable(n) => DeleteTableKeeps(d, d', n);
    case RemoveLog(n) => DeleteLogKeeps(d, d', n);
    case Snapshots => SnapshotsKeep(d, d');
  }

  /** A new store, once opened: the manifest and one log. */
  function InitialDurable(): Durable {
    Durable(Initial().(nextFile := 4), map[3 := LogFile([], 0)], map[], Descriptor(EMPTY, 3, 4, 0), 3, None, map[], None, None, multiset{}, 0, 0, 0, {})
  }

  lemma InitialDurInv()
    ensures DurInv(InitialDurable())
  {
    hide Inv, ValidVersion, Numbered;
    var d := InitialDurable();
    Db.InitialInv();
    Renumbered(Initial(), d.s);
    Db.EmptyValid();
    Db.NumberedLater(EMPTY, 2, 4);
    assert Entries(EMPTY) == {};
    forall l | 0 <= l < |EMPTY| ensures EMPTY[l] == [] {}
  }

  ghost predicate InNeededLog(d: Durable, e: Entry) {
    exists k :: k in d.logs && k >= d.manifest.logNumber && e in Flatten(d.logs[k].records)
  }

  lemma InItsLog(d: Durable, i: nat)
    requires DurInv(d) && d.flushed <= i < |d.s.history|
    ensures var n := if i < d.switched then d.immLog else d.active;
            n in d.logs && n >= d.manifest.logNumber && d.s.history[i] in Flatten(d.logs[n].records)
  {
    hide Inv, TablesFaithful, TablesOnDisk, ManifestCurrent, SyncKept, OutputsOk;
    if i < d.switched {
      InSlice(d.s.history, d.flushed, d.switched, i);
    } else {
      InSlice(d.s.history, d.switched, |d.s.history|, i);
    }
  }

  lemma Accounted(d: Durable, i: nat)
    requires DurInv(d) && d.flushed <= i < |d.s.history|
    ensures InNeededLog(d, d.s.history[i])
  {
    InItsLog(d, i);
  }

  lemma InSlice(h: seq<Entry>, a: nat, b: nat, i: nat)
    requires a <= i < b <= |h|
    ensures h[i] in h[a..b] && (b == |h| ==> h[i] in h[a..])
  {
    assert h[a..b][i - a] == h[i];
    assert h[a..][i - a] == h[i];
  }

  /** A power loss leaves of each log at least what was synced. */
  ghost predicate Survives(log: LogFile, left: seq<seq<Entry>>) {
    log.synced <= |left| && left <= log.records
  }

  lemma {:induction false} FlattenPrefix(records: seq<seq<Entry>>, n: nat)
    requires n <= |records|
    ensures Flatten(records[..n]) <= Flatten(records)
    decreases |records|
  {
    if n < |records| {
      assert records[..|records| - 1][..n] == records[..n];
      FlattenPrefix(records[..|records| - 1], n);
    } else {
      assert records[..n] == records;
    }
  }

  /** A write acknowledged to a writer that asked for a sync survives a power loss wherever its log still holds it. */
  lemma SyncedSurvives(d: Durable, n: nat, left: seq<seq<Entry>>, e: Entry)
    requires DurInv(d) && n in d.logs && n >= d.manifest.logNumber && Survives(d.logs[n], left)
    requires e in d.syncAcked && e in Flatten(d.logs[n].records)
    ensures e in Flatten(left)
  {
    var log := d.logs[n];
    assert SyncedIn(log, d.syncAcked);
    assert left[..log.synced] == log.records[..log.synced];
    FlattenPrefix(left, log.synced);
  }
}
