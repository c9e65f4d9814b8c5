/**
 Opening a store after a crash: the tables of the manifest, then every log it
 asks for, in order.  If only the process stopped, every acknowledged write
 comes back, and at most one batch that was on its way; if the power failed,
 every write acknowledged after a sync does.
 */
module Recovery {
  import opened Basics
  import opened DbFormat
  import opened Version
  import opened CompactionWork
  import opened VersionBuilder
  import opened Manifest
  import opened CompactionEffect
  import opened DbState
  import Db
  import DbImpl
  import opened Durability

  // ---------------------------------------------------------------------
  // The logs to replay
  // ---------------------------------------------------------------------

  ghost predicate Increasing(ns: seq<nat>) {
    forall i, j :: 0 <= i < j < |ns| ==> ns[i] < ns[j]
  }

  method InsertNumber(ns: seq<nat>, n: nat) returns (r: seq<nat>)
    requires Increasing(ns) && n !in ns
    ensures Increasing(r) && forall k :: k in r <==> k in ns || k == n
  {
    var i := 0;
    while i < |ns| && ns[i] < n
      invariant i <= |ns| && forall j :: 0 <= j < i ==> ns[j] < n
    {
      i := i + 1;
    }
    r := ns[..i] + [n] + ns[i..];
    InsertedAt(ns, i, n, r);
  }

  lemma InsertedAt(ns: seq<nat>, i: nat, n: nat, r: seq<nat>)
    requires Increasing(ns) && i <= |ns| && n !in ns && r == ns[..i] + [n] + ns[i..]
    requires (forall j :: 0 <= j < i ==> ns[j] < n) && (i < |ns| ==> ns[i] >= n)
    ensures Increasing(r) && forall k :: k in r <==> k in ns || k == n
  {
    forall j | i <= j < |ns| ensures n < ns[j] {
      assert ns[j] in ns && ns[i] in ns;
    }
    assert ns == ns[..i] + ns[i..];
  }

  /** The log files numbered at least `min`, in the order in which they were made. */
  method LogsToReplay(logs: map<nat, LogFile>, min: nat) returns (ns: seq<nat>)
    ensures Increasing(ns) && forall n :: n in ns <==> n in logs && n >= min
  {
    ns := [];
    var left := logs.Keys;
    while left != {}
      invariant Increasing(ns) && left <= logs.Keys
      invariant forall n :: n in ns <==> n in logs && n !in left && n >= min
      decreases |left|
    {
      var n :| n in left;
      left := left - {n};
      if n >= min {
        ns := InsertNumber(ns, n);
      }
    }
  }

  function Replayed(logs: map<nat, LogFile>, ns: seq<nat>): seq<Entry>
    requires forall n :: n in ns ==> n in logs
  {
    if ns == [] then []
    else
      assert ns[|ns| - 1] in ns;
      Replayed(logs, ns[..|ns| - 1]) + Flatten(logs[ns[|ns| - 1]].records)
  }

  lemma OneLog(ns: seq<nat>, a: nat)
    requires Increasing(ns) && forall n :: n in ns <==> n == a
    ensures ns == [a]
  {
    assert a in ns;
    var i :| 0 <= i < |ns| && ns[i] == a;
    forall k | 0 <= k < |ns| ensures ns[k] == a && k == i {
      assert ns[k] in ns;
    }
    assert ns[0] == a && ns[|ns| - 1] == a;
  }

  lemma TwoLogs(ns: seq<nat>, a: nat, b: nat)
    requires Increasing(ns) && a < b && forall n :: n in ns <==> n == a || n == b
    ensures ns == [a, b]
  {
    assert a in ns && b in ns;
    var i :| 0 <= i < |ns| && ns[i] == a;
    var j :| 0 <= j < |ns| && ns[j] == b;
    forall k | 0 <= k < |ns| ensures (ns[k] == a && k == i) || (ns[k] == b && k == j) {
      assert ns[k] in ns;
    }
    assert ns[0] < ns[1] && ns[|ns| - 1] == b;
  }

  // ---------------------------------------------------------------------
  // What a crash leaves
  // ---------------------------------------------------------------------

  /** Of each log still needed at least what was synced is left; tables and manifest are synced before they count. */
  ghost predicate CrashImage(d: Durable, logs: map<nat, LogFile>) {
    && logs.Keys == d.logs.Keys
    && forall n :: n in logs && n >= d.manifest.logNumber ==> Survives(d.logs[n], logs[n].records)
  }

  /** The writes left in the logs that recovery replays. */
  ghost function Survivors(d: Durable, logs: map<nat, LogFile>): seq<Entry>
    requires DurInv(d) && CrashImage(d, logs)
  {
    (if d.s.imm.Some? then Flatten(logs[d.immLog].records) else []) + Flatten(logs[d.active].records)
  }

  /** The history as far as it is left. */
  ghost function Remaining(d: Durable, logs: map<nat, LogFile>): seq<Entry>
    requires DurInv(d) && CrashImage(d, logs)
  {
    d.s.history[..d.flushed] + Survivors(d, logs)
  }

  lemma LogsAreSurvivors(d: Durable, logs: map<nat, LogFile>, ns: seq<nat>)
    requires DurInv(d) && CrashImage(d, logs)
    requires Increasing(ns) && forall n :: n in ns <==> n in logs && n >= d.manifest.logNumber
    ensures Replayed(logs, ns) == Survivors(d, logs)
  {
    hide Inv, SyncKept, ManifestCurrent, TablesFaithful, TablesOnDisk, OutputsOk, Survives, Increasing, Flatten;
    if d.s.imm.None? {
      OneLog(ns, d.active);
      assert ns[..0] == [];
    } else {
      TwoLogs(ns, d.immLog, d.active);
      TwoReplayed(logs, d.immLog, d.active);
    }
  }

  lemma LeftIsPrefix(d: Durable, logs: map<nat, LogFile>, n: nat)
    requires CrashImage(d, logs) && n in logs && n >= d.manifest.logNumber
    ensures Flatten(logs[n].records) <= Flatten(d.logs[n].records)
  {
    var left := logs[n].records;
    assert Survives(d.logs[n], left);
    assert left == d.logs[n].records[..|left|];
    FlattenPrefix(d.logs[n].records, |left|);
  }

  /** Sequence numbers that can be replayed on top of `n`. */
  ghost predicate Replayable(es: seq<Entry>, n: nat) {
    Db.Ascends(es, n) && forall i :: 0 <= i < |es| ==> es[i].key.sequence < MAX_SEQUENCE
  }

  lemma TwoPrefixes(a: seq<Entry>, b: seq<Entry>, x: seq<Entry>, y: seq<Entry>, n: nat)
    requires Replayable(a + b, n) && x <= a && y <= b
    ensures Replayable(x + y, n)
  {
    var all, part := a + b, x + y;
    forall i | 0 <= i < |part| ensures part[i] == all[if i < |x| then i else i - |x| + |a|] {
    }
    forall i, j | 0 <= i < j < |part| ensures part[i].key.sequence < part[j].key.sequence {
      assert all[if i < |x| then i else i - |x| + |a|].key.sequence < all[if j < |x| then j else j - |x| + |a|].key.sequence;
    }
    forall i | 0 <= i < |part| ensures n < part[i].key.sequence < MAX_SEQUENCE {
      assert n < all[if i < |x| then i else i - |x| + |a|].key.sequence < MAX_SEQUENCE;
    }
  }

  /** The end of a valid history. */
  lemma TailReplayable(h: seq<Entry>, n: nat)
    requires ValidHistory(h) && n <= |h| && LastNumber(h) < MAX_SEQUENCE
    ensures Replayable(h[n..], LastNumber(h[..n]))
  {
    forall e | e in h ensures e.key.sequence < MAX_SEQUENCE {
      LastIsLargest(h, e);
    }
  }

  lemma TwoReplayed(logs: map<nat, LogFile>, a: nat, b: nat)
    requires a in logs && b in logs
    ensures Replayed(logs, [a, b]) == Flatten(logs[a].records) + Flatten(logs[b].records)
  {
    assert [a, b][..1] == [a] && [a][..0] == [];
    assert Replayed(logs, [a]) == Flatten(logs[a].records);
  }

  // ---------------------------------------------------------------------
  // Replaying
  // ---------------------------------------------------------------------

  /** The state recovery has reached, as a store of its own. */
  function Reached(mem: seq<Entry>, version: Levels, nextFile: nat, history: seq<Entry>): State {
    State(mem, None, version, nextFile, LastNumber(history), [], history)
  }

  /** The tables of the manifest are a store that has made the first `n` writes. */
  lemma TablesAlone(d: Durable, next: nat)
    requires DurInv(d) && d.manifest.nextFile <= next
    ensures Inv(Reached([], d.s.version, next, d.s.history[..d.flushed]))
  {
    var s := Reached([], d.s.version, next, d.s.history[..d.flushed]);
    LastOfPrefix(d.s.history, d.flushed, d.flushed);
    Db.NumberedLater(d.s.version, d.manifest.nextFile, next);
    assert All(s) == Entries(d.s.version);
  }

  lemma Frozen(s: State)
    requires Inv(s) && s.imm.None?
    ensures Inv(s.(mem := [], imm := Some(s.mem)))
  {
    assert All(s.(mem := [], imm := Some(s.mem))) == All(s);
  }

  /** `WriteLevel0Table` without a base version: always level 0. */
  method FlushRecovered(mem: seq<Entry>, version: Levels, nextFile: nat, size: nat, tables: map<nat, seq<Entry>>, ghost history: seq<Entry>)
    returns (w: Levels, tables': map<nat, seq<Entry>>)
    requires Inv(Reached(mem, version, nextFile, history)) && TablesOnDisk(version, tables)
    ensures Inv(Reached([], w, nextFile + 1, history)) && TablesOnDisk(w, tables')
  {
    ghost var s := Reached(mem, version, nextFile, history);
    ghost var frozen := s.(mem := [], imm := Some(mem));
    Frozen(s);
    w, tables' := version, tables;
    if mem != [] {
      var f := MakeFile(nextFile, size, mem);
      Db.MemtableFile(frozen, f);
      Db.NextIsFlushNumber(version, nextFile);
      FlushAdds(version, nextFile, 0, f, version);
      w := LogAndApply(version, FlushEdit(0, f));
      FlushAdds(version, nextFile, 0, f, w);
      tables' := tables[nextFile := mem];
      StillOnDisk(version, nextFile, tables, mem);
      AddedOnDisk(version, 0, f, w, tables');
    }
    Db.FlushKeeps(frozen, Reached([], w, nextFile + 1, history), nextFile, 0, size);
  }

  lemma StillOnDisk(v: Levels, next: nat, tables: map<nat, seq<Entry>>, es: seq<Entry>)
    requires TablesOnDisk(v, tables) && Numbered(v, next)
    ensures TablesOnDisk(v, tables[next := es])
  {
    forall l, f | 0 <= l < |v| && f in v[l] ensures OnDisk(f, tables[next := es]) {
      assert OnDisk(f, tables);
      HasNumber(v, l, f);
    }
  }

  /** Replays one log; full memtables and the last one become level-0 tables. */
  method RecoverLogFile(records: seq<seq<Entry>>, version: Levels, nextFile: nat, tables: map<nat, seq<Entry>>, sizes: nat -> nat,
                        maxSequence: nat, ghost history: seq<Entry>)
    returns (w: Levels, next: nat, tables': map<nat, seq<Entry>>, newMax: nat)
    requires Inv(Reached([], version, nextFile, history)) && TablesOnDisk(version, tables)
    requires Replayable(Flatten(records), LastNumber(history))
    ensures Inv(Reached([], w, next, history + Flatten(records))) && TablesOnDisk(w, tables') && next >= nextFile
    ensures newMax == Max(maxSequence, LastNumber(Flatten(records)))
  {
    hide Inv, TablesOnDisk, Replayable;
    var mem: seq<Entry> := [];
    w, next, tables', newMax := version, nextFile, tables, maxSequence;
    assert history + Flatten([]) == history;
    assert records[..0] == [];
    for i := 0 to |records|
      invariant next >= nextFile && TablesOnDisk(w, tables')
      invariant Inv(Reached(mem, w, next, history + Flatten(records[..i])))
      invariant newMax == Max(maxSequence, LastNumber(Flatten(records[..i])))
    {
      ghost var so := history + Flatten(records[..i]);
      NextRecord(records, i, history);
      mem := ReplayRecord(mem, records[i], w, next, so);
      newMax := Max(newMax, LastNumber(records[i]));
      assert history + Flatten(records[..i + 1]) == so + records[i];
      if * {
        w, tables' := FlushRecovered(mem, w, next, sizes(next), tables', so + records[i]);
        mem, next := [], next + 1;
      }
    }
    assert records[..|records|] == records;
    w, tables' := FlushRecovered(mem, w, next, sizes(next), tables', history + Flatten(records));
    next := next + 1;
  }

  method ReplayRecord(mem: seq<Entry>, record: seq<Entry>, ghost version: Levels, ghost next: nat, ghost history: seq<Entry>)
    returns (r: seq<Entry>)
    requires Inv(Reached(mem, version, next, history)) && Replayable(record, LastNumber(history))
    ensures Inv(Reached(r, version, next, history + record))
  {
    ghost var s := Reached(mem, version, next, history);
    r := DbImpl.InsertInto(mem, record, s);
    Replays(s, Reached(r, version, next, history + record), record);
  }

  lemma Replays(s: State, s': State, record: seq<Entry>)
    requires Inv(s) && s.lastSequence == LastNumber(s.history) && Replayable(record, s.lastSequence)
    requires Sorted(s'.mem) && ToSet(s'.mem) == ToSet(s.mem) + ToSet(record)
    requires s' == s.(mem := s'.mem, history := s.history + record, lastSequence := LastNumber(s.history + record))
    ensures Inv(s')
  {
    Db.TakenHistory(s.history, record, s.lastSequence);
    Db.TakenKeeps(s, s', record);
  }

  lemma SliceReplayable(all: seq<Entry>, a: nat, b: nat, n: nat)
    requires Replayable(all, n) && a <= b <= |all|
    ensures Replayable(all[a..b], if a == 0 then n else all[a - 1].key.sequence)
  {
  }

  lemma LastOfTwo(h: seq<Entry>, before: seq<Entry>)
    ensures LastNumber(h + before) == if before == [] then LastNumber(h) else LastNumber(before)
  {
    assert before == [] ==> h + before == h;
  }

  /** What follows `before` in a replayable sequence can be replayed after it. */
  lemma MiddleReplayable(all: seq<Entry>, before: seq<Entry>, es: seq<Entry>, h: seq<Entry>)
    requires before + es <= all && Replayable(all, LastNumber(h))
    ensures Replayable(es, LastNumber(h + before)) && h + (before + es) == h + before + es
    ensures LastNumber(before + es) == Max(LastNumber(before), LastNumber(es))
  {
    hide Replayable;
    var a, b := |before|, |before| + |es|;
    assert all[..b] == before + es;
    assert all[a..b] == es && all[..a] == before;
    SliceReplayable(all, a, b, LastNumber(h));
    LastOfTwo(h, before);
    LastOfTwo(before, es);
    NumbersGrow(es, LastNumber(h + before), LastNumber(before));
  }

  lemma NumbersGrow(es: seq<Entry>, m: nat, n: nat)
    requires Replayable(es, m) && n <= m
    ensures es != [] ==> LastNumber(es) > n
  {
  }

  lemma NextRecord(records: seq<seq<Entry>>, i: nat, history: seq<Entry>)
    requires i < |records| && Replayable(Flatten(records), LastNumber(history))
    ensures Flatten(records[..i + 1]) == Flatten(records[..i]) + records[i]
    ensures Replayable(records[i], LastNumber(history + Flatten(records[..i])))
    ensures LastNumber(Flatten(records[..i + 1])) == Max(LastNumber(Flatten(records[..i])), LastNumber(records[i]))
  {
    hide Replayable, Flatten;
    assert records[..i + 1] == records[..i] + [records[i]];
    FlattenSnoc(records[..i], records[i]);
    FlattenPrefix(records, i + 1);
    MiddleReplayable(Flatten(records), Flatten(records[..i]), records[i], history);
  }

  // ---------------------------------------------------------------------
  // Opening
  // ---------------------------------------------------------------------

  /** The store as it stands once it is open again. */
  ghost function Reopened(d: Durable, logs: map<nat, LogFile>, version: Levels, next: nat, tables: map<nat, seq<Entry>>,
                          newLog: nat, last: nat): Durable
    requires DurInv(d) && CrashImage(d, logs)
  {
    var h := Remaining(d, logs);
    Durable(Reached([], version, next, h).(lastSequence := last), logs[newLog := LogFile([], 0)], tables,
            Descriptor(version, newLog, next, last), newLog, None, map[], None, None, multiset{}, 0, |h|, |h|, d.syncAcked)
  }

  function MarkFileNumberUsed(next: nat, n: nat): nat {
    if next <= n then n + 1 else next
  }

  /**
   What opening finds: tables that hold what is left of the history, a log
   number beyond all others, and the last sequence number in use.
   */
  ghost predicate RecoveredAs(d: Durable, logs: map<nat, LogFile>, version: Levels, next: nat, tables: map<nat, seq<Entry>>,
                              newLog: nat, last: nat)
  {
    && DurInv(d) && CrashImage(d, logs) && next == newLog + 1 && (forall n :: n in logs ==> n < newLog)
    && TablesOnDisk(version, tables) && Inv(Reached([], version, newLog, Remaining(d, logs)))
    && last == Max(d.manifest.lastSequence, LastNumber(Survivors(d, logs)))
  }

  /** `DBImpl::Recover` and the commit that ends `DB::Open`. */
  method Recover(logs: map<nat, LogFile>, manifest: Descriptor, tables: map<nat, seq<Entry>>, sizes: nat -> nat, ghost d: Durable)
    returns (version: Levels, next: nat, tables': map<nat, seq<Entry>>, newLog: nat, last: nat)
    requires DurInv(d) && CrashImage(d, logs) && manifest == d.manifest && tables == d.tables
    ensures RecoveredAs(d, logs, version, next, tables', newLog, last)
    ensures DurInv(Reopened(d, logs, version, next, tables', newLog, last))
  {
    hide CrashImage, Survivors, Inv, TablesOnDisk, LogsHold, TablesFaithful, Numbered, SyncKept, Replayable, Replayed, Reached;
    var ns: seq<nat> := LogsToReplay(logs, manifest.logNumber);
    ghost var h := d.s.history[..d.flushed];
    TablesAlone(d, manifest.nextFile + 1);
    LogsAreSurvivors(d, logs, ns);
    SurvivorsReplayable(d, logs);
    var maxSequence;
    version, newLog, tables', maxSequence := ReplayLogs(logs, ns, manifest.version, manifest.nextFile + 1, tables, sizes, h);
    next := newLog + 1;
    last := if manifest.lastSequence < maxSequence then maxSequence else manifest.lastSequence;
    LogsBelow(d, logs, ns, newLog);
    Opened(d, logs, version, next, tables', newLog, last);
  }

  lemma SurvivorsReplayable(d: Durable, logs: map<nat, LogFile>)
    requires DurInv(d) && CrashImage(d, logs)
    ensures Replayable(Survivors(d, logs), LastNumber(d.s.history[..d.flushed]))
  {
    hide Inv, ManifestCurrent, SyncKept, TablesOnDisk, OutputsOk, Replayable, TablesFaithful, CrashImage, PendingOk, Flatten;
    AllReplayable(d);
    assert d.active in logs && (d.s.imm.Some? ==> d.immLog in logs) by { SameLogs(d, logs); }
    LeftIsPrefix(d, logs, d.active);
    if d.s.imm.Some? {
      LeftIsPrefix(d, logs, d.immLog);
    }
    LeftReplayable(d.s.history, d.flushed, d.switched, PendingEntries(d),
                   if d.s.imm.Some? then Flatten(logs[d.immLog].records) else [], Flatten(logs[d.active].records));
  }

  lemma SameLogs(d: Durable, logs: map<nat, LogFile>)
    requires CrashImage(d, logs)
    ensures logs.Keys == d.logs.Keys
  {
  }

  lemma LeftReplayable(h: seq<Entry>, m: nat, n: nat, p: seq<Entry>, x: seq<Entry>, y: seq<Entry>)
    requires m <= n <= |h| && Replayable(h[m..] + p, LastNumber(h[..m]))
    requires x <= h[m..n] && y <= h[n..] + p
    ensures Replayable(x + y, LastNumber(h[..m]))
  {
    hide Replayable;
    assert h[m..n] + (h[n..] + p) == h[m..] + p;
    TwoPrefixes(h[m..n], h[n..] + p, x, y, LastNumber(h[..m]));
  }

  lemma AllReplayable(d: Durable)
    requires DurInv(d)
    ensures Replayable(d.s.history[d.flushed..] + PendingEntries(d), LastNumber(d.s.history[..d.flushed]))
  {
    hide DurInv, Replayable;
    var h, p := d.s.history, PendingEntries(d);
    HistoryFacts(d);
    AllTaken(h, p, d.flushed, d.s.lastSequence);
  }

  lemma HistoryFacts(d: Durable)
    requires DurInv(d)
    ensures d.flushed <= |d.s.history| && ValidHistory(d.s.history) && LastNumber(d.s.history) <= d.s.lastSequence
    ensures PendingOk(d)
  {
    hide Faithful, SyncKept, TablesOnDisk, OutputsOk, LogsHold, ManifestCurrent, TablesFaithful, ValidVersion, Numbered;
  }

  lemma AllTaken(h: seq<Entry>, p: seq<Entry>, n: nat, last: nat)
    requires n <= |h| && ValidHistory(h) && LastNumber(h) <= last && last + |p| < MAX_SEQUENCE
    requires forall i :: 0 <= i < |p| ==> p[i].key.sequence == last + 1 + i
    ensures Replayable(h[n..] + p, LastNumber(h[..n]))
  {
    var all := h + p;
    Db.TakenHistory(h, p, last);
    assert all[..n] == h[..n] && all[n..] == h[n..] + p;
    TailReplayable(all, n);
  }

  /** Replays the logs in order; file numbers found in use are not drawn again. */
  method ReplayLogs(logs: map<nat, LogFile>, ns: seq<nat>, base: Levels, first: nat, tables: map<nat, seq<Entry>>, sizes: nat -> nat,
                    ghost h: seq<Entry>)
    returns (version: Levels, next: nat, tables': map<nat, seq<Entry>>, maxSequence: nat)
    requires (forall n :: n in ns ==> n in logs) && Inv(Reached([], base, first, h)) && TablesOnDisk(base, tables)
    requires Replayable(Replayed(logs, ns), LastNumber(h))
    ensures Inv(Reached([], version, next, h + Replayed(logs, ns))) && TablesOnDisk(version, tables')
    ensures next >= first && forall j :: 0 <= j < |ns| ==> ns[j] < next
    ensures maxSequence == LastNumber(Replayed(logs, ns))
  {
    hide Inv, TablesOnDisk, Replayable;
    version, next, tables', maxSequence := base, first, tables, 0;
    assert h + Replayed(logs, ns[..0]) == h;
    for i := 0 to |ns|
      invariant Inv(Reached([], version, next, h + Replayed(logs, ns[..i]))) && TablesOnDisk(version, tables')
      invariant next >= first && forall j :: 0 <= j < i ==> ns[j] < next
      invariant maxSequence == LastNumber(Replayed(logs, ns[..i]))
    {
      var n: nat := ns[i];
      assert n in ns;
      NextLog(logs, ns, i, h);
      ghost var so := h + Replayed(logs, ns[..i]);
      version, next, tables', maxSequence := RecoverLogFile(logs[n].records, version, next, tables', sizes, maxSequence, so);
      ghost var drawn := next;
      next := MarkFileNumberUsed(next, n);
      Later(version, drawn, next, so + Flatten(logs[n].records));
    }
    assert ns[..|ns|] == ns;
  }

  lemma {:induction false} ReplayedPrefix(logs: map<nat, LogFile>, ns: seq<nat>, i: nat)
    requires (forall n :: n in ns ==> n in logs) && i <= |ns|
    ensures Replayed(logs, ns[..i]) <= Replayed(logs, ns)
    decreases |ns|
  {
    if i < |ns| {
      assert ns[..|ns| - 1][..i] == ns[..i];
      ReplayedPrefix(logs, ns[..|ns| - 1], i);
    } else {
      assert ns[..i] == ns;
    }
  }

  lemma NextLog(logs: map<nat, LogFile>, ns: seq<nat>, i: nat, h: seq<Entry>)
    requires (forall n :: n in ns ==> n in logs) && i < |ns| && Replayable(Replayed(logs, ns), LastNumber(h))
    ensures h + Replayed(logs, ns[..i + 1]) == h + Replayed(logs, ns[..i]) + Flatten(logs[ns[i]].records)
    ensures Replayable(Flatten(logs[ns[i]].records), LastNumber(h + Replayed(logs, ns[..i])))
    ensures LastNumber(Replayed(logs, ns[..i + 1])) == Max(LastNumber(Replayed(logs, ns[..i])), LastNumber(Flatten(logs[ns[i]].records)))
  {
    hide Replayable, Flatten;
    assert ns[..i + 1][..i] == ns[..i];
    ReplayedPrefix(logs, ns, i + 1);
    MiddleReplayable(Replayed(logs, ns), Replayed(logs, ns[..i]), Flatten(logs[ns[i]].records), h);
  }

  lemma Later(version: Levels, next: nat, later: nat, history: seq<Entry>)
    requires Inv(Reached([], version, next, history)) && next <= later
    ensures Inv(Reached([], version, later, history))
  {
    Db.NumberedLater(version, next, later);
    assert All(Reached([], version, later, history)) == All(Reached([], version, next, history));
  }

  lemma LogsBelow(d: Durable, logs: map<nat, LogFile>, ns: seq<nat>, newLog: nat)
    requires DurInv(d) && CrashImage(d, logs) && (forall n :: n in ns <==> n in logs && n >= d.manifest.logNumber)
    requires forall j :: 0 <= j < |ns| ==> ns[j] < newLog
    ensures forall n :: n in logs ==> n < newLog
  {
    hide Inv, SyncKept, ManifestCurrent, TablesFaithful, TablesOnDisk, OutputsOk, Survives;
    assert d.active in ns;
    forall n | n in logs ensures n < newLog {
      if n >= d.manifest.logNumber {
        assert n in ns;
      }
    }
  }

  lemma OpenedCuts(d: Durable, logs: map<nat, LogFile>, version: Levels, next: nat, tables: map<nat, seq<Entry>>, newLog: nat, last: nat)
    requires DurInv(d) && CrashImage(d, logs) && next == newLog + 1 && forall n :: n in logs ==> n < newLog
    ensures var r := Reopened(d, logs, version, next, tables, newLog, last); Cuts(r) && LogsHold(r)
  {
    hide DurInv, CrashImage, Survivors;
    var h := Remaining(d, logs);
    assert h[|h|..] == [];
    assert Flatten([]) == [] + [];
  }

  /** With nothing in memory, the tables answer for everything. */
  lemma OpenedTables(version: Levels, next: nat, h: seq<Entry>)
    requires Inv(Reached([], version, next, h))
    ensures TablesFaithful(version, h, |h|)
  {
    assert h[..|h|] == h;
    assert All(Reached([], version, next, h)) == Entries(version);
  }

  /** A write acknowledged after a sync is in a table or survives in its log. */
  lemma SyncedRemain(d: Durable, logs: map<nat, LogFile>, e: Entry)
    requires DurInv(d) && CrashImage(d, logs) && e in d.syncAcked
    ensures e in Remaining(d, logs)
  {
    hide Inv, ManifestCurrent, TablesFaithful, TablesOnDisk, OutputsOk, PendingOk, SyncedIn, Flatten;
    assert e in ToSet(d.s.history);
    var i :| 0 <= i < |d.s.history| && d.s.history[i] == e;
    if i < d.flushed {
      assert d.s.history[..d.flushed][i] == e;
    } else {
      var n := if i < d.switched then d.immLog else d.active;
      InItsLog(d, i);
      assert Survives(d.logs[n], logs[n].records);
      SyncedSurvives(d, n, logs[n].records, e);
    }
  }

  lemma OpenedSynced(d: Durable, logs: map<nat, LogFile>, version: Levels, next: nat, tables: map<nat, seq<Entry>>, newLog: nat, last: nat)
    requires DurInv(d) && CrashImage(d, logs) && forall n :: n in logs ==> n < newLog
    ensures SyncKept(Reopened(d, logs, version, next, tables, newLog, last))
  {
    hide DurInv, CrashImage, Remaining;
    assert SyncedIn(LogFile([], 0), d.syncAcked);
    forall e | e in d.syncAcked ensures e in Remaining(d, logs) {
      SyncedRemain(d, logs, e);
    }
  }

  /** The last sequence number covers all that is left, and is in range. */
  lemma LastCovers(d: Durable, logs: map<nat, LogFile>, last: nat)
    requires DurInv(d) && CrashImage(d, logs) && last == Max(d.manifest.lastSequence, LastNumber(Survivors(d, logs)))
    ensures LastNumber(Remaining(d, logs)) <= last < MAX_SEQUENCE
  {
    hide Faithful, SyncKept, TablesOnDisk, OutputsOk, LogsHold, TablesFaithful, CrashImage, Survivors;
    SurvivorsReplayable(d, logs);
  }

  lemma Raised(s: State, last: nat)
    requires Inv(s) && s.lastSequence <= last < MAX_SEQUENCE
    ensures Inv(s.(lastSequence := last))
  {
    assert All(s.(lastSequence := last)) == All(s);
  }

  lemma Opened(d: Durable, logs: map<nat, LogFile>, version: Levels, next: nat, tables: map<nat, seq<Entry>>, newLog: nat, last: nat)
    requires RecoveredAs(d, logs, version, next, tables, newLog, last)
    ensures DurInv(Reopened(d, logs, version, next, tables, newLog, last))
  {
    hide CrashImage, Remaining, Survivors, Inv, TablesOnDisk, Cuts, LogsHold, TablesFaithful, Numbered, ManifestCurrent, SyncKept;
    var h := Remaining(d, logs);
    var r := Reopened(d, logs, version, next, tables, newLog, last);
    LastCovers(d, logs, last);
    Later(version, newLog, next, h);
    Raised(Reached([], version, next, h), last);
    OpenedTables(version, next, h);
    OpenedCuts(d, logs, version, next, tables, newLog, last);
    OpenedSynced(d, logs, version, next, tables, newLog, last);
    OpenedManifest(d, logs, version, next, tables, newLog, last);
    assert r.s == Reached([], version, next, h).(lastSequence := last);
  }

  lemma OpenedManifest(d: Durable, logs: map<nat, LogFile>, version: Levels, next: nat, tables: map<nat, seq<Entry>>, newLog: nat, last: nat)
    requires DurInv(d) && CrashImage(d, logs) && Inv(Reached([], version, next, Remaining(d, logs)))
    requires LastNumber(Remaining(d, logs)) <= last < MAX_SEQUENCE
    ensures var r := Reopened(d, logs, version, next, tables, newLog, last); Cuts(r) && ManifestCurrent(r) && PendingOk(r) && OutputsOk(r)
  {
    hide DurInv, CrashImage, Remaining, Faithful, ValidVersion, Numbered;
    var h := Remaining(d, logs);
    assert h[..|h|] == h && h[|h|..] == [];
  }

  /** If nothing was lost, the history is whole, with the batch on its way at its end. */
  lemma NothingLost(d: Durable)
    requires DurInv(d)
    ensures CrashImage(d, d.logs) && Remaining(d, d.logs) == d.s.history + PendingEntries(d)
  {
    hide Inv, ManifestCurrent, TablesFaithful, TablesOnDisk, OutputsOk, Flatten;
    assert forall n :: n in d.logs && n >= d.manifest.logNumber ==> SyncedIn(d.logs[n], d.syncAcked);
    var h, p := d.s.history, PendingEntries(d);
    assert h[..d.flushed] + (h[d.flushed..] + p) == h + p;
    if d.s.imm.Some? {
      assert h[d.flushed..d.switched] + (h[d.switched..] + p) == h[d.flushed..] + p;
    } else {
      assert [] + (h[d.switched..] + p) == h[d.flushed..] + p;
    }
  }
}
