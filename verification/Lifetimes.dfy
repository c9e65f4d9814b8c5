/**
 Whole lives of a store: any sequence of its steps, with crashes in between
 after which it is opened again.
 */
module Lifetimes {
  import opened Basics
  import opened DbFormat
  import opened Version
  import opened DbState
  import opened Durability
  import opened Recovery
  import Db

  /** A step of the open store, or a crash and what opening makes of what is left. */
  datatype LifeEvent =
    | Live(event: Event)
    | Crash(logs: map<nat, LogFile>, version: Levels, next: nat, tables: map<nat, seq<Entry>>, newLog: nat, last: nat)

  ghost predicate LifeStep(d: Durable, a: LifeEvent, d': Durable) {
    match a
    case Live(event) => DurStep(d, event, d')
    case Crash(logs, version, next, tables, newLog, last) =>
      && RecoveredAs(d, logs, version, next, tables, newLog, last)
      && d' == Reopened(d, logs, version, next, tables, newLog, last)
  }

  ghost predicate IsLife(states: seq<Durable>, events: seq<LifeEvent>) {
    && |states| == |events| + 1 && states[0] == InitialDurable()
    && forall i :: 0 <= i < |events| ==> LifeStep(states[i], events[i], states[i + 1])
  }

  lemma LifeStepKeeps(d: Durable, a: LifeEvent, d': Durable)
    requires DurInv(d) && LifeStep(d, a, d')
    ensures DurInv(d')
  {
    hide DurInv, DurStep, RecoveredAs;
    match a
    case Live(event) => DurStepKeeps(d, event, d');
    case Crash(logs, version, next, tables, newLog, last) => Opened(d, logs, version, next, tables, newLog, last);
  }

  /** Every state of every life satisfies the invariant. */
  lemma {:induction false} LifeKeeps(states: seq<Durable>, events: seq<LifeEvent>, n: nat)
    requires IsLife(states, events) && n < |states|
    ensures DurInv(states[n])
  {
    hide DurInv, LifeStep;
    if n == 0 {
      InitialDurInv();
    } else {
      LifeKeeps(states, events, n - 1);
      LifeStepKeeps(states[n - 1], events[n - 1], states[n]);
    }
  }

  // ---------------------------------------------------------------------
  // Nothing acknowledged is lost
  // ---------------------------------------------------------------------

  /** The files of the current version and of every referenced one are there, and so is every log with writes they do not hold. */
  ghost predicate NothingMissing(d: Durable) {
    && TablesOnDisk(d.s.version, d.tables) && (forall v :: v in d.held ==> TablesOnDisk(v, d.tables))
    && forall i :: 0 <= i < |d.s.history| ==>
         if i < d.flushed then TablesFaithful(d.s.version, d.s.history, d.flushed) else InNeededLog(d, d.s.history[i])
  }

  /**
   In every state of every life each acknowledged write is among those the
   tables of the current version stand for, or in a log that recovery replays;
   no table of the version, or of one that is referenced, and no such log has been deleted.
   */
  lemma AcknowledgedAccounted(states: seq<Durable>, events: seq<LifeEvent>, n: nat)
    requires IsLife(states, events) && n < |states|
    ensures NothingMissing(states[n])
  {
    hide InNeededLog, IsLife;
    var d := states[n];
    LifeKeeps(states, events, n);
    forall i: nat | d.flushed <= i < |d.s.history| ensures InNeededLog(d, d.s.history[i]) {
      Accounted(d, i);
    }
  }

  /** In every state of every life, reads at live snapshots and at the present are those of the history. */
  lemma LifeReads(states: seq<Durable>, events: seq<LifeEvent>, n: nat, u: UserKey, q: nat)
    requires IsLife(states, events) && n < |states|
    requires q == states[n].s.lastSequence || q in states[n].s.snapshots
    ensures Read(All(states[n].s), u, q) == LastWrite(states[n].s.history, u, q)
  {
    hide IsLife;
    LifeKeeps(states, events, n);
    Db.LiveReads(states[n].s, u, q);
  }

  lemma StepRemembers(d: Durable, a: LifeEvent, d': Durable)
    requires DurInv(d) && LifeStep(d, a, d')
    ensures d.syncAcked <= d'.syncAcked
  {
    hide DurInv, RecoveredAs, SwitchLogStep, FlushInstalls, Rewrites, MoveStep, Built;
    if a == Live(SwitchLog) {
      assert d'.syncAcked == d.syncAcked by { SwitchRemembers(d, d'); }
    }
  }

  lemma SwitchRemembers(d: Durable, d': Durable)
    requires SwitchLogStep(d, d')
    ensures d'.syncAcked == d.syncAcked
  {
  }

  /** A write acknowledged after a sync belongs to the history for ever, whatever crashes come. */
  lemma {:induction false} SyncedForever(states: seq<Durable>, events: seq<LifeEvent>, m: nat, n: nat)
    requires IsLife(states, events) && m <= n < |states|
    ensures states[m].syncAcked <= states[n].syncAcked <= ToSet(states[n].s.history)
    decreases n
  {
    hide DurStep, RecoveredAs, LifeStep, DurInv;
    LifeKeeps(states, events, n);
    AckedInHistory(states[n]);
    if m < n {
      SyncedForever(states, events, m, n - 1);
      LifeKeeps(states, events, n - 1);
      StepRemembers(states[n - 1], events[n - 1], states[n]);
    }
  }

  lemma AckedInHistory(d: Durable)
    requires DurInv(d)
    ensures d.syncAcked <= ToSet(d.s.history)
  {
    hide Inv, Cuts, LogsHold, OutputsOk, TablesFaithful;
  }

  /**
   If a crash takes nothing that was written to the logs, the store that is
   opened again has the whole history, and the batch that was on its way.
   */
  lemma ProcessCrashLosesNothing(states: seq<Durable>, events: seq<LifeEvent>, n: nat)
    requires IsLife(states, events) && n < |events| && events[n].Crash? && events[n].logs == states[n].logs
    ensures states[n + 1].s.history == states[n].s.history + PendingEntries(states[n])
  {
    hide DurInv, CrashImage, Remaining;
    LifeKeeps(states, events, n);
    NothingLost(states[n]);
    assert LifeStep(states[n], events[n], states[n + 1]);
  }
}
