/**
 The writer queue.  The head of the queue writes for itself and for a run of
 writers behind it; the others sleep until they are told the outcome.
 */
module GroupCommit {
  import opened Basics
  import WriteBatch

  type WriterId = nat

  /** Updates, and the size of the batch that encodes them. */
  datatype Batch = Batch(updates: seq<WriteBatch.Update>, size: nat)

  /** A queued call of `Write`; a null batch asks for a compaction instead. */
  datatype Writer = Writer(batch: Option<Batch>, sync: bool)

  function Updates(w: Writer): seq<WriteBatch.Update> {
    if w.batch.Some? then w.batch.value.updates else []
  }

  function Size(w: Writer): nat {
    if w.batch.Some? then w.batch.value.size else 0
  }

  /** The updates of the first `n` writers, in queue order. */
  function Merged(queue: seq<Writer>, n: nat): seq<WriteBatch.Update>
    requires n <= |queue|
  {
    if n == 0 then [] else Merged(queue, n - 1) + Updates(queue[n - 1])
  }

  function GroupSize(queue: seq<Writer>, n: nat): nat
    requires n <= |queue|
  {
    if n == 0 then 0
    else GroupSize(queue, n - 1) + Size(queue[n - 1])
  }

  function MaxSize(first: nat): nat {
    if first <= 128 * 1024 then first + 128 * 1024 else 1024 * 1024
  }

  /** May writer `k` not join a group led by the head? */
  ghost predicate Stops(queue: seq<Writer>, k: nat)
    requires 0 < k < |queue|
  {
    || (queue[k].sync && !queue[0].sync)
    || (queue[k].batch.Some? && GroupSize(queue, k + 1) > MaxSize(Size(queue[0])))
  }

  /** The longest run of writers the head may take along. */
  ghost predicate IsGroup(queue: seq<Writer>, n: nat) {
    && 0 < n <= |queue|
    && (forall k :: 0 < k < n ==> !Stops(queue, k))
    && (n < |queue| ==> Stops(queue, n))
  }

  /** `BuildBatchGroup`: how many writers join, and their updates in one batch. */
  method BuildBatchGroup(queue: seq<Writer>) returns (n: nat, result: seq<WriteBatch.Update>)
    requires queue != [] && queue[0].batch.Some?
    ensures IsGroup(queue, n) && result == Merged(queue, n)
  {
    var first := queue[0];
    result := first.batch.value.updates;
    var size := first.batch.value.size;
    var maxSize := 1024 * 1024;
    if size <= 128 * 1024 {
      maxSize := size + 128 * 1024;
    }
    n := 1;
    assert Merged(queue, 0) == [] && GroupSize(queue, 0) == 0;
    while n < |queue|
      invariant 0 < n <= |queue| && result == Merged(queue, n) && size == GroupSize(queue, n)
      invariant forall k :: 0 < k < n ==> !Stops(queue, k)
    {
      var w := queue[n];
      if w.sync && !first.sync {
        break;
      }
      if w.batch.Some? {
        size := size + w.batch.value.size;
        if size > maxSize {
          break;
        }
        result := result + w.batch.value.updates;
      }
      n := n + 1;
    }
  }

  /** A group led by a writer without sync contains no writer that wants one. */
  lemma GroupSync(queue: seq<Writer>, n: nat, k: nat)
    requires IsGroup(queue, n) && k < n && queue[k].sync
    ensures queue[0].sync
  {
    if k > 0 {
      assert !Stops(queue, k);
    }
  }

  // ---------------------------------------------------------------------
  // The queue as a state machine
  // ---------------------------------------------------------------------

  datatype Status = Ok | Failed

  /** A record of the log: the first sequence number, the updates, and whether it has been synced. */
  datatype Record = Record(first: nat, updates: seq<WriteBatch.Update>, synced: bool)

  /** What the head is doing while the mutex is released. */
  datatype Work =
    | Idle
    | Writing(n: nat, updates: seq<WriteBatch.Update>)
    | Appended(n: nat, updates: seq<WriteBatch.Update>)
    | Finished(n: nat, status: Status, record: Option<nat>)

  /** The answer a writer got; `record` is the log record its updates went into, `offset` their place in it. */
  datatype Answer = Answer(writer: Writer, status: Status, record: Option<nat>, offset: nat)

  /** A wake-up: the writers it told the outcome, that outcome, and the log record of their updates if there is one. */
  datatype Group = Group(writers: seq<Writer>, status: Status, record: Option<nat>)

  datatype Queue = Queue(waiting: seq<Writer>, work: Work, lastSequence: nat, log: seq<Record>, failed: bool,
                         answers: seq<Answer>, groups: seq<Group>)

  ghost predicate Join(q: Queue, q': Queue, w: Writer) {
    q' == q.(waiting := q.waiting + [w])
  }

  /** `MakeRoomForWrite` returns the background error. */
  ghost predicate Refuse(q: Queue, q': Queue) {
    q.work.Idle? && q.waiting != [] && q.failed && q' == q.(work := Finished(1, Failed, None))
  }

  /** A null batch only forces a compaction: nothing is written. */
  ghost predicate Skip(q: Queue, q': Queue) {
    q.work.Idle? && q.waiting != [] && q.waiting[0].batch.None? && !q.failed && q' == q.(work := Finished(1, Status.Ok, None))
  }

  /** The head forms its group and releases the mutex. */
  ghost predicate Lead(q: Queue, q': Queue, n: nat) {
    && q.work.Idle? && q.waiting != [] && q.waiting[0].batch.Some? && !q.failed
    && IsGroup(q.waiting, n) && q' == q.(work := Writing(n, Merged(q.waiting, n)))
  }

  ghost predicate AppendOk(q: Queue, q': Queue) {
    && q.work.Writing?
    && q' == q.(work := Appended(q.work.n, q.work.updates), log := q.log + [Record(q.lastSequence + 1, q.work.updates, false)])
  }

  /** A failed append still uses up the sequence numbers. */
  ghost predicate AppendFails(q: Queue, q': Queue) {
    q.work.Writing? && q' == q.(work := Finished(q.work.n, Failed, None), lastSequence := q.lastSequence + |q.work.updates|)
  }

  /** Syncs if the head asked for it, then inserts into the memtable. */
  ghost predicate Complete(q: Queue, q': Queue) {
    && q.work.Appended? && q.waiting != [] && q.log != []
    && var last := |q.log| - 1;
       q' == q.(work := Finished(q.work.n, Status.Ok, Some(last)), lastSequence := q.lastSequence + |q.work.updates|,
                log := if q.waiting[0].sync then q.log[last := q.log[last].(synced := true)] else q.log)
  }

  /** A failed sync leaves the record in doubt; no later write is accepted. */
  ghost predicate SyncFails(q: Queue, q': Queue) {
    && q.work.Appended? && q.waiting != [] && q.waiting[0].sync
    && q.log != []
    && q' == q.(work := Finished(q.work.n, Failed, Some(|q.log| - 1)), lastSequence := q.lastSequence + |q.work.updates|,
                failed := true)
  }

  /** The first `n` writers' answers, in queue order. */
  function AnswersFor(queue: seq<Writer>, n: nat, status: Status, record: Option<nat>): (r: seq<Answer>)
    requires n <= |queue|
    ensures |r| == n
  {
    if n == 0 then []
    else AnswersFor(queue, n - 1, status, record) + [Answer(queue[n - 1], status, record, |Merged(queue, n - 1)|)]
  }

  lemma {:induction false} AnswerAt(queue: seq<Writer>, n: nat, status: Status, record: Option<nat>, i: nat)
    requires i < n <= |queue|
    ensures AnswersFor(queue, n, status, record)[i] == Answer(queue[i], status, record, |Merged(queue, i)|)
  {
    if i < n - 1 {
      AnswerAt(queue, n - 1, status, record, i);
    }
  }

  lemma {:induction false} MergedPrefix(a: seq<Writer>, b: seq<Writer>, n: nat)
    requires n <= |a| && n <= |b| && forall i :: 0 <= i < n ==> a[i] == b[i]
    ensures Merged(a, n) == Merged(b, n)
  {
    if n > 0 {
      MergedPrefix(a, b, n - 1);
    }
  }

  /** The wake-up loop of `Write`: pops writers up to the last one of the group and gives each the status. */
  method WakeGroup(queue: seq<Writer>, n: nat, status: Status, record: Option<nat>)
    returns (rest: seq<Writer>, answers: seq<Answer>)
    requires 0 < n <= |queue|
    ensures rest == queue[n..] && answers == AnswersFor(queue, n, status, record)
  {
    rest, answers := queue, [];
    var ready, offset := 0, 0;
    while ready < n
      invariant ready <= n && rest == queue[ready..] && offset == |Merged(queue, ready)|
      invariant answers == AnswersFor(queue, ready, status, record)
    {
      answers := answers + [Answer(rest[0], status, record, offset)];
      offset := offset + |Updates(rest[0])|;
      rest := rest[1..];
      ready := ready + 1;
    }
  }

  /** The head takes its group off the queue and wakes each of its writers with the group's status. */
  ghost predicate Wake(q: Queue, q': Queue) {
    && q.work.Finished? && q.work.n <= |q.waiting|
    && q' == q.(work := Idle, waiting := q.waiting[q.work.n..],
                answers := q.answers + AnswersFor(q.waiting, q.work.n, q.work.status, q.work.record),
                groups := q.groups + [Group(q.waiting[..q.work.n], q.work.status, q.work.record)])
  }

  /** The background thread hits an error. */
  ghost predicate Break(q: Queue, q': Queue) {
    q' == q.(failed := true)
  }

  datatype Step = JoinQueue(w: Writer) | RefuseHead | SkipNull | LeadGroup(n: nat) | Append | AppendFailure | CompleteGroup
                | SyncFailure | WakeGroup | BackgroundError

  ghost predicate Next(q: Queue, s: Step, q': Queue) {
    match s
    case JoinQueue(w) => Join(q, q', w)
    case RefuseHead => Refuse(q, q')
    case SkipNull => Skip(q, q')
    case LeadGroup(n) => Lead(q, q', n)
    case Append => AppendOk(q, q')
    case AppendFailure => AppendFails(q, q')
    case CompleteGroup => Complete(q, q')
    case SyncFailure => SyncFails(q, q')
    case WakeGroup => Wake(q, q')
    case BackgroundError => Break(q, q')
  }

  const START: Queue := Queue([], Idle, 0, [], false, [], [])

  ghost predicate IsRun(qs: seq<Queue>, steps: seq<Step>) {
    && |qs| == |steps| + 1 && qs[0] == START
    && forall i :: 0 <= i < |steps| ==> Next(qs[i], steps[i], qs[i + 1])
  }

  /** The writers that joined in the first `n` steps, in order of joining. */
  function Joined(steps: seq<Step>, n: nat): seq<Writer>
    requires n <= |steps|
  {
    if n == 0 then []
    else Joined(steps, n - 1) + if steps[n - 1].JoinQueue? then [steps[n - 1].w] else []
  }

  // ---------------------------------------------------------------------
  // What every run keeps
  // ---------------------------------------------------------------------

  /** How many of the first `n` groups have a record. */
  function Recorded(groups: seq<Group>, n: nat): nat
    requires n <= |groups|
  {
    if n == 0 then 0 else Recorded(groups, n - 1) + if groups[n - 1].record.Some? then 1 else 0
  }

  /**
   The record of a group holds the updates of its writers, one after the other
   and nothing else, and comes right after the records of the groups before;
   success means it is there, synced if any writer asked for that.
   */
  ghost predicate GroupOk(log: seq<Record>, groups: seq<Group>, g: nat)
    requires g < |groups|
  {
    var h := groups[g];
    && (h.record.Some? ==>
          && h.record.value == Recorded(groups, g) < |log|
          && log[h.record.value].updates == Merged(h.writers, |h.writers|))
    && (h.status.Ok? ==> if h.record.Some? then SyncKept(log, h) else forall w :: w in h.writers ==> w.batch.None?)
  }

  ghost predicate SyncKept(log: seq<Record>, h: Group)
    requires h.record.Some? && h.record.value < |log|
  {
    forall k :: 0 <= k < |h.writers| && h.writers[k].sync ==> log[h.record.value].synced
  }

  ghost predicate GroupsOk(log: seq<Record>, groups: seq<Group>) {
    forall g :: 0 <= g < |groups| ==> GroupOk(log, groups, g)
  }

  /** The answers given by the first `n` groups: every writer gets its group's status. */
  function AnswersOf(groups: seq<Group>, n: nat): seq<Answer>
    requires n <= |groups|
  {
    if n == 0 then []
    else
      var h := groups[n - 1];
      AnswersOf(groups, n - 1) + AnswersFor(h.writers, |h.writers|, h.status, h.record)
  }

  /** A record whose sync failed: it may or may not survive. */
  predicate InDoubt(g: Group) {
    g.status.Failed? && g.record.Some?
  }

  predicate Refused(g: Group) {
    g.status.Failed? && g.record.None?
  }

  /** After a failed sync every group is refused. */
  ghost predicate DoubtIsFinal(q: Queue) {
    && (forall g, h :: 0 <= g < h < |q.groups| && InDoubt(q.groups[g]) ==> Refused(q.groups[h]))
    && (forall g :: 0 <= g < |q.groups| && InDoubt(q.groups[g]) ==> Stuck(q))
    && (q.work.Finished? && q.work.status.Failed? && q.work.record.Some? ==> q.failed)
  }

  ghost predicate Stuck(q: Queue) {
    q.failed && (q.work.Idle? || (q.work.Finished? && q.work.status.Failed? && q.work.record.None?))
  }

  /** Records carry increasing, disjoint ranges of sequence numbers. */
  ghost predicate Ascending(log: seq<Record>, next: nat) {
    && (forall i :: 0 <= i < |log| ==> log[i].first >= 1 && log[i].first + |log[i].updates| <= next)
    && (forall i, j :: 0 <= i < j < |log| ==> log[i].first + |log[i].updates| <= log[j].first)
  }

  /** The group at work is a prefix of the queue, and what it writes are its writers' updates in order. */
  ghost predicate WorkOk(q: Queue) {
    match q.work
    case Idle => true
    case Writing(n, us) => GroupAtWork(q.waiting, n, us)
    case Appended(n, us) =>
      && GroupAtWork(q.waiting, n, us) && q.log != []
      && q.log[|q.log| - 1] == Record(q.lastSequence + 1, us, false)
    case Finished(n, status, record) =>
      && 0 < n <= |q.waiting|
      && (record.Some? ==>
            && IsPrefixGroup(q.waiting, n) && record.value + 1 == |q.log|
            && q.log[record.value].updates == Merged(q.waiting, n)
            && (status.Ok? && q.waiting[0].sync ==> q.log[record.value].synced))
      && (status.Ok? && record.None? ==> n == 1 && q.waiting[0].batch.None?)
  }

  /** A group, seen from a queue that may have grown since it was formed. */
  ghost predicate IsPrefixGroup(waiting: seq<Writer>, n: nat) {
    0 < n <= |waiting| && waiting[0].batch.Some? && forall k :: 0 <= k < n && waiting[k].sync ==> waiting[0].sync
  }

  ghost predicate GroupAtWork(waiting: seq<Writer>, n: nat, us: seq<WriteBatch.Update>) {
    IsPrefixGroup(waiting, n) && us == Merged(waiting, n)
  }

  function Used(q: Queue): nat {
    if q.work.Appended? then q.lastSequence + 1 + |q.work.updates| else q.lastSequence + 1
  }

  /** The record the group at work has written and not yet answered for. */
  function Unanswered(q: Queue): nat {
    if q.work.Appended? || (q.work.Finished? && q.work.record.Some?) then 1 else 0
  }

  ghost predicate QueueInv(q: Queue) {
    && WorkOk(q) && GroupsOk(q.log, q.groups) && Ascending(q.log, Used(q)) && DoubtIsFinal(q)
    && |q.log| == Recorded(q.groups, |q.groups|) + Unanswered(q)
    && q.answers == AnswersOf(q.groups, |q.groups|)
  }

  lemma GroupGrows(waiting: seq<Writer>, w: Writer, n: nat)
    requires n <= |waiting|
    ensures Merged(waiting + [w], n) == Merged(waiting, n)
  {
    MergedPrefix(waiting + [w], waiting, n);
  }

  lemma JoinKeeps(q: Queue, q': Queue, w: Writer)
    requires QueueInv(q) && Join(q, q', w)
    ensures QueueInv(q')
  {
    if !q.work.Idle? {
      GroupGrows(q.waiting, w, q.work.n);
    }
  }

  lemma LeadKeeps(q: Queue, q': Queue, n: nat)
    requires QueueInv(q) && Lead(q, q', n)
    ensures QueueInv(q')
  {
    forall k | 0 <= k < n && q.waiting[k].sync ensures q.waiting[0].sync {
      GroupSync(q.waiting, n, k);
    }
  }

  lemma GroupsLater(log: seq<Record>, log': seq<Record>, groups: seq<Group>)
    requires GroupsOk(log, groups) && |log| <= |log'|
    requires forall i :: 0 <= i < |log| ==> log'[i].updates == log[i].updates && (log[i].synced ==> log'[i].synced)
    ensures GroupsOk(log', groups)
  {
    forall g | 0 <= g < |groups| ensures GroupOk(log', groups, g) {
      assert GroupOk(log, groups, g);
    }
  }

  lemma AppendKeeps(q: Queue, q': Queue)
    requires QueueInv(q) && AppendOk(q, q')
    ensures QueueInv(q')
  {
    GroupsLater(q.log, q'.log, q.groups);
  }

  lemma CompleteKeeps(q: Queue, q': Queue)
    requires QueueInv(q) && Complete(q, q')
    ensures QueueInv(q')
  {
    GroupsLater(q.log, q'.log, q.groups);
  }

  lemma {:induction false} RecordedPrefix(groups: seq<Group>, g: Group, n: nat)
    requires n <= |groups|
    ensures Recorded(groups + [g], n) == Recorded(groups, n)
  {
    if n > 0 {
      RecordedPrefix(groups, g, n - 1);
    }
  }

  lemma {:induction false} AnswersPrefix(groups: seq<Group>, g: Group, n: nat)
    requires n <= |groups|
    ensures AnswersOf(groups + [g], n) == AnswersOf(groups, n)
  {
    if n > 0 {
      AnswersPrefix(groups, g, n - 1);
    }
  }

  lemma {:induction false} AnswersForPrefix(queue: seq<Writer>, m: nat, n: nat, status: Status, record: Option<nat>)
    requires n <= m <= |queue|
    ensures AnswersFor(queue[..m], n, status, record) == AnswersFor(queue, n, status, record)
  {
    if n > 0 {
      AnswersForPrefix(queue, m, n - 1, status, record);
      MergedPrefix(queue[..m], queue, n - 1);
    }
  }

  /** The group just answered satisfies what groups satisfy. */
  lemma NewGroupOk(q: Queue, q': Queue)
    requires QueueInv(q) && Wake(q, q')
    ensures GroupOk(q'.log, q'.groups, |q.groups|)
  {
    var n := q.work.n;
    RecordedPrefix(q.groups, q'.groups[|q.groups|], |q.groups|);
    MergedPrefix(q.waiting[..n], q.waiting, n);
  }

  lemma WakeGroups(q: Queue, q': Queue)
    requires QueueInv(q) && Wake(q, q')
    ensures GroupsOk(q'.log, q'.groups)
  {
    forall g | 0 <= g < |q'.groups| ensures GroupOk(q'.log, q'.groups, g) {
      if g < |q.groups| {
        assert GroupOk(q.log, q.groups, g);
        RecordedPrefix(q.groups, q'.groups[|q.groups|], g);
      } else {
        NewGroupOk(q, q');
      }
    }
  }

  lemma WakeAnswers(q: Queue, q': Queue)
    requires QueueInv(q) && Wake(q, q')
    ensures q'.answers == AnswersOf(q'.groups, |q'.groups|)
  {
    AnswersPrefix(q.groups, q'.groups[|q.groups|], |q.groups|);
    AnswersForPrefix(q.waiting, q.work.n, q.work.n, q.work.status, q.work.record);
  }

  lemma WakeKeeps(q: Queue, q': Queue)
    requires QueueInv(q) && Wake(q, q')
    ensures QueueInv(q')
  {
    WakeGroups(q, q');
    WakeAnswers(q, q');
    RecordedPrefix(q.groups, q'.groups[|q.groups|], |q.groups|);
  }

  lemma OthersKeep(q: Queue, s: Step, q': Queue)
    requires QueueInv(q) && Next(q, s, q')
    requires s.RefuseHead? || s.SkipNull? || s.BackgroundError?
    ensures QueueInv(q')
  {
  }

  lemma FailureKeeps(q: Queue, q': Queue)
    requires QueueInv(q) && (AppendFails(q, q') || SyncFails(q, q'))
    ensures QueueInv(q')
  {
  }

  lemma StepKeeps(q: Queue, s: Step, q': Queue)
    requires QueueInv(q) && Next(q, s, q')
    ensures QueueInv(q')
  {
    match s
    case JoinQueue(w) => JoinKeeps(q, q', w);
    case LeadGroup(n) => LeadKeeps(q, q', n);
    case Append => AppendKeeps(q, q');
    case CompleteGroup => CompleteKeeps(q, q');
    case AppendFailure => FailureKeeps(q, q');
    case SyncFailure => FailureKeeps(q, q');
    case WakeGroup => WakeKeeps(q, q');
    case _ => OthersKeep(q, s, q');
  }

  lemma {:induction false} RunKeeps(qs: seq<Queue>, steps: seq<Step>, n: nat)
    requires IsRun(qs, steps) && n < |qs|
    ensures QueueInv(qs[n])
  {
    if n > 0 {
      RunKeeps(qs, steps, n - 1);
      StepKeeps(qs[n - 1], steps[n - 1], qs[n]);
    }
  }

  // ---------------------------------------------------------------------
  // Order of answers, and statuses
  // ---------------------------------------------------------------------

  /** Answer `i` goes to the writer that joined as number `i`. */
  ghost predicate InOrder(q: Queue, joined: seq<Writer>) {
    && |q.answers| + |q.waiting| == |joined|
    && (forall i :: 0 <= i < |q.answers| ==> q.answers[i].writer == joined[i])
    && (forall i :: 0 <= i < |q.waiting| ==> q.waiting[i] == joined[|q.answers| + i])
  }

  lemma NewAnswer(q: Queue, joined: seq<Writer>, i: nat)
    requires q.work.Finished? && i < q.work.n <= |q.waiting| && InOrder(q, joined)
    ensures AnswersFor(q.waiting, q.work.n, q.work.status, q.work.record)[i].writer == joined[|q.answers| + i]
  {
    AnswerAt(q.waiting, q.work.n, q.work.status, q.work.record, i);
  }

  lemma WakeInOrder(q: Queue, q': Queue, joined: seq<Writer>)
    requires Wake(q, q') && InOrder(q, joined)
    ensures InOrder(q', joined)
  {
    var added := AnswersFor(q.waiting, q.work.n, q.work.status, q.work.record);
    forall i | 0 <= i < |q'.answers| ensures q'.answers[i].writer == joined[i] {
      if i >= |q.answers| {
        NewAnswer(q, joined, i - |q.answers|);
        assert q'.answers[i] == added[i - |q.answers|];
      }
    }
  }

  lemma StepInOrder(q: Queue, s: Step, q': Queue, joined: seq<Writer>)
    requires Next(q, s, q') && InOrder(q, joined)
    ensures InOrder(q', joined + if s.JoinQueue? then [s.w] else [])
  {
    if s.WakeGroup? {
      WakeInOrder(q, q', joined);
      assert joined + [] == joined;
    }
  }

  /** Every writer is answered exactly once, in the order of joining; the others are still queued. */
  lemma {:induction false} FirstComeFirstServed(qs: seq<Queue>, steps: seq<Step>, n: nat)
    requires IsRun(qs, steps) && n < |qs|
    ensures InOrder(qs[n], Joined(steps, n))
  {
    if n > 0 {
      FirstComeFirstServed(qs, steps, n - 1);
      assert Next(qs[n - 1], steps[n - 1], qs[n]);
      StepInOrder(qs[n - 1], steps[n - 1], qs[n], Joined(steps, n - 1));
    }
  }

  // ---------------------------------------------------------------------
  // Sequence numbers
  // ---------------------------------------------------------------------

  /** The group that gave answer `i`, and its writer's place there. */
  lemma {:induction false} Locate(groups: seq<Group>, n: nat, i: nat) returns (g: nat, k: nat)
    requires n <= |groups| && i < |AnswersOf(groups, n)|
    ensures g < n && k < |groups[g].writers| && i == |AnswersOf(groups, g)| + k
    ensures var h := groups[g];
            AnswersOf(groups, n)[i] == Answer(h.writers[k], h.status, h.record, |Merged(h.writers, k)|)
  {
    var before := AnswersOf(groups, n - 1);
    if i < |before| {
      g, k := Locate(groups, n - 1, i);
    } else {
      g, k := n - 1, i - |before|;
      var h := groups[g];
      AnswerAt(h.writers, |h.writers|, h.status, h.record, k);
    }
  }

  lemma {:induction false} AnswersGrow(groups: seq<Group>, g: nat, n: nat)
    requires g <= n <= |groups|
    ensures |AnswersOf(groups, g)| <= |AnswersOf(groups, n)|
  {
    if g < n {
      AnswersGrow(groups, g, n - 1);
    }
  }

  lemma {:induction false} RecordedGrows(groups: seq<Group>, g: nat, n: nat)
    requires g <= n <= |groups|
    ensures Recorded(groups, g) <= Recorded(groups, n)
  {
    if g < n {
      RecordedGrows(groups, g, n - 1);
    }
  }

  lemma {:induction false} MergedContains(queue: seq<Writer>, i: nat, n: nat)
    requires i < n <= |queue|
    ensures var a, us := |Merged(queue, i)|, Updates(queue[i]);
            a + |us| <= |Merged(queue, n)| && Merged(queue, n)[a..a + |us|] == us
  {
    var a, us := |Merged(queue, i)|, Updates(queue[i]);
    if i < n - 1 {
      MergedContains(queue, i, n - 1);
      StaysInPrefix(Merged(queue, n - 1), Updates(queue[n - 1]), a, a + |us|);
    }
  }

  lemma StaysInPrefix(s: seq<WriteBatch.Update>, t: seq<WriteBatch.Update>, a: nat, b: nat)
    requires a <= b <= |s|
    ensures (s + t)[a..b] == s[a..b]
  {
  }

  lemma {:induction false} MergedGrows(queue: seq<Writer>, i: nat, j: nat)
    requires i < j <= |queue|
    ensures |Merged(queue, i)| + |Updates(queue[i])| <= |Merged(queue, j)|
    ensures j == i + 1 ==> |Merged(queue, i)| + |Updates(queue[i])| == |Merged(queue, j)|
  {
    if i < j - 1 {
      MergedGrows(queue, i, j - 1);
    }
  }

  /** An accepted batch. */
  predicate Accepted(a: Answer) {
    a.status.Ok? && a.writer.batch.Some?
  }

  /** The writer's updates stand in its record, at its offset; with sync, the record is synced. */
  ghost predicate Placed(log: seq<Record>, a: Answer) {
    && a.record.Some? && a.record.value < |log|
    && var r := log[a.record.value];
       && a.offset + |Updates(a.writer)| <= |r.updates|
       && r.updates[a.offset..a.offset + |Updates(a.writer)|] == Updates(a.writer)
       && (a.writer.sync ==> r.synced)
  }

  /** The sequence number of the first update of an accepted batch. */
  function FirstSequence(log: seq<Record>, a: Answer): nat
    requires a.record.Some? && a.record.value < |log|
  {
    log[a.record.value].first + a.offset
  }

  lemma AcceptedPlaced(q: Queue, i: nat)
    requires QueueInv(q) && i < |q.answers| && Accepted(q.answers[i])
    ensures Placed(q.log, q.answers[i])
  {
    var g, k := Locate(q.groups, |q.groups|, i);
    assert GroupOk(q.log, q.groups, g);
    MergedContains(q.groups[g].writers, k, |q.groups[g].writers|);
    assert q.groups[g].writers[k] in q.groups[g].writers;
  }

  /** Of two accepted batches the one answered first has the smaller numbers; in one record neighbours adjoin. */
  lemma AcceptedOrdered(q: Queue, i: nat, j: nat)
    requires QueueInv(q) && i < j < |q.answers| && Accepted(q.answers[i]) && Accepted(q.answers[j])
    requires Placed(q.log, q.answers[i]) && Placed(q.log, q.answers[j])
    ensures FirstSequence(q.log, q.answers[i]) + |Updates(q.answers[i].writer)| <= FirstSequence(q.log, q.answers[j])
    ensures q.answers[i].record == q.answers[j].record && j == i + 1 ==>
              FirstSequence(q.log, q.answers[i]) + |Updates(q.answers[i].writer)| == FirstSequence(q.log, q.answers[j])
  {
    var g, k := Locate(q.groups, |q.groups|, i);
    var h, l := Locate(q.groups, |q.groups|, j);
    RecordsInOrder(q, g, h);
    if g == h {
      MergedGrows(q.groups[g].writers, k, l);
    } else {
      GroupsInOrder(q.groups, i, j, g, k, h, l);
    }
  }

  lemma RecordsInOrder(q: Queue, g: nat, h: nat)
    requires QueueInv(q) && g < |q.groups| && h < |q.groups|
    requires q.groups[g].record.Some? && q.groups[h].record.Some?
    ensures q.groups[g].record.value < |q.log| && q.groups[h].record.value < |q.log|
    ensures g < h ==> q.groups[g].record.value < q.groups[h].record.value
  {
    assert GroupOk(q.log, q.groups, g) && GroupOk(q.log, q.groups, h);
    if g < h {
      RecordedGrows(q.groups, g + 1, h);
    }
  }

  lemma GroupsInOrder(groups: seq<Group>, i: nat, j: nat, g: nat, k: nat, h: nat, l: nat)
    requires g < |groups| && h < |groups| && g != h && k < |groups[g].writers| && l < |groups[h].writers|
    requires i == |AnswersOf(groups, g)| + k && j == |AnswersOf(groups, h)| + l && i < j
    ensures g < h
  {
    if h < g {
      AnswersGrow(groups, h + 1, g);
    }
  }

  /**
   In every state of every run: an accepted batch stands in a log record, synced
   if its writer asked for that; accepted batches take strictly increasing
   sequence numbers in the order of the queue, and adjoin within a record.
   */
  lemma Acknowledged(qs: seq<Queue>, steps: seq<Step>, n: nat, i: nat, j: nat)
    requires IsRun(qs, steps) && n < |qs| && i < j < |qs[n].answers|
    requires Accepted(qs[n].answers[i]) && Accepted(qs[n].answers[j])
    ensures var q := qs[n];
            var a, b := q.answers[i], q.answers[j];
            && Placed(q.log, a) && Placed(q.log, b) && Ascending(q.log, Used(q))
            && FirstSequence(q.log, a) + |Updates(a.writer)| <= FirstSequence(q.log, b)
            && (a.record == b.record && j == i + 1 ==> FirstSequence(q.log, a) + |Updates(a.writer)| == FirstSequence(q.log, b))
  {
    RunKeeps(qs, steps, n);
    AcceptedPlaced(qs[n], i);
    AcceptedPlaced(qs[n], j);
    AcceptedOrdered(qs[n], i, j);
  }

  /** An accepted batch stands in its record, whether or not any other was accepted. */
  lemma AcknowledgedPlaced(qs: seq<Queue>, steps: seq<Step>, n: nat, i: nat)
    requires IsRun(qs, steps) && n < |qs| && i < |qs[n].answers| && Accepted(qs[n].answers[i])
    ensures Placed(qs[n].log, qs[n].answers[i])
  {
    RunKeeps(qs, steps, n);
    AcceptedPlaced(qs[n], i);
  }

  /**
   In every state of every run: the answers are those of the groups, each writer
   having its group's status and record; the groups that wrote own the records
   of the log one each, in order, and a record is made of its group's updates in
   the order of the queue; a group that failed without a record wrote nothing;
   and after a record whose sync failed no group is accepted any more.
   */
  lemma GroupsOwnTheLog(qs: seq<Queue>, steps: seq<Step>, n: nat)
    requires IsRun(qs, steps) && n < |qs|
    ensures var q := qs[n];
            && q.answers == AnswersOf(q.groups, |q.groups|)
            && GroupsOk(q.log, q.groups)
            && |q.log| == Recorded(q.groups, |q.groups|) + Unanswered(q)
            && DoubtIsFinal(q)
  {
    RunKeeps(qs, steps, n);
  }
}
