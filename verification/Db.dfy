/**
 Whatever the run of the store, a read at a live snapshot returns the last
 write the history holds for its key.
 */
module Db {
  import opened Basics
  import opened DbFormat
  import opened Version
  import opened InputSelection
  import opened DropRules
  import opened CompactionWork
  import opened VersionBuilder
  import opened Manifest
  import opened CompactionEffect
  import opened DbState

  // ---------------------------------------------------------------------
  // Reads
  // ---------------------------------------------------------------------

  /** A memtable or version layered over an older set of entries. */
  lemma LayeredRead(upper: set<Entry>, lower: set<Entry>, u: UserKey, q: nat, e: Option<Entry>)
    requires Newer(upper, lower)
    requires e.Some? ==> IsNewest(upper, u, q, e.value)
    requires e.None? ==> NoneVisible(upper, u, q)
    ensures e.Some? ==> IsNewest(upper + lower, u, q, e.value)
    ensures e.None? ==> forall f :: IsNewest(lower, u, q, f) ==> IsNewest(upper + lower, u, q, f)
    ensures e.None? && NoneVisible(lower, u, q) ==> NoneVisible(upper + lower, u, q)
  {
  }

  lemma DistinctSubset(A: set<Entry>, B: set<Entry>)
    requires Distinct(B) && A <= B
    ensures Distinct(A)
  {
  }

  /** `DBImpl::Get`: memtable, immutable memtable, then the version. */
  method Get(mem: seq<Entry>, imm: Option<seq<Entry>>, version: Levels, u: UserKey, q: nat, ghost s: State)
    returns (r: Option<Bytes>)
    requires Inv(s) && Oldest(s) <= q && mem == s.mem && imm == s.imm && version == s.version
    ensures r == LastWrite(s.history, u, q)
  {
    HistoryDistinct(s.history);
    DistinctSubset(All(s), ToSet(s.history));
    LastWriteIsRead(s.history, u, q);
    var e := Search(mem, imm, version, u, q, s);
    if e.Some? {
      ReadNewest(All(s), u, q, e.value);
      return Outcome(e.value);
    } else {
      ReadNothing(All(s), u, q);
      return None;
    }
  }

  method Search(mem: seq<Entry>, imm: Option<seq<Entry>>, version: Levels, u: UserKey, q: nat, ghost s: State)
    returns (e: Option<Entry>)
    requires Structure(s) && mem == s.mem && imm == s.imm && version == s.version
    ensures e.Some? ==> IsNewest(All(s), u, q, e.value)
    ensures e.None? ==> NoneVisible(All(s), u, q)
  {
    ghost var V, I, M := Entries(version), ImmEntries(s), ToSet(mem);
    assert M + I + V == M + (I + V);
    TableGetIsNewest(mem, u, q);
    e := TableGet(mem, u, q);
    LayeredRead(M, I + V, u, q, e);
    if e.Some? {
      return;
    }
    if imm.Some? {
      TableGetIsNewest(imm.value, u, q);
      e := TableGet(imm.value, u, q);
    }
    LayeredRead(I, V, u, q, e);
    if e.Some? {
      return;
    }
    e := Version.Get(version, u, q);
  }

  // ---------------------------------------------------------------------
  // Each step keeps the invariant
  // ---------------------------------------------------------------------

  lemma NewOnTop(A: set<Entry>, N: set<Entry>, u: UserKey, q: nat)
    requires Distinct(A + N) && Newer(N, A)
    ensures NoneVisible(N, u, q) ==> Read(A + N, u, q) == Read(A, u, q)
    ensures !NoneVisible(N, u, q) ==> Read(A + N, u, q) == Read(N, u, q)
  {
    DistinctSubset(A, A + N);
    DistinctSubset(N, A + N);
    if !NoneVisible(N, u, q) {
      var e := NewestExists(N, u, q);
      ReadNewest(N, u, q, e);
      ReadNewest(A + N, u, q, e);
    } else if NoneVisible(A, u, q) {
      ReadNothing(A, u, q);
      ReadNothing(A + N, u, q);
    } else {
      var e := NewestExists(A, u, q);
      ReadNewest(A, u, q, e);
      ReadNewest(A + N, u, q, e);
    }
  }

  lemma FaithfulGrows(A: set<Entry>, H: set<Entry>, N: set<Entry>, oldest: nat)
    requires Distinct(H + N) && A <= H && Newer(N, H) && Faithful(A, H, oldest)
    ensures Faithful(A + N, H + N, oldest)
  {
    DistinctSubset(A + N, H + N);
    forall u, q | q >= oldest ensures Read(A + N, u, q) == Read(H + N, u, q) {
      NewOnTop(A, N, u, q);
      NewOnTop(H, N, u, q);
    }
  }

  /** The entries carry increasing sequence numbers above `n`. */
  ghost predicate Ascends(added: seq<Entry>, n: nat) {
    ValidHistory(added) && forall i :: 0 <= i < |added| ==> added[i].key.sequence > n
  }

  /** The memtable has taken in entries newer than everything before. */
  ghost predicate TakesIn(s: State, s': State, added: seq<Entry>) {
    && Ascends(added, s.lastSequence) && s.lastSequence <= s'.lastSequence < MAX_SEQUENCE && LastNumber(added) <= s'.lastSequence
    && Sorted(s'.mem) && ToSet(s'.mem) == ToSet(s.mem) + ToSet(added)
    && s' == s.(mem := s'.mem, lastSequence := s'.lastSequence, history := s.history + added)
  }

  lemma HistoryBelow(s: State)
    requires Structure(s)
    ensures forall e :: e in ToSet(s.history) ==> e.key.sequence <= s.lastSequence
  {
    forall e | e in ToSet(s.history) ensures e.key.sequence <= s.lastSequence {
      LastIsLargest(s.history, e);
    }
  }

  lemma TakenHistory(h: seq<Entry>, added: seq<Entry>, n: nat)
    requires ValidHistory(h) && LastNumber(h) <= n && Ascends(added, n)
    ensures ValidHistory(h + added) && ToSet(h + added) == ToSet(h) + ToSet(added)
    ensures LastNumber(h + added) == if added == [] then LastNumber(h) else LastNumber(added)
  {
    forall i, j | 0 <= i < j < |h + added| ensures (h + added)[i].key.sequence < (h + added)[j].key.sequence {
      if i < |h| <= j {
        LastIsLargest(h, h[i]);
      }
    }
  }

  lemma TakenStructure(s: State, s': State, added: seq<Entry>)
    requires Inv(s) && TakesIn(s, s', added)
    ensures Structure(s') && Newer(ToSet(added), ToSet(s.history)) && ToSet(s'.history) == ToSet(s.history) + ToSet(added)
  {
    TakenHistory(s.history, added, s.lastSequence);
    HistoryBelow(s);
  }

  lemma TakenKeeps(s: State, s': State, added: seq<Entry>)
    requires Inv(s) && TakesIn(s, s', added)
    ensures Inv(s')
  {
    TakenStructure(s, s', added);
    assert All(s') == All(s) + ToSet(added);
    HistoryDistinct(s'.history);
    FaithfulGrows(All(s), ToSet(s.history), ToSet(added), Oldest(s));
    assert Oldest(s) <= Oldest(s');
  }

  lemma WriteKeeps(s: State, s': State, added: seq<Entry>)
    requires Inv(s) && WriteStep(s, s', added)
    ensures Inv(s')
  {
    TakenKeeps(s, s', added);
  }

  lemma SwitchKeeps(s: State, s': State)
    requires Inv(s) && SwitchStep(s, s')
    ensures Inv(s')
  {
    NumberedLater(s.version, s.nextFile, s.nextFile + 1);
    assert All(s') == All(s);
  }

  lemma NewerAbove(A: set<Entry>, B: set<Entry>)
    requires Newer(A, B)
    ensures Above(A, B)
  {
  }

  lemma NumberedAdded(v: Levels, next: nat, level: nat, f: FileMeta, w: Levels, newNext: nat)
    requires |v| == NUM_LEVELS && Numbered(v, next) && Added(v, level, f, w) && Unused(v, f.number)
    requires next <= newNext && f.number < newNext
    ensures Numbered(w, newNext)
  {
    assert FileSet(w[level]) == FileSet(v[level]) + {f};
    assert NumbersAt(w, level) == NumbersAt(v, level) + {f.number};
    assert forall l :: 0 <= l < |v| ==> AllBelow(NumbersAt(v, l), next) && f.number !in NumbersAt(v, l);
    forall l | 0 <= l < |w| ensures NumbersAt(w, l) == NumbersAt(v, l) + (if l == level then {f.number} else {}) {
    }
    forall g, h | g in FileSet(w[level]) && h in FileSet(w[level]) && g.number == h.number ensures g == h {
      assert g in v[level] ==> g.number in NumbersAt(v, level);
      assert h in v[level] ==> h.number in NumbersAt(v, level);
    }
  }

  lemma MemtableFile(s: State, f: FileMeta)
    requires Inv(s) && s.imm.Some? && s.imm.value != [] && f == MakeFile(f.number, f.size, s.imm.value)
    ensures ValidFile(f) && FileEntries(f) == ImmEntries(s)
  {
    HistoryBelow(s);
    var e := f.entries[|f.entries| - 1];
    assert e in ImmEntries(s) && e in ToSet(s.history);
  }

  lemma FlushedVersion(v: Levels, next: nat, level: nat, f: FileMeta, w: Levels, newNext: nat)
    requires ValidVersion(v) && Numbered(v, next) && ValidFile(f) && FlushNumber(v, f.number) && GoodPlace(v, level, f)
    requires Newer(FileEntries(f), Entries(v)) && Installs(v, FlushEdit(level, f), w)
    requires next <= newNext && f.number < newNext
    ensures ValidVersion(w) && Numbered(w, newNext) && Entries(w) == Entries(v) + FileEntries(f)
  {
    NewerAbove(FileEntries(f), Entries(v));
    FlushAdds(v, next, level, f, w);
    forall g | g in v[0] ensures g.number < f.number {
      HasNumber(v, 0, g);
    }
    AddedValid(v, level, f, w);
    NumberedAdded(v, next, level, f, w, newNext);
  }

  lemma NumberedLater(v: Levels, next: nat, later: nat)
    requires Numbered(v, next) && next <= later
    ensures Numbered(v, later)
  {
  }

  lemma FlushedTableKeeps(s: State, s': State, level: nat, f: FileMeta)
    requires Inv(s) && s.imm.Some? && s.imm.value != [] && f == MakeFile(f.number, f.size, s.imm.value)
    requires FlushNumber(s.version, f.number) && s.nextFile <= s'.nextFile && f.number < s'.nextFile
    requires GoodPlace(s.version, level, f) && Installs(s.version, FlushEdit(level, f), s'.version)
    requires s' == s.(imm := None, version := s'.version, nextFile := s'.nextFile)
    ensures Inv(s')
  {
    MemtableFile(s, f);
    FlushedVersion(s.version, s.nextFile, level, f, s'.version, s'.nextFile);
    WithoutImm(s, s');
  }

  lemma FlushKeeps(s: State, s': State, n: nat, level: nat, size: nat)
    requires Inv(s) && FlushStep(s, s', n, level, size)
    ensures Inv(s')
  {
    if s.imm.value == [] {
      assert ImmEntries(s) == {};
      NumberedLater(s.version, s.nextFile, s'.nextFile);
      WithoutImm(s, s');
    } else {
      FlushedTableKeeps(s, s', level, MakeFile(n, size, s.imm.value));
    }
  }

  /** The counter itself is a number a flushed table may get. */
  lemma NextIsFlushNumber(v: Levels, next: nat)
    requires |v| == NUM_LEVELS && Numbered(v, next)
    ensures FlushNumber(v, next)
  {
    BeyondIsUnused(v, next, next);
  }

  lemma WithoutImm(s: State, s': State)
    requires Inv(s) && s' == s.(imm := None, version := s'.version, nextFile := s'.nextFile)
    requires ValidVersion(s'.version) && Numbered(s'.version, s'.nextFile) && Entries(s'.version) == Entries(s.version) + ImmEntries(s)
    ensures Inv(s')
  {
    hide ValidVersion, Numbered, ValidHistory, Sorted, Faithful, Ascending;
    assert All(s') == All(s);
  }

  lemma WithVersion(s: State, s': State)
    requires Structure(s) && s' == s.(version := s'.version, nextFile := s'.nextFile)
    requires ValidVersion(s'.version) && Numbered(s'.version, s'.nextFile) && Entries(s'.version) <= Entries(s.version)
    ensures Structure(s')
  {
  }

  lemma NumbersDistinct(v: Levels, outs: seq<FileMeta>)
    requires NewNumbers(v, outs)
    ensures UniqueNumbers(FileSet(outs))
    ensures forall n :: n in Numbers(FileSet(outs)) ==> Unused(v, n)
  {
    forall f, g | f in FileSet(outs) && g in FileSet(outs) && f.number == g.number ensures f == g {
      var i :| 0 <= i < |outs| && outs[i] == f;
      var j :| 0 <= j < |outs| && outs[j] == g;
    }
  }

  /** Numbers drawn one after the other from the counter are new. */
  lemma ConsecutiveAreNew(v: Levels, next: nat, outs: seq<FileMeta>)
    requires Numbered(v, next) && forall i :: 0 <= i < |outs| ==> outs[i].number == next + i
    ensures NewNumbers(v, outs)
  {
    forall i | 0 <= i < |outs| ensures Unused(v, outs[i].number) {
      BeyondIsUnused(v, next, next + i);
    }
  }

  lemma UniqueUnion(A: set<FileMeta>, B: set<FileMeta>, C: set<FileMeta>)
    requires UniqueNumbers(A) && UniqueNumbers(B) && Numbers(A) !! Numbers(B) && C <= A + B
    ensures UniqueNumbers(C) && Numbers(C) <= Numbers(A) + Numbers(B)
  {
    assert forall f :: f in A ==> f.number in Numbers(A);
    assert forall f :: f in B ==> f.number in Numbers(B);
  }

  lemma NumbersApart(v: Levels, outs: seq<FileMeta>, l: nat)
    requires l < |v| && NewNumbers(v, outs)
    ensures NumbersAt(v, l) !! Numbers(FileSet(outs))
  {
    NumbersDistinct(v, outs);
    forall n | n in Numbers(FileSet(outs)) ensures n !in NumbersAt(v, l) {
      assert Unused(v, n);
    }
  }

  lemma NumberedReplaced(v: Levels, next: nat, level: nat, in0: seq<FileMeta>, in1: seq<FileMeta>, outs: seq<FileMeta>, w: Levels,
                         newNext: nat)
    requires |v| == NUM_LEVELS && Numbered(v, next) && Replaced(v, level, in0, in1, outs, w) && NewNumbers(v, outs)
    requires next <= newNext && forall i :: 0 <= i < |outs| ==> outs[i].number < newNext
    ensures Numbered(w, newNext)
  {
    NumbersDistinct(v, outs);
    var O := FileSet(outs);
    NumbersApart(v, outs, level + 1);
    UniqueUnion(FileSet(v[level]), {}, FileSet(w[level]));
    UniqueUnion(FileSet(v[level + 1]), O, FileSet(w[level + 1]));
    forall l | 0 <= l < |w| ensures NumbersAt(w, l) <= NumbersAt(v, l) + (if l == level + 1 then Numbers(O) else {}) {
    }
  }

  lemma FreshNumbers(v: Levels, level: nat, outs: seq<FileMeta>)
    requires level + 1 < |v| && NewNumbers(v, outs)
    ensures FreshOutputs(v, level, outs)
  {
    NumbersDistinct(v, outs);
    NumbersApart(v, outs, level + 1);
  }

  /** The outputs of the compaction loop are fit to replace its inputs. */
  lemma KeptOutputs(v: Levels, level: nat, in0: seq<FileMeta>, in1: seq<FileMeta>, input: seq<Entry>, snapshot: nat, outs: seq<FileMeta>)
    requires Sorted(input) && ToSet(input) == LevelEntries(in0) + LevelEntries(in1)
    requires forall e :: e in input ==> e.key.sequence <= MAX_SEQUENCE
    requires Contents(outs) == Kept(v, level, input, |input|, snapshot)
    requires forall i :: 0 <= i < |outs| ==> FinishedFile(outs[i])
    ensures OutputsFrom(in0, in1, outs) && LevelEntries(outs) == ToSet(Kept(v, level, input, |input|, snapshot))
  {
    KeptSorted(v, level, input, |input|, snapshot);
    KeptMembers(v, level, input, |input|, snapshot);
    OutputsSorted(outs);
    assert forall e :: e in LevelEntries(outs) ==> e in ToSet(input);
  }

  /** The version after a compaction: valid, and its entries are the untouched ones plus the outputs'. */
  lemma CompactedVersion(v: Levels, next: nat, level: nat, in0: seq<FileMeta>, in1: seq<FileMeta>, outs: seq<FileMeta>, w: Levels,
                         newNext: nat)
    requires ValidVersion(v) && Numbered(v, next) && level + 1 < |v| && GoodInputs(v[level], v[level + 1], in0, in1)
    requires OutputsFrom(in0, in1, outs) && NewNumbers(v, outs)
    requires next <= newNext && forall i :: 0 <= i < |outs| ==> outs[i].number < newNext
    requires Installs(v, CompactionEdit(level, in0, in1, outs), w)
    ensures ValidVersion(w) && Numbered(w, newNext)
    ensures Entries(w) == RestEntries(v, level, in0, in1) + LevelEntries(outs)
  {
    FreshNumbers(v, level, outs);
    InputsInNext(v[level + 1], in0, in1);
    EditReplaces(v, next, level, in0, in1, outs, w);
    ReplacedValid(v, level, in0, in1, outs, w);
    NumberedReplaced(v, next, level, in0, in1, outs, w, newNext);
    EntriesAfter(v, level, in0, in1, outs, w);
  }

  lemma InputsInNext(next: seq<FileMeta>, in0: seq<FileMeta>, in1: seq<FileMeta>)
    requires MeetsRange(next, in0, in1)
    ensures forall f :: f in in1 ==> f in next
  {
  }

  /** Before the compaction the store holds its inputs and everything outside them. */
  lemma SplitStore(s: State, level: nat, in0: seq<FileMeta>, in1: seq<FileMeta>, input: seq<Entry>)
    requires level + 1 < |s.version| && GoodInputs(s.version[level], s.version[level + 1], in0, in1)
    requires ToSet(input) == LevelEntries(in0) + LevelEntries(in1)
    ensures Entries(s.version) == RestEntries(s.version, level, in0, in1) + ToSet(input)
    ensures All(s) == Before(Outside(s, level, in0, in1), input)
  {
    InputsInNext(s.version[level + 1], in0, in1);
    EntriesBefore(s.version, level, in0, in1);
  }

  lemma InputSequences(s: State, input: seq<Entry>)
    requires Inv(s) && ToSet(input) <= All(s)
    ensures forall e :: e in input ==> e.key.sequence <= MAX_SEQUENCE
  {
    HistoryBelow(s);
    forall e | e in input ensures e.key.sequence <= MAX_SEQUENCE {
      assert e in ToSet(input) && e in ToSet(s.history);
    }
  }

  lemma CompactVersionFacts(v: Levels, next: nat, b: Basis, level: nat, in0: seq<FileMeta>, in1: seq<FileMeta>,
                            input: seq<Entry>, outs: seq<FileMeta>, w: Levels, newNext: nat)
    requires ValidVersion(v) && Numbered(v, next) && Compacted(v, b, level, in0, in1, input, outs, w)
    requires next <= newNext && forall i :: 0 <= i < |outs| ==> outs[i].number < newNext
    requires forall e :: e in input ==> e.key.sequence <= MAX_SEQUENCE
    ensures ValidVersion(w) && Numbered(w, newNext)
    ensures Entries(w) == RestEntries(v, level, in0, in1) + ToSet(Kept(b.version, level, input, |input|, b.snapshot))
  {
    KeptOutputs(b.version, level, in0, in1, input, b.snapshot, outs);
    CompactedVersion(v, next, level, in0, in1, outs, w, newNext);
  }

  lemma CompactKeeps(s: State, s': State, b: Basis, level: nat, in0: seq<FileMeta>, in1: seq<FileMeta>, input: seq<Entry>, outs: seq<FileMeta>)
    requires Inv(s) && CompactStep(s, s', b, level, in0, in1, input, outs)
    ensures Inv(s')
  {
    SplitStore(s, level, in0, in1, input);
    InputSequences(s, input);
    CompactVersionFacts(s.version, s.nextFile, b, level, in0, in1, input, outs, s'.version, s'.nextFile);
    CompactedStore(s, s', b, level, in0, in1, input);
  }

  lemma CompactedStore(s: State, s': State, b: Basis, level: nat, in0: seq<FileMeta>, in1: seq<FileMeta>, input: seq<Entry>)
    requires Inv(s) && Sorted(input) && NothingExposed(s, b, level, in0, in1, input) && b.snapshot <= Oldest(s)
    requires Entries(s.version) == RestEntries(s.version, level, in0, in1) + ToSet(input)
    requires All(s) == Before(Outside(s, level, in0, in1), input)
    requires s' == s.(version := s'.version, nextFile := s'.nextFile)
    requires ValidVersion(s'.version) && Numbered(s'.version, s'.nextFile)
    requires Entries(s'.version) == RestEntries(s.version, level, in0, in1) + ToSet(Kept(b.version, level, input, |input|, b.snapshot))
    ensures Inv(s')
  {
    KeptWithin(b.version, level, input, b.snapshot);
    WithVersion(s, s');
    CompactedReads(s, s', b, level, in0, in1, input);
  }

  lemma CompactedReads(s: State, s': State, b: Basis, level: nat, in0: seq<FileMeta>, in1: seq<FileMeta>, input: seq<Entry>)
    requires ValidHistory(s.history) && All(s) <= ToSet(s.history) && Faithful(All(s), ToSet(s.history), Oldest(s))
    requires Sorted(input) && NothingExposed(s, b, level, in0, in1, input) && b.snapshot <= Oldest(s)
    requires All(s) == Before(Outside(s, level, in0, in1), input)
    requires s' == s.(version := s'.version, nextFile := s'.nextFile)
    requires Entries(s'.version) == RestEntries(s.version, level, in0, in1) + ToSet(Kept(b.version, level, input, |input|, b.snapshot))
    ensures All(s') <= ToSet(s'.history) && Faithful(All(s'), ToSet(s'.history), Oldest(s'))
  {
    var O := Outside(s, level, in0, in1);
    assert All(s') == After(b.version, level, O, input, b.snapshot);
    AfterWithinBefore(b.version, level, O, input, b.snapshot);
    HistoryDistinct(s.history);
    DistinctSubset(All(s), ToSet(s.history));
    CompactFaithful(s, b, level, in0, in1, input);
  }

  lemma KeptWithin(v: Levels, level: nat, input: seq<Entry>, snapshot: nat)
    ensures ToSet(Kept(v, level, input, |input|, snapshot)) <= ToSet(input)
  {
    KeptMembers(v, level, input, |input|, snapshot);
  }

  lemma CompactFaithful(s: State, b: Basis, level: nat, in0: seq<FileMeta>, in1: seq<FileMeta>, input: seq<Entry>)
    requires Sorted(input) && NothingExposed(s, b, level, in0, in1, input) && b.snapshot <= Oldest(s)
    requires Distinct(Before(Outside(s, level, in0, in1), input))
    requires Faithful(Before(Outside(s, level, in0, in1), input), ToSet(s.history), Oldest(s))
    ensures Faithful(After(b.version, level, Outside(s, level, in0, in1), input, b.snapshot), ToSet(s.history), Oldest(s))
  {
    var O := Outside(s, level, in0, in1);
    forall u, q | q >= Oldest(s) ensures Read(After(b.version, level, O, input, b.snapshot), u, q) == Read(ToSet(s.history), u, q) {
      UnexposedReads(b.version, level, O, input, b.snapshot, u, q);
    }
  }

  lemma MovedReplaces(v: Levels, next: nat, level: nat, f: FileMeta, w: Levels)
    requires ValidVersion(v) && Numbered(v, next) && level + 1 < |v| && f in v[level]
    requires Installs(v, CompactionEdit(level, [f], [], [f]), w)
    ensures Replaced(v, level, [f], [], [f], w) && OutputsFrom([f], [], [f])
    ensures Entries(w) == Entries(v)
  {
    MovedFresh(v, next, level, f);
    EditReplaces(v, next, level, [f], [], [f], w);
    EntriesAfter(v, level, [f], [], [f], w);
    EntriesBefore(v, level, [f], []);
    assert LevelEntries([]) == {};
  }

  lemma MovedVersion(v: Levels, next: nat, level: nat, f: FileMeta, w: Levels)
    requires ValidVersion(v) && Numbered(v, next) && level + 1 < |v| && GoodInputs(v[level], v[level + 1], [f], [])
    requires Installs(v, CompactionEdit(level, [f], [], [f]), w)
    ensures ValidVersion(w) && Numbered(w, next) && Entries(w) == Entries(v)
  {
    assert f in [f] && f in v[level];
    MovedReplaces(v, next, level, f, w);
    ReplacedValid(v, level, [f], [], [f], w);
    NumberedMoved(v, next, level, f, w);
  }

  lemma MoveKeeps(s: State, s': State, level: nat, f: FileMeta)
    requires Inv(s) && MoveStep(s, s', level, f)
    ensures Inv(s')
  {
    hide ValidVersion, Numbered, ValidHistory, Sorted, Faithful, Ascending;
    MovedVersion(s.version, s.nextFile, level, f, s'.version);
    WithVersion(s, s');
    assert All(s') == All(s);
  }

  lemma MovedFresh(v: Levels, next: nat, level: nat, f: FileMeta)
    requires level + 1 < |v| && Numbered(v, next) && f in v[level]
    ensures FreshOutputs(v, level, [f])
  {
    HasNumber(v, level, f);
    assert NumbersAt(v, level) !! NumbersAt(v, level + 1);
    assert FileSet([f]) == {f};
  }

  lemma NumberedMoved(v: Levels, next: nat, level: nat, f: FileMeta, w: Levels)
    requires |v| == NUM_LEVELS && Numbered(v, next) && Replaced(v, level, [f], [], [f], w) && f in v[level]
    ensures Numbered(w, next)
  {
    MovedFresh(v, next, level, f);
    HasNumber(v, level, f);
    assert FileSet([f]) == {f};
    UniqueUnion(FileSet(v[level]), {}, FileSet(w[level]));
    UniqueUnion(FileSet(v[level + 1]), {f}, FileSet(w[level + 1]));
    assert f.number !in NumbersAt(w, level) by {
      assert f in FileSet(v[level]);
      assert f in [f];
    }
    forall l | 0 <= l < |w| ensures NumbersAt(w, l) <= NumbersAt(v, l) + (if l == level + 1 then {f.number} else {}) {
    }
  }

  lemma SnapshotKeeps(s: State, s': State)
    requires Inv(s) && SnapshotStep(s, s')
    ensures Inv(s')
  {
    assert forall i :: 0 <= i < |s.snapshots| ==> s.snapshots[i] in s.snapshots;
    assert Oldest(s') == Oldest(s);
    assert All(s') == All(s);
  }

  lemma ReleaseKeeps(s: State, s': State, i: nat)
    requires Inv(s) && ReleaseStep(s, s', i)
    ensures Inv(s')
  {
    assert s.snapshots[0] in s.snapshots;
    assert Oldest(s) <= Oldest(s');
    assert forall q :: q in s'.snapshots ==> q in s.snapshots;
    assert All(s') == All(s);
  }

  // ---------------------------------------------------------------------
  // Runs
  // ---------------------------------------------------------------------

  lemma StepKeeps(s: State, a: Action, s': State)
    requires Inv(s) && Step(s, a, s')
    ensures Inv(s')
  {
    match a
    case Write(added) => WriteKeeps(s, s', added);
    case Switch => SwitchKeeps(s, s');
    case Flush(n, level, size) => FlushKeeps(s, s', n, level, size);
    case Move(level, f) => MoveKeeps(s, s', level, f);
    case Compact(b, level, in0, in1, input, outs) => CompactKeeps(s, s', b, level, in0, in1, input, outs);
    case TakeSnapshot => SnapshotKeeps(s, s');
    case ReleaseSnapshot(i) => ReleaseKeeps(s, s', i);
  }

  lemma EmptyValid()
    ensures ValidVersion(EMPTY) && Numbered(EMPTY, 2) && Entries(EMPTY) == {}
  {
    forall l | 0 <= l < |EMPTY| ensures EMPTY[l] == [] {}
    assert forall l :: 0 <= l < |EMPTY| ==> LevelEntries(EMPTY[l]) == {};
    assert forall l :: 0 <= l < |EMPTY| ==> FileSet(EMPTY[l]) == {} && NumbersAt(EMPTY, l) == {};
  }

  lemma InitialInv()
    ensures Inv(Initial())
  {
    EmptyValid();
    var s := Initial();
    assert All(s) == {} == ToSet(s.history);
  }

  /** Every state of every run satisfies the invariant. */
  lemma {:induction false} RunKeeps(states: seq<State>, actions: seq<Action>, n: nat)
    requires IsRun(states, actions) && n < |states|
    ensures Inv(states[n])
  {
    if n == 0 {
      InitialInv();
    } else {
      RunKeeps(states, actions, n - 1);
      StepKeeps(states[n - 1], actions[n - 1], states[n]);
    }
  }

  lemma LiveReads(s: State, u: UserKey, q: nat)
    requires Inv(s) && (q == s.lastSequence || q in s.snapshots)
    ensures Read(All(s), u, q) == LastWrite(s.history, u, q)
  {
    if q in s.snapshots {
      var i :| 0 <= i < |s.snapshots| && s.snapshots[i] == q;
    } else if s.snapshots != [] {
      assert s.snapshots[0] in s.snapshots;
    }
    LastWriteIsRead(s.history, u, q);
  }

  /** In every state of every run, reads at live snapshots and at the present are those of the history. */
  lemma RunReads(states: seq<State>, actions: seq<Action>, n: nat, u: UserKey, q: nat)
    requires IsRun(states, actions) && n < |states|
    requires q == states[n].lastSequence || q in states[n].snapshots
    ensures Read(All(states[n]), u, q) == LastWrite(states[n].history, u, q)
  {
    RunKeeps(states, actions, n);
    LiveReads(states[n], u, q);
  }
}
