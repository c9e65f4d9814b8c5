/**
 Internal keys, entries and the meaning of a read.

 The engine looks at a user key only through the comparator, that is, through
 its place in one total order.  A user key is therefore represented by a real
 number; `Comparator.RankPreservesOrder` shows that byte strings under the
 bytewise comparator embed into the reals in this way.
 */
module DbFormat {
  import opened Basics

  type UserKey = real

  datatype ValueType = Deletion | Value

  datatype InternalKey = InternalKey(user: UserKey, sequence: nat, kind: ValueType)

  /** `kMaxSequenceNumber`: sequence numbers leave eight bits for the type. */
  const MAX_SEQUENCE: nat := 0xFF_FFFF_FFFF_FFFF

  const NUM_LEVELS: nat := 7

  /** Increasing user key, then decreasing sequence number, then decreasing type. */
  predicate Less(a: InternalKey, b: InternalKey) {
    || a.user < b.user
    || (a.user == b.user && a.sequence > b.sequence)
    || (a.user == b.user && a.sequence == b.sequence && a.kind.Value? && b.kind.Deletion?)
  }

  predicate AtMost(a: InternalKey, b: InternalKey) {
    a == b || Less(a, b)
  }

  /** The key a lookup of `u` at snapshot `s` seeks to: before every entry of `u` it may see. */
  function SeekKey(u: UserKey, s: nat): InternalKey {
    InternalKey(u, s, Value)
  }

  datatype Entry = Entry(key: InternalKey, value: Bytes)

  /** What a reader learns from the newest entry it can see. */
  function Outcome(e: Entry): Option<Bytes> {
    if e.key.kind.Value? then Some(e.value) else None
  }

  ghost predicate Sorted(es: seq<Entry>) {
    forall i, j :: 0 <= i < j < |es| ==> Less(es[i].key, es[j].key)
  }

  ghost function ToSet(es: seq<Entry>): set<Entry> {
    set e | e in es
  }

  // ---------------------------------------------------------------------
  // Reads of a set of entries
  // ---------------------------------------------------------------------

  ghost predicate Visible(e: Entry, u: UserKey, s: nat) {
    e.key.user == u && e.key.sequence <= s
  }

  /** No two entries share a user key and a sequence number. */
  ghost predicate Distinct(S: set<Entry>) {
    forall e, f :: e in S && f in S && e.key.user == f.key.user && e.key.sequence == f.key.sequence ==> e == f
  }

  ghost predicate IsNewest(S: set<Entry>, u: UserKey, s: nat, e: Entry) {
    e in S && Visible(e, u, s) &&
    forall f :: f in S && Visible(f, u, s) ==> f.key.sequence <= e.key.sequence
  }

  ghost predicate NoneVisible(S: set<Entry>, u: UserKey, s: nat) {
    forall f :: f in S ==> !Visible(f, u, s)
  }

  /** The multi-version map: the newest entry of `u` at or below `s` decides. */
  ghost function Read(S: set<Entry>, u: UserKey, s: nat): Option<Bytes> {
    if exists e :: IsNewest(S, u, s, e) then
      var e :| IsNewest(S, u, s, e);
      Outcome(e)
    else None
  }

  lemma ReadNewest(S: set<Entry>, u: UserKey, s: nat, e: Entry)
    requires Distinct(S) && IsNewest(S, u, s, e)
    ensures Read(S, u, s) == Outcome(e)
  {
    var f :| IsNewest(S, u, s, f) && Read(S, u, s) == Outcome(f);
    assert IsNewest(S, u, s, f);
    assert f.key.sequence == e.key.sequence;
  }

  lemma ReadNothing(S: set<Entry>, u: UserKey, s: nat)
    requires NoneVisible(S, u, s)
    ensures Read(S, u, s) == None
  {
  }

  lemma {:induction false} NewestExists(S: set<Entry>, u: UserKey, s: nat) returns (e: Entry)
    requires !NoneVisible(S, u, s)
    ensures IsNewest(S, u, s, e)
    decreases S
  {
    var f :| f in S && Visible(f, u, s);
    var rest := S - {f};
    if NoneVisible(rest, u, s) {
      e := f;
    } else {
      var g := NewestExists(rest, u, s);
      e := if f.key.sequence <= g.key.sequence then g else f;
    }
    assert forall x :: x in S ==> x == f || x in rest;
  }

  // ---------------------------------------------------------------------
  // The write history, the simple specification of the whole store
  // ---------------------------------------------------------------------

  /** Operations in the order they were sequenced; a number may have been lost, none is used twice. */
  ghost predicate ValidHistory(h: seq<Entry>) {
    && (forall i :: 0 <= i < |h| ==> h[i].key.sequence > 0)
    && (forall i, j :: 0 <= i < j < |h| ==> h[i].key.sequence < h[j].key.sequence)
  }

  /** The number of the last operation. */
  function LastNumber(h: seq<Entry>): nat {
    if h == [] then 0 else h[|h| - 1].key.sequence
  }

  lemma LastIsLargest(h: seq<Entry>, e: Entry)
    requires ValidHistory(h) && e in h
    ensures e.key.sequence <= LastNumber(h)
  {
    var i :| 0 <= i < |h| && h[i] == e;
  }

  /** The last write to `u` numbered at most `s`, found by scanning backwards. */
  function LastWrite(h: seq<Entry>, u: UserKey, s: nat): Option<Bytes> {
    if h == [] then None
    else
      var e := h[|h| - 1];
      if e.key.user == u && e.key.sequence <= s then Outcome(e)
      else LastWrite(h[..|h| - 1], u, s)
  }

  lemma HistoryDistinct(h: seq<Entry>)
    requires ValidHistory(h)
    ensures Distinct(ToSet(h))
  {
    forall e, f | e in ToSet(h) && f in ToSet(h) && e.key.user == f.key.user && e.key.sequence == f.key.sequence
      ensures e == f
    {
      var i :| 0 <= i < |h| && h[i] == e;
      var j :| 0 <= j < |h| && h[j] == f;
      assert i == j;
    }
  }

  /** Entries that are not visible make no difference. */
  lemma SameVisible(R: set<Entry>, S: set<Entry>, u: UserKey, s: nat)
    requires Distinct(S) && Distinct(R) && R <= S && forall f :: f in S && Visible(f, u, s) ==> f in R
    ensures Read(S, u, s) == Read(R, u, s)
  {
    if NoneVisible(R, u, s) {
      ReadNothing(S, u, s);
      ReadNothing(R, u, s);
    } else {
      var n := NewestExists(R, u, s);
      ReadNewest(R, u, s, n);
      ReadNewest(S, u, s, n);
    }
  }

  lemma {:induction false} LastWriteIsRead(h: seq<Entry>, u: UserKey, s: nat)
    requires ValidHistory(h)
    ensures Read(ToSet(h), u, s) == LastWrite(h, u, s)
  {
    hide Read, NoneVisible;
    var S := ToSet(h);
    if h == [] {
      ReadNothing(S, u, s);
    } else {
      var rest := h[..|h| - 1];
      var e := h[|h| - 1];
      assert h == rest + [e];
      HistoryDistinct(h);
      if Visible(e, u, s) {
        forall f | f in S && Visible(f, u, s) ensures f.key.sequence <= e.key.sequence {
          var i :| 0 <= i < |h| && h[i] == f;
        }
        assert e in S;
        ReadNewest(S, u, s, e);
      } else {
        LastWriteIsRead(rest, u, s);
        HistoryDistinct(rest);
        assert forall f :: f in S && Visible(f, u, s) ==> f in ToSet(rest);
        assert ToSet(rest) <= S;
        SameVisible(ToSet(rest), S, u, s);
      }
    }
  }
}
