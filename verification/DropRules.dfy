/**
 The two rules by which a compaction discards entries, and exactly when
 discarding them is invisible to every reader at or above the oldest snapshot.
 */
module DropRules {
  import opened Basics
  import opened DbFormat
  import opened Version

  /** No file two or more levels below `level` has `u` in its key range. */
  ghost predicate IsBaseLevel(v: Levels, level: nat, u: UserKey) {
    forall l, f :: level + 2 <= l < |v| && f in v[l] ==> u < f.smallest.user || f.largest.user < u
  }

  /** Rule (A): the entry before it is for the same user key and already visible to every reader. */
  ghost predicate Hidden(input: seq<Entry>, i: nat, snapshot: nat)
    requires i < |input|
  {
    i > 0 && input[i - 1].key.user == input[i].key.user && input[i - 1].key.sequence <= snapshot
  }

  /** Rule (B): a deletion marker with nothing beneath it to delete. */
  ghost predicate Obsolete(v: Levels, level: nat, e: Entry, snapshot: nat) {
    e.key.kind.Deletion? && e.key.sequence <= snapshot && IsBaseLevel(v, level, e.key.user)
  }

  ghost predicate Dropped(v: Levels, level: nat, input: seq<Entry>, i: nat, snapshot: nat)
    requires i < |input|
  {
    Hidden(input, i, snapshot) || Obsolete(v, level, input[i], snapshot)
  }

  /** The first `n` input entries without the dropped ones. */
  ghost function Kept(v: Levels, level: nat, input: seq<Entry>, n: nat, snapshot: nat): (r: seq<Entry>)
    requires n <= |input|
  {
    if n == 0 then []
    else
      var rest := Kept(v, level, input, n - 1, snapshot);
      if Dropped(v, level, input, n - 1, snapshot) then rest else rest + [input[n - 1]]
  }

  lemma {:induction false} KeptMembers(v: Levels, level: nat, input: seq<Entry>, n: nat, snapshot: nat)
    requires n <= |input|
    ensures forall i :: 0 <= i < n && !Dropped(v, level, input, i, snapshot) ==> input[i] in Kept(v, level, input, n, snapshot)
    ensures forall e :: e in Kept(v, level, input, n, snapshot) ==>
      exists i :: 0 <= i < n && input[i] == e && !Dropped(v, level, input, i, snapshot)
  {
    if n > 0 {
      KeptMembers(v, level, input, n - 1, snapshot);
      forall e | e in Kept(v, level, input, n, snapshot) ensures exists i :: 0 <= i < n && input[i] == e && !Dropped(v, level, input, i, snapshot) {
        if e !in Kept(v, level, input, n - 1, snapshot) {
          assert input[n - 1] == e && !Dropped(v, level, input, n - 1, snapshot);
        }
      }
    }
  }

  lemma {:induction false} KeptSorted(v: Levels, level: nat, input: seq<Entry>, n: nat, snapshot: nat)
    requires n <= |input| && Sorted(input)
    ensures Sorted(Kept(v, level, input, n, snapshot))
  {
    if n > 0 {
      KeptSorted(v, level, input, n - 1, snapshot);
      KeptMembers(v, level, input, n - 1, snapshot);
      var rest := Kept(v, level, input, n - 1, snapshot);
      forall k | 0 <= k < |rest| ensures Less(rest[k].key, input[n - 1].key) {
        assert rest[k] in rest;
        var i :| 0 <= i < n - 1 && input[i] == rest[k];
      }
    }
  }

  // ---------------------------------------------------------------------
  // Reads before and after
  // ---------------------------------------------------------------------

  ghost function Before(rest: set<Entry>, input: seq<Entry>): set<Entry> {
    rest + ToSet(input)
  }

  ghost function After(v: Levels, level: nat, rest: set<Entry>, input: seq<Entry>, snapshot: nat): set<Entry> {
    rest + ToSet(Kept(v, level, input, |input|, snapshot))
  }

  lemma AfterWithinBefore(v: Levels, level: nat, rest: set<Entry>, input: seq<Entry>, snapshot: nat)
    ensures After(v, level, rest, input, snapshot) <= Before(rest, input)
  {
    KeptMembers(v, level, input, |input|, snapshot);
  }

  /**
   Dropping the marker `input[i]` lets an older value outside the inputs shine
   through: the marker decides reads at `snapshot`, and the newest entry of its
   key below it that stays behind is a value.
   */
  ghost predicate ExposedAt(v: Levels, level: nat, rest: set<Entry>, input: seq<Entry>, snapshot: nat, i: nat, x: Entry)
    requires i < |input|
  {
    && Obsolete(v, level, input[i], snapshot)
    && !Hidden(input, i, snapshot)
    && (forall y :: y in rest && Visible(y, input[i].key.user, snapshot) ==> y.key.sequence < input[i].key.sequence)
    && IsNewest(rest, input[i].key.user, snapshot, x)
    && x.key.kind.Value?
  }

  ghost predicate Exposed(v: Levels, level: nat, rest: set<Entry>, input: seq<Entry>, snapshot: nat, u: UserKey) {
    exists i, x :: 0 <= i < |input| && input[i].key.user == u && ExposedAt(v, level, rest, input, snapshot, i, x)
  }

  /** A dropped entry that decides a read at or above the snapshot can only be an obsolete marker. */
  lemma DecidingDrop(v: Levels, level: nat, rest: set<Entry>, input: seq<Entry>, snapshot: nat, u: UserKey, s: nat, i: nat)
    requires Sorted(input) && Distinct(Before(rest, input)) && s >= snapshot && i < |input|
    requires IsNewest(Before(rest, input), u, s, input[i])
    ensures !Hidden(input, i, snapshot)
  {
    if Hidden(input, i, snapshot) {
      assert input[i - 1] in Before(rest, input);
      assert Less(input[i - 1].key, input[i].key);
      assert Visible(input[i - 1], u, s);
    }
  }

  lemma SameUserBetween(input: seq<Entry>, i: nat, k: nat, j: nat)
    requires Sorted(input) && i <= k <= j < |input| && input[i].key.user == input[j].key.user
    ensures input[k].key.user == input[i].key.user && input[k].key.sequence <= input[i].key.sequence
  {
    if i < k { assert Less(input[i].key, input[k].key); }
    if k < j { assert Less(input[k].key, input[j].key); }
  }

  lemma LaterHidden(input: seq<Entry>, i: nat, j: nat, snapshot: nat)
    requires Sorted(input) && i < j < |input| && input[i].key.user == input[j].key.user
    requires input[i].key.sequence <= snapshot
    ensures Hidden(input, j, snapshot)
  {
    SameUserBetween(input, i, j - 1, j);
  }

  /** Every input entry of the key older than an obsolete marker is dropped by rule (A). */
  lemma OlderHidden(v: Levels, level: nat, input: seq<Entry>, snapshot: nat, i: nat, e: Entry)
    requires Sorted(input) && i < |input| && input[i].key.sequence <= snapshot
    requires e in Kept(v, level, input, |input|, snapshot) && e.key.user == input[i].key.user
    ensures e.key.sequence >= input[i].key.sequence
  {
    KeptMembers(v, level, input, |input|, snapshot);
    var j: nat :| j < |input| && input[j] == e && !Dropped(v, level, input, j, snapshot);
    if i < j {
      LaterHidden(input, i, j, snapshot);
    } else {
      SameUserBetween(input, j, i, i);
    }
  }

  /** A read decided by a dropped marker answers "not found" afterwards too, unless the key is exposed. */
  lemma MarkerRead(v: Levels, level: nat, rest: set<Entry>, input: seq<Entry>, snapshot: nat, u: UserKey, s: nat, i: nat)
    requires Sorted(input) && Distinct(Before(rest, input)) && s >= snapshot && i < |input|
    requires IsNewest(Before(rest, input), u, s, input[i]) && input[i] !in After(v, level, rest, input, snapshot)
    requires Obsolete(v, level, input[i], snapshot) && !Exposed(v, level, rest, input, snapshot, u)
    ensures Read(After(v, level, rest, input, snapshot), u, s) == None
  {
    var A := After(v, level, rest, input, snapshot);
    AfterWithinBefore(v, level, rest, input, snapshot);
    if NoneVisible(A, u, s) {
      ReadNothing(A, u, s);
    } else {
      var n := NewestExists(A, u, s);
      assert n in Before(rest, input) && input[i] in Before(rest, input);
      assert n.key.sequence < input[i].key.sequence;
      if n !in rest {
        OlderHidden(v, level, input, snapshot, i, n);
      }
      assert IsNewest(rest, u, snapshot, n);
      DecidingDrop(v, level, rest, input, snapshot, u, s, i);
      assert forall y :: y in rest && Visible(y, u, snapshot) ==> y in A && Visible(y, u, s);
      assert !ExposedAt(v, level, rest, input, snapshot, i, n);
      ReadNewest(A, u, s, n);
    }
  }

  lemma UnexposedReads(v: Levels, level: nat, rest: set<Entry>, input: seq<Entry>, snapshot: nat, u: UserKey, s: nat)
    requires Sorted(input) && Distinct(Before(rest, input)) && s >= snapshot
    requires !Exposed(v, level, rest, input, snapshot, u)
    ensures Read(After(v, level, rest, input, snapshot), u, s) == Read(Before(rest, input), u, s)
  {
    var B, A := Before(rest, input), After(v, level, rest, input, snapshot);
    AfterWithinBefore(v, level, rest, input, snapshot);
    if NoneVisible(B, u, s) {
      ReadNothing(B, u, s);
      ReadNothing(A, u, s);
    } else {
      var n := NewestExists(B, u, s);
      ReadNewest(B, u, s, n);
      if n in A {
        ReadNewest(A, u, s, n);
      } else {
        var i :| 0 <= i < |input| && input[i] == n;
        DecidingDrop(v, level, rest, input, snapshot, u, s, i);
        KeptMembers(v, level, input, |input|, snapshot);
        MarkerRead(v, level, rest, input, snapshot, u, s, i);
      }
    }
  }

  lemma MarkerDecides(v: Levels, level: nat, rest: set<Entry>, input: seq<Entry>, snapshot: nat, i: nat, x: Entry)
    requires Sorted(input) && Distinct(Before(rest, input)) && i < |input|
    requires ExposedAt(v, level, rest, input, snapshot, i, x)
    ensures Read(Before(rest, input), input[i].key.user, snapshot) == None
  {
    var B, u := Before(rest, input), input[i].key.user;
    assert input[i] in B;
    forall y | y in B && Visible(y, u, snapshot) ensures y.key.sequence <= input[i].key.sequence {
      if y !in rest {
        var j :| 0 <= j < |input| && input[j] == y;
        if i < j {
          assert Less(input[i].key, input[j].key);
        }
      }
    }
    ReadNewest(B, u, snapshot, input[i]);
  }

  /** Of the key of an obsolete, unhidden marker, only entries above the snapshot survive. */
  lemma SurvivorsAboveSnapshot(v: Levels, level: nat, input: seq<Entry>, snapshot: nat, i: nat, y: Entry)
    requires Sorted(input) && i < |input| && Obsolete(v, level, input[i], snapshot) && !Hidden(input, i, snapshot)
    requires y in Kept(v, level, input, |input|, snapshot) && y.key.user == input[i].key.user
    ensures y.key.sequence > snapshot
  {
    KeptMembers(v, level, input, |input|, snapshot);
    var j: nat :| j < |input| && input[j] == y && !Dropped(v, level, input, j, snapshot);
    if i < j {
      LaterHidden(input, i, j, snapshot);
    } else if j < i && y.key.sequence <= snapshot {
      LaterHidden(input, j, i, snapshot);
    }
  }

  lemma ValueShines(v: Levels, level: nat, rest: set<Entry>, input: seq<Entry>, snapshot: nat, i: nat, x: Entry)
    requires Sorted(input) && Distinct(Before(rest, input)) && i < |input|
    requires ExposedAt(v, level, rest, input, snapshot, i, x)
    ensures Read(After(v, level, rest, input, snapshot), input[i].key.user, snapshot).Some?
  {
    var A, u := After(v, level, rest, input, snapshot), input[i].key.user;
    AfterWithinBefore(v, level, rest, input, snapshot);
    forall y | y in Kept(v, level, input, |input|, snapshot) && y.key.user == u ensures y.key.sequence > snapshot {
      SurvivorsAboveSnapshot(v, level, input, snapshot, i, y);
    }
    ReadNewest(A, u, snapshot, x);
  }

  lemma ExposedReads(v: Levels, level: nat, rest: set<Entry>, input: seq<Entry>, snapshot: nat, u: UserKey)
    requires Sorted(input) && Distinct(Before(rest, input))
    requires Exposed(v, level, rest, input, snapshot, u)
    ensures Read(Before(rest, input), u, snapshot) == None
    ensures Read(After(v, level, rest, input, snapshot), u, snapshot).Some?
  {
    var i, x :| 0 <= i < |input| && input[i].key.user == u && ExposedAt(v, level, rest, input, snapshot, i, x);
    MarkerDecides(v, level, rest, input, snapshot, i, x);
    ValueShines(v, level, rest, input, snapshot, i, x);
  }

  /**
   The exact condition: compaction leaves every read of `u` at or above the
   snapshot unchanged if and only if it exposes no older value of `u`.
   */
  lemma ReadsPreservedIff(v: Levels, level: nat, rest: set<Entry>, input: seq<Entry>, snapshot: nat, u: UserKey)
    requires Sorted(input) && Distinct(Before(rest, input))
    ensures (forall s :: s >= snapshot ==>
               Read(After(v, level, rest, input, snapshot), u, s) == Read(Before(rest, input), u, s))
            <==> !Exposed(v, level, rest, input, snapshot, u)
  {
    if Exposed(v, level, rest, input, snapshot, u) {
      ExposedReads(v, level, rest, input, snapshot, u);
    } else {
      forall s | s >= snapshot
        ensures Read(After(v, level, rest, input, snapshot), u, s) == Read(Before(rest, input), u, s)
      {
        UnexposedReads(v, level, rest, input, snapshot, u, s);
      }
    }
  }
}
