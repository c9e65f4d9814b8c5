/**
 The user-level iterator of the store.  It walks sorted internal entries in
 both directions, and it always sits where a plain index into the list of
 pairs visible at its sequence number would sit.
 */
module DbIter {
  import opened Basics
  import opened DbFormat
  import opened Cursors
  import Version

  // ---------------------------------------------------------------------
  // The list of visible pairs
  // ---------------------------------------------------------------------

  predicate InSight(es: seq<Entry>, s: nat, i: nat)
    requires i < |es|
  {
    es[i].key.sequence <= s
  }

  /** An entry of the same user key with a visible, newer version before position `n`. */
  ghost predicate Shadowed(es: seq<Entry>, s: nat, n: nat, u: UserKey)
    requires n <= |es|
  {
    exists j :: 0 <= j < n && InSight(es, s, j) && es[j].key.user == u
  }

  /** The entry at `i` is what a reader at `s` gets for its user key. */
  ghost predicate Yields(es: seq<Entry>, s: nat, i: nat)
    requires i < |es|
  {
    InSight(es, s, i) && es[i].key.kind.Value? && !Shadowed(es, s, i, es[i].key.user)
  }

  /** The pairs yielded by the first `n` entries, in key order. */
  ghost function Pairs(es: seq<Entry>, s: nat, n: nat): seq<(UserKey, Bytes)>
    requires n <= |es|
  {
    if n == 0 then []
    else Pairs(es, s, n - 1) + if Yields(es, s, n - 1) then [(es[n - 1].key.user, es[n - 1].value)] else []
  }

  ghost function AllPairs(es: seq<Entry>, s: nat): seq<(UserKey, Bytes)> {
    Pairs(es, s, |es|)
  }

  lemma SortedUsers(es: seq<Entry>, i: nat, j: nat)
    requires Sorted(es) && i <= j < |es|
    ensures es[i].key.user <= es[j].key.user
  {
    if i < j {
      assert Less(es[i].key, es[j].key);
    }
  }

  lemma {:induction false} PairsFrom(es: seq<Entry>, s: nat, n: nat, k: nat) returns (i: nat)
    requires n <= |es| && k < |Pairs(es, s, n)|
    ensures i < n && Yields(es, s, i) && |Pairs(es, s, i)| == k
    ensures Pairs(es, s, n)[k] == (es[i].key.user, es[i].value)
  {
    if k < |Pairs(es, s, n - 1)| {
      i := PairsFrom(es, s, n - 1, k);
    } else {
      i := n - 1;
    }
  }

  lemma {:induction false} PairsAt(es: seq<Entry>, s: nat, i: nat, n: nat)
    requires i < n <= |es| && Yields(es, s, i)
    ensures |Pairs(es, s, i)| < |Pairs(es, s, n)| && Pairs(es, s, n)[|Pairs(es, s, i)|] == (es[i].key.user, es[i].value)
  {
    if i < n - 1 {
      PairsAt(es, s, i, n - 1);
    }
  }

  lemma {:induction false} PairsSame(es: seq<Entry>, s: nat, a: nat, b: nat)
    requires a <= b <= |es| && NoYields(es, s, a, b)
    ensures Pairs(es, s, a) == Pairs(es, s, b)
  {
    if a < b {
      PairsSame(es, s, a, b - 1);
    }
  }

  ghost predicate NoYields(es: seq<Entry>, s: nat, a: nat, b: nat)
    requires b <= |es|
  {
    forall i :: a <= i < b ==> !Yields(es, s, i)
  }

  ghost predicate NoneInSight(es: seq<Entry>, s: nat, a: nat, b: nat)
    requires b <= |es|
  {
    forall i :: a <= i < b ==> !InSight(es, s, i)
  }

  /** A yielded entry is the newest visible one of its user key. */
  lemma YieldedIsNewest(es: seq<Entry>, s: nat, i: nat)
    requires Sorted(es) && i < |es| && InSight(es, s, i) && !Shadowed(es, s, i, es[i].key.user)
    ensures IsNewest(ToSet(es), es[i].key.user, s, es[i])
  {
    forall f | f in ToSet(es) && Visible(f, es[i].key.user, s) ensures f.key.sequence <= es[i].key.sequence {
      var j :| 0 <= j < |es| && es[j] == f;
      assert InSight(es, s, j);
      assert i <= j;
      if i < j {
        assert Less(es[i].key, es[j].key);
      }
    }
  }

  lemma {:induction false} FirstInSight(es: seq<Entry>, s: nat, u: UserKey, n: nat) returns (i: nat)
    requires n <= |es| && Shadowed(es, s, n, u)
    ensures i < n && InSight(es, s, i) && es[i].key.user == u && !Shadowed(es, s, i, u)
  {
    if Shadowed(es, s, n - 1, u) {
      i := FirstInSight(es, s, u, n - 1);
    } else {
      i := n - 1;
    }
  }

  /** The list holds exactly what reads at `s` find, in strictly increasing key order. */
  lemma PairsAreReads(es: seq<Entry>, s: nat, u: UserKey, v: Bytes)
    requires Sorted(es) && Distinct(ToSet(es))
    ensures (u, v) in AllPairs(es, s) <==> Read(ToSet(es), u, s) == Some(v)
  {
    if (u, v) in AllPairs(es, s) {
      var k :| 0 <= k < |AllPairs(es, s)| && AllPairs(es, s)[k] == (u, v);
      var i := PairsFrom(es, s, |es|, k);
      YieldedIsNewest(es, s, i);
      ReadNewest(ToSet(es), u, s, es[i]);
    }
    if Read(ToSet(es), u, s) == Some(v) {
      var e :| IsNewest(ToSet(es), u, s, e) && Outcome(e) == Some(v);
      assert IsNewest(ToSet(es), u, s, e);
      var j :| 0 <= j < |es| && es[j] == e;
      assert InSight(es, s, j);
      var i := FirstInSight(es, s, u, |es|);
      YieldedIsNewest(es, s, i);
      assert es[i] in ToSet(es);
      PairsAt(es, s, i, |es|);
    }
  }

  lemma PairsAscend(es: seq<Entry>, s: nat, a: nat, b: nat)
    requires Sorted(es) && a < b < |AllPairs(es, s)|
    ensures AllPairs(es, s)[a].0 < AllPairs(es, s)[b].0
  {
    var i := PairsFrom(es, s, |es|, a);
    var j := PairsFrom(es, s, |es|, b);
    PairsMonotone(es, s, j, i);
    SortedUsers(es, i, j);
    assert InSight(es, s, i);
  }

  lemma {:induction false} PairsMonotone(es: seq<Entry>, s: nat, a: nat, b: nat)
    requires a <= |es| && b <= |es|
    ensures a <= b ==> |Pairs(es, s, a)| <= |Pairs(es, s, b)|
  {
    if a < b {
      PairsMonotone(es, s, a, b - 1);
    }
  }

  // ---------------------------------------------------------------------
  // Skipping
  // ---------------------------------------------------------------------

  /** From `n` on, the skip key hides exactly the user keys already met. */
  ghost predicate SkipExact(es: seq<Entry>, s: nat, n: nat, skipping: bool, skip: UserKey)
    requires n <= |es|
  {
    forall k :: n <= k < |es| ==> InSight(es, s, k) ==> ((skipping && es[k].key.user <= skip) <==> Shadowed(es, s, n, es[k].key.user))
  }

  ghost predicate Hides(es: seq<Entry>, s: nat, a: nat, b: nat, skipping: bool, skip: UserKey)
    requires b <= |es|
  {
    forall k :: a <= k < b && InSight(es, s, k) ==> es[k].key.kind.Value? && skipping && es[k].key.user <= skip
  }

  lemma SkipInvisible(es: seq<Entry>, s: nat, n: nat, skipping: bool, skip: UserKey)
    requires n < |es| && SkipExact(es, s, n, skipping, skip) && !InSight(es, s, n)
    ensures SkipExact(es, s, n + 1, skipping, skip)
  {
    forall u ensures Shadowed(es, s, n + 1, u) <==> Shadowed(es, s, n, u) {}
  }

  lemma SkipHidden(es: seq<Entry>, s: nat, n: nat, skipping: bool, skip: UserKey)
    requires Sorted(es) && n < |es| && SkipExact(es, s, n, skipping, skip) && InSight(es, s, n) && skipping && es[n].key.user <= skip
    ensures SkipExact(es, s, n + 1, skipping, skip)
  {
    forall u ensures Shadowed(es, s, n + 1, u) <==> Shadowed(es, s, n, u) {
      assert Shadowed(es, s, n, es[n].key.user);
    }
  }

  /** After a visible entry, its own key is the one to skip. */
  lemma SkipPast(es: seq<Entry>, s: nat, n: nat)
    requires Sorted(es) && n < |es| && InSight(es, s, n)
    ensures SkipExact(es, s, n + 1, true, es[n].key.user)
  {
    forall k | n + 1 <= k < |es| && InSight(es, s, k)
      ensures es[k].key.user <= es[n].key.user <==> Shadowed(es, s, n + 1, es[k].key.user)
    {
      SortedUsers(es, n, k);
      if Shadowed(es, s, n + 1, es[k].key.user) {
        var j :| 0 <= j < n + 1 && InSight(es, s, j) && es[j].key.user == es[k].key.user;
        SortedUsers(es, j, n);
      }
    }
  }

  /** Skipping the key of the yielded entry at `at`, from just before its visible entries. */
  lemma SkipCurrent(es: seq<Entry>, s: nat, p: nat, at: nat)
    requires Sorted(es) && p <= at < |es| && Yields(es, s, at) && NoneInSight(es, s, p, at)
    ensures Hides(es, s, p, at + 1, true, es[at].key.user) && SkipExact(es, s, at + 1, true, es[at].key.user)
  {
    SkipPast(es, s, at);
  }

  lemma SkipFromSeek(es: seq<Entry>, s: nat, t: UserKey, p: nat)
    requires Sorted(es) && p == Version.LowerBound(es, SeekKey(t, s))
    ensures SkipExact(es, s, p, false, t)
    ensures forall i :: p <= i < |es| ==> es[i].key.user >= t
    ensures forall i :: 0 <= i < p && InSight(es, s, i) ==> es[i].key.user < t
  {
    forall i | p <= i < |es| ensures es[i].key.user >= t {
      SortedUsers(es, p, i);
    }
  }

  // ---------------------------------------------------------------------
  // DBIter
  // ---------------------------------------------------------------------

  /** The empty key, to which `saved_key_` is cleared. */
  const CLEARED: UserKey := 0.0

  class DBIter {
    const es: seq<Entry>
    const sequence: nat
    var pos: Option<nat>
    var forward: bool
    var valid: bool
    var savedKey: UserKey
    var savedValue: Bytes
    ghost var at: nat

    /**
     Forward: the internal iterator is on the yielded entry.  Reverse: it is
     before all visible entries of the saved key.
     */
    ghost predicate Valid()
      reads this
    {
      && Sorted(es)
      && (pos.Some? ==> pos.value < |es|)
      && (valid ==>
            && at < |es| && Yields(es, sequence, at)
            && if forward then pos == Some(at)
               else Upto(pos) <= at && NoneInSight(es, sequence, Upto(pos), at)
                    && savedKey == es[at].key.user && savedValue == es[at].value)
    }

    /** The index, in the list of visible pairs, at which this iterator sits. */
    ghost function Index(): Option<nat>
      requires Valid()
      reads this
    {
      if valid then Some(|Pairs(es, sequence, at)|) else None
    }

    ghost function List(): seq<(UserKey, Bytes)>
      reads this
    {
      AllPairs(es, sequence)
    }

    constructor (es: seq<Entry>, sequence: nat)
      requires Sorted(es)
      ensures Valid() && Index() == None && this.es == es && this.sequence == sequence
    {
      this.es := es;
      this.sequence := sequence;
      pos, forward, valid, savedKey, savedValue := None, true, false, CLEARED, [];
    }

    method Key() returns (k: UserKey)
      requires Valid() && valid
      ensures Index().value < |List()| && k == List()[Index().value].0
    {
      PairsAt(es, sequence, at, |es|);
      k := if forward then es[pos.value].key.user else savedKey;
    }

    method Value() returns (v: Bytes)
      requires Valid() && valid
      ensures Index().value < |List()| && v == List()[Index().value].1
    {
      PairsAt(es, sequence, at, |es|);
      v := if forward then es[pos.value].value else savedValue;
    }

    /** Finds the first yielded entry at or after `from`; visible ones before it are skipped by key. */
    method FindNextUserEntry(skip0: bool, ghost from: nat)
      requires Sorted(es) && pos.Some? && pos.value <= from <= |es| && pos.value < |es| && forward
      requires Hides(es, sequence, pos.value, from, skip0, savedKey)
      requires SkipExact(es, sequence, from, skip0, savedKey)
      modifies this
      ensures Valid() && forward
      ensures valid ==> from <= at && NoYields(es, sequence, from, at)
      ensures !valid ==> NoYields(es, sequence, from, |es|)
    {
      var skipping := skip0;
      while pos.Some?
        invariant forward
        invariant pos.Some? ==> pos.value < |es|
        invariant var p := if pos.Some? then pos.value else |es|;
                  if p < from then Hides(es, sequence, p, from, skipping, savedKey) && SkipExact(es, sequence, from, skipping, savedKey)
                  else SkipExact(es, sequence, p, skipping, savedKey) && NoYields(es, sequence, from, p)
        decreases |es| - (if pos.Some? then pos.value else |es|)
      {
        var e := es[pos.value];
        var p := pos.value;
        if e.key.sequence <= sequence {
          if e.key.kind.Deletion? {
            savedKey := e.key.user;
            skipping := true;
            SkipPast(es, sequence, p);
          } else if skipping && e.key.user <= savedKey {
            if from <= p { SkipHidden(es, sequence, p, skipping, savedKey); }
          } else {
            valid := true;
            savedKey := CLEARED;
            at := p;
            return;
          }
        } else if from <= p {
          SkipInvisible(es, sequence, p, skipping, savedKey);
        }
        pos := After(|es|, p);
      }
      savedKey := CLEARED;
      valid := false;
    }

    /** Finds the last yielded entry before `Upto(pos)`. */
    method FindPrevUserEntry()
      requires Sorted(es) && (pos.Some? ==> pos.value < |es|) && !forward
      modifies this
      ensures Valid() && (valid ==> !forward)
      ensures valid ==> at < old(Upto(pos)) && NoYields(es, sequence, at + 1, old(Upto(pos)))
      ensures !valid ==> NoYields(es, sequence, 0, old(Upto(pos)))
    {
      ghost var top := Upto(pos);
      var kind := Deletion;
      while pos.Some?
        invariant Upto(pos) <= top <= |es| && !forward
        invariant kind.Deletion? ==> NoYields(es, sequence, Upto(pos), top)
        invariant kind.Value? ==>
                    && Upto(pos) <= at < top && InSight(es, sequence, at) && es[at].key.kind.Value?
                    && NoneInSight(es, sequence, Upto(pos), at) && NoYields(es, sequence, at + 1, top)
                    && savedKey == es[at].key.user && savedValue == es[at].value
        decreases Upto(pos)
      {
        var p := pos.value;
        var e := es[p];
        if e.key.sequence <= sequence {
          if kind.Value? && e.key.user < savedKey {
            break;
          }
          if kind.Value? {
            Overtaken(es, sequence, p, at, top);
          }
          kind := e.key.kind;
          if kind.Deletion? {
            savedKey, savedValue := CLEARED, [];
          } else {
            savedKey, savedValue := e.key.user, e.value;
            at := p;
          }
        }
        pos := Before(p);
      }
      if kind.Deletion? {
        valid := false;
        savedKey, savedValue := CLEARED, [];
        forward := true;
      } else {
        valid := true;
        NewestOfKey(es, sequence, Upto(pos), at);
      }
    }

    method SeekToFirst()
      requires Valid()
      modifies this
      ensures Valid() && Index() == First(|List()|)
    {
      forward := true;
      savedValue := [];
      pos := First(|es|);
      if pos.Some? {
        FindNextUserEntry(false, 0);
      } else {
        valid := false;
      }
      ForwardIndex(es, sequence, 0, valid, at);
    }

    method SeekToLast()
      requires Valid()
      modifies this
      ensures Valid() && Index() == Last(|List()|)
    {
      forward := false;
      savedValue := [];
      pos := Last(|es|);
      FindPrevUserEntry();
      ReverseIndex(es, sequence, |es|, valid, at);
    }

    /** Lands on the first pair whose key is at or after the target. */
    method Seek(target: UserKey)
      requires Valid()
      modifies this
      ensures Valid()
      ensures var k := if Index().Some? then Index().value else |List()|;
              && k <= |List()| && (Index().Some? ==> k < |List()|)
              && (forall j :: 0 <= j < k ==> List()[j].0 < target)
              && (k < |List()| ==> List()[k].0 >= target)
    {
      forward := true;
      savedValue := [];
      savedKey := target;
      var p := Version.LowerBound(es, SeekKey(target, sequence));
      SkipFromSeek(es, sequence, target, p);
      pos := if p < |es| then Some(p) else None;
      if pos.Some? {
        FindNextUserEntry(false, p);
      } else {
        valid := false;
      }
      SeekIndex(es, sequence, p, target, valid, at);
    }

    /** Turns towards larger keys: into the entries of the current key, which is to be skipped. */
    method FaceForward()
      requires Valid() && valid
      modifies this
      ensures at == old(at) && valid && forward && savedKey == es[at].key.user
      ensures pos.Some? && pos.value <= at && NoneInSight(es, sequence, pos.value, at)
    {
      if !forward {
        forward := true;
        pos := if pos.None? then First(|es|) else After(|es|, pos.value);
        if pos.None? {
          // LevelDB gives up here.  It never does: while moving backwards the
          // cursor stands before the entry it yields, so there is a next one.
          assert false;
        }
      } else {
        savedKey := es[pos.value].key.user;
      }
    }

    method Next()
      requires Valid() && valid
      modifies this
      ensures Valid() && Index() == After(|List()|, old(Index()).value)
    {
      ghost var was := at;
      FaceForward();
      SkipCurrent(es, sequence, pos.value, was);
      FindNextUserEntry(true, was + 1);
      PairsAt(es, sequence, was, |es|);
      ForwardIndex(es, sequence, was + 1, valid, at);
    }

    method Prev()
      requires Valid() && valid
      modifies this
      ensures Valid() && Index() == Before(old(Index()).value)
    {
      ghost var was := at;
      if forward {
        savedKey := es[pos.value].key.user;
        pos := Before(pos.value);
        while pos.Some? && !(es[pos.value].key.user < savedKey)
          invariant pos.Some? ==> pos.value < |es|
          invariant savedKey == es[was].key.user && valid && forward
          invariant Upto(pos) <= was && NoYields(es, sequence, Upto(pos), was)
          decreases Upto(pos)
        {
          SortedUsers(es, pos.value, was);
          SameKeyBefore(es, sequence, pos.value, was);
          pos := Before(pos.value);
        }
        if pos.None? {
          valid := false;
          savedKey, savedValue := CLEARED, [];
          ReverseIndex(es, sequence, was, valid, at);
          return;
        }
        forward := false;
      }
      assert NoYields(es, sequence, Upto(pos), was);
      FindPrevUserEntry();
      ReverseIndex(es, sequence, was, valid, at);
    }
  }

  /** A newer visible entry of the same key takes over from the one at `at`. */
  lemma Overtaken(es: seq<Entry>, s: nat, p: nat, at: nat, top: nat)
    requires Sorted(es) && p < at < top <= |es| && InSight(es, s, p) && !(es[p].key.user < es[at].key.user)
    requires NoneInSight(es, s, p + 1, at) && NoYields(es, s, at + 1, top)
    ensures NoYields(es, s, p + 1, top)
  {
    SortedUsers(es, p, at);
    assert Shadowed(es, s, at, es[at].key.user);
  }

  lemma NewestOfKey(es: seq<Entry>, s: nat, n: nat, at: nat)
    requires Sorted(es) && n <= at < |es| && InSight(es, s, at) && es[at].key.kind.Value?
    requires NoneInSight(es, s, n, at) && (n > 0 ==> es[n - 1].key.user < es[at].key.user)
    ensures Yields(es, s, at)
  {
    forall j | 0 <= j < n ensures es[j].key.user < es[at].key.user {
      SortedUsers(es, j, n - 1);
    }
  }

  /** Between two entries of one key, nothing older than a yielded entry is visible before it. */
  lemma SameKeyBefore(es: seq<Entry>, s: nat, p: nat, at: nat)
    requires p < at < |es| && Yields(es, s, at) && es[p].key.user == es[at].key.user
    ensures !InSight(es, s, p)
  {
  }

  lemma ForwardIndex(es: seq<Entry>, s: nat, from: nat, valid: bool, at: nat)
    requires from <= |es|
    requires valid ==> from <= at < |es| && Yields(es, s, at) && NoYields(es, s, from, at)
    requires !valid ==> NoYields(es, s, from, |es|)
    ensures valid ==> |Pairs(es, s, at)| == |Pairs(es, s, from)| < |AllPairs(es, s)|
    ensures !valid ==> |AllPairs(es, s)| == |Pairs(es, s, from)|
  {
    if valid {
      PairsSame(es, s, from, at);
      PairsAt(es, s, at, |es|);
    } else {
      PairsSame(es, s, from, |es|);
    }
  }

  lemma ReverseIndex(es: seq<Entry>, s: nat, top: nat, valid: bool, at: nat)
    requires top <= |es|
    requires valid ==> at < top && Yields(es, s, at) && NoYields(es, s, at + 1, top)
    requires !valid ==> NoYields(es, s, 0, top)
    ensures valid ==> |Pairs(es, s, at)| + 1 == |Pairs(es, s, top)|
    ensures !valid ==> |Pairs(es, s, top)| == 0
  {
    if valid {
      PairsSame(es, s, at + 1, top);
    } else {
      PairsSame(es, s, 0, top);
    }
  }

  lemma SeekIndex(es: seq<Entry>, s: nat, p: nat, t: UserKey, valid: bool, at: nat)
    requires Sorted(es) && p <= |es|
    requires forall i :: p <= i < |es| ==> es[i].key.user >= t
    requires forall i :: 0 <= i < p && InSight(es, s, i) ==> es[i].key.user < t
    requires valid ==> p <= at < |es| && Yields(es, s, at) && NoYields(es, s, p, at)
    requires !valid ==> NoYields(es, s, p, |es|)
    ensures var k := if valid then |Pairs(es, s, at)| else |AllPairs(es, s)|;
            && k <= |AllPairs(es, s)| && (valid ==> k < |AllPairs(es, s)|)
            && (forall j :: 0 <= j < k ==> AllPairs(es, s)[j].0 < t)
            && (k < |AllPairs(es, s)| ==> AllPairs(es, s)[k].0 >= t)
  {
    ForwardIndex(es, s, p, valid, at);
    var k := |Pairs(es, s, p)|;
    forall j | 0 <= j < k && j < |AllPairs(es, s)| ensures AllPairs(es, s)[j].0 < t {
      var i := PairsFrom(es, s, |es|, j);
      PairsMonotone(es, s, p, i);
    }
    if valid {
      PairsAt(es, s, at, |es|);
    }
  }
}
