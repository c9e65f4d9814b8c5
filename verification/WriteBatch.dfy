/**
 The serialized form of a batch of updates: a sequence number, a count, and one
 tagged record per update.
 */
module WriteBatch {
  import opened Basics
  import opened Coding

  datatype Update = Put(key: Bytes, value: Bytes) | Delete(key: Bytes)

  const HEADER: nat := 12

  const TAG_DELETION: byte := 0
  const TAG_VALUE: byte := 1

  predicate Small(u: Update) {
    |u.key| < TWO32 && (u.Put? ==> |u.value| < TWO32)
  }

  function UpdateBytes(u: Update): (b: Bytes)
    requires Small(u)
    ensures |b| > 0
  {
    match u
    case Put(k, v) => [TAG_VALUE] + (LengthPrefixed(k) + LengthPrefixed(v))
    case Delete(k) => [TAG_DELETION] + LengthPrefixed(k)
  }

  /** The records of a batch. */
  ghost predicate RecordsOf(records: seq<Bytes>, us: seq<Update>) {
    |records| == |us| && forall i :: 0 <= i < |us| ==> IsRecord(records, us, i)
  }

  ghost predicate IsRecord(records: seq<Bytes>, us: seq<Update>, i: nat)
    requires i < |us| && |records| == |us|
  {
    Small(us[i]) && records[i] == UpdateBytes(us[i])
  }

  lemma RecordsJoin(a: seq<Bytes>, us: seq<Update>, b: seq<Bytes>, more: seq<Update>)
    requires RecordsOf(a, us) && RecordsOf(b, more)
    ensures RecordsOf(a + b, us + more)
  {
    forall i | 0 <= i < |us + more| ensures IsRecord(a + b, us + more, i) {
      if i < |us| {
        assert IsRecord(a, us, i);
      } else {
        assert IsRecord(b, more, i - |us|);
      }
    }
  }

  /** One record of a batch, as `Iterate` reads it. */
  function ReadUpdate(s: Bytes, p: nat): (r: Option<(Update, nat)>)
    requires p < |s|
    ensures r.Some? ==> p < r.value.1 <= |s|
  {
    if s[p] == TAG_VALUE then
      var k := GetLengthPrefixed(s, p + 1);
      if k.None? then None
      else
        var v := GetLengthPrefixed(s, k.value.1);
        if v.None? then None else Some((Put(k.value.0, v.value.0), v.value.1))
    else if s[p] == TAG_DELETION then
      var k := GetLengthPrefixed(s, p + 1);
      if k.None? then None else Some((Delete(k.value.0), k.value.1))
    else None
  }

  lemma ReadsUpdate(s: Bytes, p: nat, u: Update)
    requires Small(u) && At(s, p, UpdateBytes(u))
    ensures p < |s| && ReadUpdate(s, p) == Some((u, p + |UpdateBytes(u)|))
  {
    match u
    case Put(k, v) =>
      AtAppend(s, p, [TAG_VALUE], LengthPrefixed(k) + LengthPrefixed(v));
      AtAppend(s, p + 1, LengthPrefixed(k), LengthPrefixed(v));
      assert s[p + 0] == [TAG_VALUE][0];
      LengthPrefixedRoundTrip(s, p + 1, k);
      LengthPrefixedRoundTrip(s, p + 1 + |LengthPrefixed(k)|, v);
    case Delete(k) =>
      AtAppend(s, p, [TAG_DELETION], LengthPrefixed(k));
      assert s[p + 0] == [TAG_DELETION][0];
      LengthPrefixedRoundTrip(s, p + 1, k);
  }

  /** A twelve-byte header followed by the records of `us`. */
  ghost predicate Holds(rep: Bytes, head: Bytes, records: seq<Bytes>, us: seq<Update>) {
    RecordsOf(records, us) && |head| == HEADER && rep == head + Concat(records, 0)
  }

  /** The header gives the first sequence number and the number of records. */
  ghost predicate HeadSays(head: Bytes, first: nat, n: nat) {
    first < TWO64 && n < TWO32 && head == EncodeFixed(first, 8) + EncodeFixed(n, 4)
  }

  lemma TwoParts(s: Bytes, a: Bytes, b: Bytes, rest: Bytes)
    requires s == (a + b) + rest
    ensures At(s, 0, a) && At(s, |a|, b) && s[..|a|] == a && s[|a| + |b|..] == rest && s[|a|..|a| + |b|] == b
  {
  }

  lemma HeadReads(rep: Bytes, head: Bytes, rest: Bytes, first: nat, n: nat)
    requires HeadSays(head, first, n) && rep == head + rest
    ensures |rep| >= HEADER && DecodeFixed(rep, 0, 8) == first && DecodeFixed(rep, 8, 4) == n
  {
    TwoParts(rep, EncodeFixed(first, 8), EncodeFixed(n, 4), rest);
    FixedWidths();
    FixedRoundTrip(rep, 0, first, 8);
    FixedRoundTrip(rep, 8, n, 4);
  }

  lemma NewCount(head: Bytes, first: nat, n: nat, m: nat)
    requires HeadSays(head, first, n) && m < TWO32
    ensures HeadSays(head[..8] + EncodeFixed(m, 4), first, m)
  {
    TwoParts(head, EncodeFixed(first, 8), EncodeFixed(n, 4), []);
  }

  lemma NewSequence(head: Bytes, first: nat, n: nat, m: nat)
    requires HeadSays(head, first, n) && m < TWO64
    ensures HeadSays(EncodeFixed(m, 8) + head[8..], m, n)
  {
    TwoParts(head, EncodeFixed(first, 8), EncodeFixed(n, 4), []);
  }

  datatype Status = Ok | Corruption

  class Batch {
    var rep: Bytes
    ghost var head: Bytes
    ghost var first: nat
    ghost var updates: seq<Update>
    ghost var records: seq<Bytes>

    ghost predicate Valid()
      reads this
    {
      Holds(rep, head, records, updates) && HeadSays(head, first, |updates|)
    }

    constructor ()
      ensures Valid() && updates == []
    {
      rep := EncodeFixed(0, 8) + EncodeFixed(0, 4);
      head := EncodeFixed(0, 8) + EncodeFixed(0, 4);
      first, updates, records := 0, [], [];
    }

    method Count() returns (n: nat)
      requires Valid()
      ensures n == |updates|
    {
      HeadReads(rep, head, Concat(records, 0), first, |updates|);
      n := DecodeFixed(rep, 8, 4);
    }

    method SetSequence(n: nat)
      requires Valid() && n < TWO64
      modifies this
      ensures Valid() && first == n && updates == old(updates)
    {
      NewSequence(head, first, |updates|, n);
      var bytes := EncodeFixed(n, 8);
      OverwriteFront(rep, head, Concat(records, 0), bytes);
      rep := bytes + rep[8..];
      head := bytes + head[8..];
      first := n;
    }

    /** Overwrites the count and appends a record, in place. */
    method AddRecords(n: nat, bytes: Bytes, ghost more: seq<Update>, ghost added: seq<Bytes>)
      requires Valid() && n == |updates| + |more| < TWO32 && bytes == Concat(added, 0) && RecordsOf(added, more)
      modifies this
      ensures Valid() && first == old(first) && updates == old(updates) + more
    {
      ConcatJoin(records, added, 0);
      RecordsJoin(records, updates, added, more);
      head := SetCount(n, Concat(records, 0));
      Associate(head, Concat(records, 0), bytes);
      rep := rep + bytes;
      updates, records := updates + more, records + added;
    }

    method SetCount(n: nat, ghost rest: Bytes) returns (ghost head': Bytes)
      requires |head| == HEADER && rep == head + rest && HeadSays(head, first, |updates|) && n < TWO32
      modifies this`rep
      ensures HeadSays(head', first, n) && |head'| == HEADER && rep == head' + rest
    {
      NewCount(head, first, |updates|, n);
      var bytes := EncodeFixed(n, 4);
      OverwriteCount(rep, head, rest, bytes);
      rep := rep[..8] + bytes + rep[HEADER..];
      head' := head[..8] + bytes;
    }

    method Put(key: Bytes, value: Bytes)
      requires Valid() && |updates| + 1 < TWO32 && |key| < TWO32 && |value| < TWO32
      modifies this
      ensures Valid() && first == old(first) && updates == old(updates) + [Update.Put(key, value)]
    {
      var n := Count();
      ghost var u := Update.Put(key, value);
      var record := [TAG_VALUE] + (LengthPrefixed(key) + LengthPrefixed(value));
      One(record);
      AddRecords(n + 1, record, [u], [record]);
    }

    method Delete(key: Bytes)
      requires Valid() && |updates| + 1 < TWO32 && |key| < TWO32
      modifies this
      ensures Valid() && first == old(first) && updates == old(updates) + [Update.Delete(key)]
    {
      var n := Count();
      ghost var u := Update.Delete(key);
      var record := [TAG_DELETION] + LengthPrefixed(key);
      One(record);
      AddRecords(n + 1, record, [u], [record]);
    }

    method Append(source: Batch)
      requires Valid() && source.Valid() && |updates| + |source.updates| < TWO32
      modifies this
      ensures Valid() && first == old(first) && updates == old(updates) + old(source.updates)
    {
      var n := Count();
      var m := source.Count();
      assert source.rep[HEADER..] == Concat(source.records, 0);
      AddRecords(n + m, source.rep[HEADER..], source.updates, source.records);
    }
  }

  lemma One(record: Bytes)
    ensures Concat([record], 0) == record
  {
    assert Concat([record], 1) == [];
  }

  lemma OverwriteFront(rep: Bytes, head: Bytes, rest: Bytes, bytes: Bytes)
    requires rep == head + rest && |head| == HEADER && |bytes| == 8
    ensures bytes + rep[8..] == (bytes + head[8..]) + rest
  {
  }

  lemma OverwriteCount(rep: Bytes, head: Bytes, rest: Bytes, bytes: Bytes)
    requires rep == head + rest && |head| == HEADER && |bytes| == 4
    ensures rep[..8] + bytes + rep[HEADER..] == (head[..8] + bytes) + rest
  {
  }

  /** An update with its sequence number, as it enters the memtable. */
  datatype Sequenced = Sequenced(sequence: nat, update: Update)

  /** The first `n` updates numbered one after the other, as the memtable inserter numbers them. */
  function NumberedTo(first: nat, us: seq<Update>, n: nat): (r: seq<Sequenced>)
    requires n <= |us|
    ensures |r| == n && forall i :: 0 <= i < n ==> r[i] == Sequenced(first + i, us[i])
  {
    if n == 0 then [] else NumberedTo(first, us, n - 1) + [Sequenced(first + n - 1, us[n - 1])]
  }

  /**
   `InsertInto`: what reaches the memtable, and the status.  Contents that encode
   a batch yield all of its updates under consecutive sequence numbers; of other
   contents, the records before the fault have been inserted when it is found.
   */
  method InsertInto(rep: Bytes, ghost head: Bytes, ghost records: seq<Bytes>, ghost first: nat, ghost us: seq<Update>)
    returns (inserted: seq<Sequenced>, status: Status)
    ensures Holds(rep, head, records, us) && HeadSays(head, first, |us|) ==> status == Ok && inserted == NumberedTo(first, us, |us|)
    ensures status == Ok ==> |rep| >= HEADER && |inserted| == DecodeFixed(rep, 8, 4)
  {
    if Holds(rep, head, records, us) && HeadSays(head, first, |us|) {
      HeadReads(rep, head, Concat(records, 0), first, |us|);
    }
    if |rep| < HEADER {
      return [], Corruption;
    }
    var sound;
    inserted, sound := Iterate(rep, DecodeFixed(rep, 0, 8), head, records, us);
    status := if sound && |inserted| == DecodeFixed(rep, 8, 4) then Ok else Corruption;
  }

  /** The loop of `Iterate`, with an inserter that starts at `sequence0`. */
  method Iterate(rep: Bytes, sequence0: nat, ghost head: Bytes, ghost records: seq<Bytes>, ghost us: seq<Update>)
    returns (inserted: seq<Sequenced>, sound: bool)
    requires |rep| >= HEADER
    ensures Holds(rep, head, records, us) ==> sound && inserted == NumberedTo(sequence0, us, |us|)
  {
    ghost var good := Holds(rep, head, records, us);
    inserted := [];
    var sequence, p: nat := sequence0, HEADER;
    ghost var i: nat := 0;
    if good {
      assert AtUpdate(rep, records, us, HEADER, 0);
    }
    while p < |rep|
      invariant p <= |rep| && sequence == sequence0 + i
      invariant good ==> AtUpdate(rep, records, us, p, i)
      invariant good ==> i <= |us| && inserted == NumberedTo(sequence0, us, i)
      decreases |rep| - p
    {
      var u, next := OneUpdate(rep, p, records, us, i);
      if u.None? {
        return inserted, false;
      }
      inserted := inserted + [Sequenced(sequence, u.value)];
      p := next;
      sequence := sequence + 1;
      i := i + 1;
    }
    if good {
      MoreToRead(records, us, i);
    }
    sound := true;
  }

  lemma MoreToRead(records: seq<Bytes>, us: seq<Update>, i: nat)
    requires RecordsOf(records, us) && i <= |us|
    ensures i < |us| ==> Concat(records, i) != []
  {
    if i < |us| {
      assert IsRecord(records, us, i);
    }
  }

  /** Takes one record off the input. */
  method OneUpdate(rep: Bytes, p: nat, ghost records: seq<Bytes>, ghost us: seq<Update>, ghost i: nat) returns (u: Option<Update>, next: nat)
    requires p < |rep|
    ensures u.Some? ==> p < next <= |rep|
    ensures AtUpdate(rep, records, us, p, i) ==> i < |us| && u == Some(us[i]) && AtUpdate(rep, records, us, next, i + 1)
  {
    if AtUpdate(rep, records, us, p, i) {
      ReadsNext(rep, records, us, p, i);
    }
    var r := ReadUpdate(rep, p);
    if r.None? {
      return None, p;
    }
    return Some(r.value.0), r.value.1;
  }

  /** `i` records of the batch have been read; record `i` starts at `p`. */
  ghost predicate AtUpdate(rep: Bytes, records: seq<Bytes>, us: seq<Update>, p: nat, i: nat) {
    i <= |us| && RecordsOf(records, us) && EndsWith(rep, p, Concat(records, i))
  }

  lemma ReadsNext(rep: Bytes, records: seq<Bytes>, us: seq<Update>, p: nat, i: nat)
    requires AtUpdate(rep, records, us, p, i) && p < |rep|
    ensures i < |us| && ReadUpdate(rep, p) == Some((us[i], p + |records[i]|))
    ensures AtUpdate(rep, records, us, p + |records[i]|, i + 1)
  {
    assert IsRecord(records, us, i);
    AtAppend(rep, p, records[i], Concat(records, i + 1));
    ReadsUpdate(rep, p, us[i]);
  }
}
