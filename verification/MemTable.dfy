/**
 The memtable: entries as byte strings in the order of the internal keys they
 carry.  `SkipList` shows how the skip list keeps and searches such an order;
 here it is a sequence.
 */
module MemTable {
  import opened Basics
  import opened Coding
  import opened Comparator
  import opened DbFormat
  import TwoLevel
  import Version

  /** What was added. */
  datatype Record = Record(user: Bytes, sequence: nat, kind: ValueType, value: Bytes)

  predicate Fits(r: Record) {
    |r.user| + 8 < TWO32 && |r.value| < TWO32 && r.sequence <= MAX_SEQUENCE
  }

  /** The layout `Add` writes into the arena. */
  function EntryBytes(r: Record): Bytes
    requires Fits(r)
  {
    LengthPrefixed(EncodeKey(r.user, r.sequence, r.kind)) + LengthPrefixed(r.value)
  }

  /** The entry in the vocabulary of the rest of the store. */
  function Meaning(r: Record): Entry {
    Entry(Abstract(r.user, r.sequence, r.kind), r.value)
  }

  ghost function Meanings(rs: seq<Record>): (es: seq<Entry>)
    ensures |es| == |rs|
  {
    if rs == [] then [] else [Meaning(rs[0])] + Meanings(rs[1..])
  }

  lemma {:induction false} MeaningAt(rs: seq<Record>, i: nat)
    requires i < |rs|
    ensures Meanings(rs)[i] == Meaning(rs[i])
  {
    if i > 0 {
      MeaningAt(rs[1..], i - 1);
    }
  }

  lemma TwoSlices(k: Bytes, v: Bytes, b: Bytes)
    requires |k| < TWO32 && |v| < TWO32 && b == LengthPrefixed(k) + LengthPrefixed(v)
    ensures GetLengthPrefixed(b, 0) == Some((k, |LengthPrefixed(k)|))
    ensures GetLengthPrefixed(b, |LengthPrefixed(k)|) == Some((v, |b|))
  {
    assert At(b, 0, b);
    AtAppend(b, 0, LengthPrefixed(k), LengthPrefixed(v));
    LengthPrefixedRoundTrip(b, 0, k);
    LengthPrefixedRoundTrip(b, |LengthPrefixed(k)|, v);
  }

  lemma OneSlice(k: Bytes, b: Bytes)
    requires |k| < TWO32 && b == LengthPrefixed(k)
    ensures GetLengthPrefixed(b, 0) == Some((k, |b|))
  {
    LengthPrefixedRoundTrip(b, 0, k);
  }

  /** The key an entry, or a lookup key, begins with. */
  function KeySlice(b: Bytes): (k: Bytes)
    ensures |k| >= 8
  {
    var r := GetLengthPrefixed(b, 0);
    if r.Some? && |r.value.0| >= 8 then r.value.0 else [0, 0, 0, 0, 0, 0, 0, 0]
  }

  /** `MemTable::KeyComparator`. */
  predicate EntryBefore(a: Bytes, b: Bytes) {
    KeyBefore(KeySlice(a), KeySlice(b))
  }

  /** `LookupKey::memtable_key`. */
  function LookupKey(user: Bytes, s: nat): Bytes
    requires |user| + 8 < TWO32
  {
    LengthPrefixed(EncodeKey(user, s, Value))
  }

  lemma EntrySlice(r: Record)
    requires Fits(r)
    ensures KeySlice(EntryBytes(r)) == EncodeKey(r.user, r.sequence, r.kind)
  {
    TwoSlices(EncodeKey(r.user, r.sequence, r.kind), r.value, EntryBytes(r));
  }

  lemma LookupSlice(user: Bytes, s: nat)
    requires |user| + 8 < TWO32
    ensures KeySlice(LookupKey(user, s)) == EncodeKey(user, s, Value)
  {
    OneSlice(EncodeKey(user, s, Value), LookupKey(user, s));
  }

  /** Encoded entries compare with lookup keys, and with each other, as their keys do. */
  lemma EntryOrder(r: Record, user: Bytes, s: nat, kind: ValueType, b: Bytes)
    requires Fits(r) && s <= MAX_SEQUENCE && KeySlice(b) == EncodeKey(user, s, kind)
    ensures EntryBefore(EntryBytes(r), b) <==> Less(Meaning(r).key, Abstract(user, s, kind))
  {
    EntrySlice(r);
    EncodedOrder(r.user, r.sequence, r.kind, user, s, kind);
  }

  /** What is found in an entry. */
  lemma EntryParts(r: Record, b: Bytes)
    requires Fits(r) && b == EntryBytes(r)
    ensures UserPart(KeySlice(b)) == r.user && (TagPart(KeySlice(b)) % 256 == 1 <==> r.kind.Value?)
    ensures ValueSlice(b) == r.value
  {
    EntrySlice(r);
    PartsOf(r.user, r.sequence, r.kind);
    TwoSlices(EncodeKey(r.user, r.sequence, r.kind), r.value, b);
  }

  function ValueSlice(b: Bytes): Bytes {
    var k := GetLengthPrefixed(b, 0);
    if k.None? then []
    else
      var v := GetLengthPrefixed(b, k.value.1);
      if v.Some? then v.value.0 else []
  }

  /** What `Get` reports: nothing about the key, that it is deleted, or its value. */
  datatype Answer = Absent | NotFound | Found(value: Bytes)

  function Report(e: Option<Entry>): Answer {
    if e.None? then Absent else if e.value.key.kind.Value? then Found(e.value.value) else NotFound
  }

  ghost predicate Encodes(table: seq<Bytes>, rs: seq<Record>) {
    |table| == |rs| && forall i :: 0 <= i < |rs| ==> Fits(rs[i]) && table[i] == EntryBytes(rs[i])
  }

  ghost predicate AllBefore(es: seq<Entry>, i: nat, k: InternalKey)
    requires i <= |es|
  {
    forall j :: 0 <= j < i ==> Less(es[j].key, k)
  }

  lemma OneMoreBefore(es: seq<Entry>, i: nat, k: InternalKey)
    requires i < |es| && AllBefore(es, i, k) && Less(es[i].key, k)
    ensures AllBefore(es, i + 1, k)
  {
  }

  class MemTable {
    var table: seq<Bytes>
    ghost var records: seq<Record>

    ghost predicate Valid()
      reads this
    {
      Encodes(table, records) && Sorted(Meanings(records))
    }

    constructor ()
      ensures Valid() && records == []
    {
      table, records := [], [];
    }

    /** The first entry at or after a target. */
    method Seek(target: Bytes, ghost user: Bytes, ghost s: nat, ghost kind: ValueType) returns (i: nat)
      requires Valid() && s <= MAX_SEQUENCE && KeySlice(target) == EncodeKey(user, s, kind)
      ensures i == Version.LowerBound(Meanings(records), Abstract(user, s, kind)) && i <= |table|
    {
      i := 0;
      while i < |table| && EntryBefore(table[i], target)
        invariant i <= |table| && AllBefore(Meanings(records), i, Abstract(user, s, kind))
      {
        MeaningAt(records, i);
        EntryOrder(records[i], user, s, kind, target);
        OneMoreBefore(Meanings(records), i, Abstract(user, s, kind));
        i := i + 1;
      }
      if i < |table| {
        MeaningAt(records, i);
        EntryOrder(records[i], user, s, kind, target);
      }
      TwoLevel.LowerBoundUnique(Meanings(records), Abstract(user, s, kind), i);
    }

    /** `Add`: the entry is encoded and takes its place in the order. */
    method Add(sequence: nat, kind: ValueType, key: Bytes, value: Bytes)
      requires Valid() && Fits(Record(key, sequence, kind, value))
      requires forall i :: 0 <= i < |records| ==> records[i].user != key || records[i].sequence != sequence
      modifies this
      ensures Valid() && multiset(records) == multiset(old(records)) + multiset{Record(key, sequence, kind, value)}
    {
      ghost var r := Record(key, sequence, kind, value);
      var b := LengthPrefixed(EncodeKey(key, sequence, kind)) + LengthPrefixed(value);
      EntrySlice(r);
      var i := Seek(b, key, sequence, kind);
      NewKey(records, r);
      StaysSorted(Meanings(records), i, Meaning(r));
      MeaningsInserted(records, i, r);
      RecordsInserted(records, i, r);
      EncodingInserted(table, records, i, r);
      table := table[..i] + [b] + table[i..];
      records := Inserted(records, i, r);
    }

    /** `Get`: the newest entry of the key that the snapshot may see decides. */
    method Get(user: Bytes, s: nat) returns (a: Answer)
      requires Valid() && |user| + 8 < TWO32 && s <= MAX_SEQUENCE
      ensures a == Report(Version.TableGet(Meanings(records), Rank(user), s))
    {
      LookupSlice(user, s);
      var i := Seek(LookupKey(user, s), user, s, Value);
      if i < |table| {
        MeaningAt(records, i);
        EntryParts(records[i], table[i]);
        RankPreservesOrder(records[i].user, user);
        if UserPart(KeySlice(table[i])) == user {
          if TagPart(KeySlice(table[i])) % 256 == 1 {
            return Found(ValueSlice(table[i]));
          }
          return NotFound;
        }
      }
      return Absent;
    }
  }

  lemma KeysDiffer(a: Record, b: Record)
    requires a.user != b.user || a.sequence != b.sequence
    ensures Apart(Meaning(a), Meaning(b))
  {
    RankPreservesOrder(a.user, b.user);
  }

  predicate Apart(a: Entry, b: Entry) {
    a.key.user != b.key.user || a.key.sequence != b.key.sequence
  }

  ghost predicate NoSuchKey(es: seq<Entry>, e: Entry) {
    forall j :: 0 <= j < |es| ==> Apart(es[j], e)
  }

  lemma {:induction false} NewKey(rs: seq<Record>, r: Record)
    requires forall j :: 0 <= j < |rs| ==> rs[j].user != r.user || rs[j].sequence != r.sequence
    ensures NoSuchKey(Meanings(rs), Meaning(r))
  {
    if rs != [] {
      KeysDiffer(rs[0], r);
      NewKey(rs[1..], r);
      assert forall j :: 1 <= j < |rs| ==> Meanings(rs)[j] == Meanings(rs[1..])[j - 1];
    }
  }

  ghost function Inserted<T>(s: seq<T>, i: nat, x: T): seq<T>
    requires i <= |s|
  {
    s[..i] + [x] + s[i..]
  }

  lemma OrderedAround(es: seq<Entry>, i: nat, e: Entry, j: nat)
    requires Sorted(es) && NoSuchKey(es, e) && i == Version.LowerBound(es, e.key) && j < |es|
    ensures if j < i then Less(es[j].key, e.key) else Less(e.key, es[j].key)
  {
    assert Apart(es[j], e);
    if i <= j {
      assert !Less(es[i].key, e.key) && (i < j ==> Less(es[i].key, es[j].key));
    }
  }

  lemma StaysSorted(es: seq<Entry>, i: nat, e: Entry)
    requires Sorted(es) && NoSuchKey(es, e) && i == Version.LowerBound(es, e.key) <= |es|
    ensures Sorted(Inserted(es, i, e))
  {
    forall j | 0 <= j < |es| ensures if j < i then Less(es[j].key, e.key) else Less(e.key, es[j].key) {
      OrderedAround(es, i, e, j);
    }
    SortedAround(es[..i], e, es[i..]);
  }

  lemma SortedAround(a: seq<Entry>, e: Entry, b: seq<Entry>)
    requires Sorted(a) && Sorted(b)
    requires forall j :: 0 <= j < |a| ==> Less(a[j].key, e.key)
    requires forall j :: 0 <= j < |b| ==> Less(e.key, b[j].key)
    ensures Sorted(a + [e] + b)
  {
  }

  lemma {:induction false} MeaningsConcat(a: seq<Record>, b: seq<Record>)
    ensures Meanings(a + b) == Meanings(a) + Meanings(b)
  {
    if a == [] {
      assert a + b == b;
    } else {
      assert (a + b)[1..] == a[1..] + b;
      MeaningsConcat(a[1..], b);
    }
  }

  lemma MeaningsAround(a: seq<Record>, r: Record, b: seq<Record>)
    ensures Meanings(a + [r] + b) == Meanings(a) + [Meaning(r)] + Meanings(b)
  {
    MeaningsConcat(a + [r], b);
    MeaningsConcat(a, [r]);
    assert [r][1..] == [];
  }

  lemma MeaningsInserted(rs: seq<Record>, i: nat, r: Record)
    requires i <= |rs|
    ensures Meanings(Inserted(rs, i, r)) == Inserted(Meanings(rs), i, Meaning(r))
  {
    MeaningsAround(rs[..i], r, rs[i..]);
    MeaningsConcat(rs[..i], rs[i..]);
    assert rs == rs[..i] + rs[i..];
  }

  lemma EncodingInserted(table: seq<Bytes>, rs: seq<Record>, i: nat, r: Record)
    requires Encodes(table, rs) && i <= |rs| && Fits(r)
    ensures Encodes(Inserted(table, i, EntryBytes(r)), Inserted(rs, i, r))
  {
  }

  lemma RecordsInserted(rs: seq<Record>, i: nat, r: Record)
    requires i <= |rs|
    ensures multiset(Inserted(rs, i, r)) == multiset(rs) + multiset{r}
  {
    assert rs == rs[..i] + rs[i..];
  }

  /** So a memtable answers as the entries added to it read. */
  lemma AnswersReads(rs: seq<Record>, user: Bytes, s: nat)
    requires Sorted(Meanings(rs)) && Distinct(ToSet(Meanings(rs)))
    ensures match Report(Version.TableGet(Meanings(rs), Rank(user), s))
            case Found(v) => Read(ToSet(Meanings(rs)), Rank(user), s) == Some(v)
            case NotFound => Read(ToSet(Meanings(rs)), Rank(user), s) == None
            case Absent => NoneVisible(ToSet(Meanings(rs)), Rank(user), s)
  {
    var e := Version.TableGet(Meanings(rs), Rank(user), s);
    Version.TableGetIsNewest(Meanings(rs), Rank(user), s);
    if e.Some? {
      ReadNewest(ToSet(Meanings(rs)), Rank(user), s, e.value);
    }
  }
}
