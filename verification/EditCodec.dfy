/** The serialized form of a `VersionEdit`: a run of tagged items. */
module EditCodec {
  import opened Basics
  import opened Coding
  import DbFormat

  datatype NewFile = NewFile(level: nat, number: nat, size: nat, smallest: Bytes, largest: Bytes)

  datatype Item =
    | Comparator(name: Bytes)
    | LogNumber(n: nat)
    | NextFileNumber(n: nat)
    | LastSequence(n: nat)
    | CompactPointer(level: nat, key: Bytes)
    | DeletedFile(level: nat, number: nat)
    | Added(file: NewFile)
    | PrevLogNumber(n: nat)

  function Tag(item: Item): (t: nat)
    ensures t < 128
  {
    match item
    case Comparator(_) => 1
    case LogNumber(_) => 2
    case NextFileNumber(_) => 3
    case LastSequence(_) => 4
    case CompactPointer(_, _) => 5
    case DeletedFile(_, _) => 6
    case Added(_) => 7
    case PrevLogNumber(_) => 9
  }

  predicate Small(item: Item) {
    match item
    case Comparator(b) => |b| < TWO32
    case LogNumber(n) => n < TWO64
    case NextFileNumber(n) => n < TWO64
    case LastSequence(n) => n < TWO64
    case CompactPointer(l, k) => l < DbFormat.NUM_LEVELS && |k| < TWO32
    case DeletedFile(l, n) => l < DbFormat.NUM_LEVELS && n < TWO64
    case Added(f) => f.level < DbFormat.NUM_LEVELS && f.number < TWO64 && f.size < TWO64 && |f.smallest| < TWO32 && |f.largest| < TWO32
    case PrevLogNumber(n) => n < TWO64
  }

  /** The fields of an item after its tag. */
  function Fields(item: Item): seq<Bytes>
    requires Small(item)
  {
    match item
    case Comparator(b) => [LengthPrefixed(b)]
    case LogNumber(n) => [Varint(n)]
    case NextFileNumber(n) => [Varint(n)]
    case LastSequence(n) => [Varint(n)]
    case CompactPointer(l, k) => [Varint(l), LengthPrefixed(k)]
    case DeletedFile(l, n) => [Varint(l), Varint(n)]
    case Added(f) => [Varint(f.level), Varint(f.number), Varint(f.size), LengthPrefixed(f.smallest), LengthPrefixed(f.largest)]
    case PrevLogNumber(n) => [Varint(n)]
  }

  function ItemBytes(item: Item): (b: Bytes)
    requires Small(item)
    ensures b != []
  {
    Varint(Tag(item)) + Concat(Fields(item), 0)
  }

  // ---------------------------------------------------------------------
  // Reading items
  // ---------------------------------------------------------------------

  function GetLevel(s: Bytes, p: nat): (r: Option<(nat, nat)>)
    ensures r.Some? ==> p < r.value.1 <= |s| && r.value.0 < DbFormat.NUM_LEVELS
  {
    var v := VarintAt(s, p, W32);
    if v.None? || v.value.0 >= DbFormat.NUM_LEVELS then None else v
  }

  function Number(s: Bytes, p: nat, tag: nat): (r: Option<(Item, nat)>)
    ensures r.Some? ==> p < r.value.1 <= |s|
  {
    var v := VarintAt(s, p, W64);
    if v.None? then None
    else if tag == 2 then Some((LogNumber(v.value.0), v.value.1))
    else if tag == 3 then Some((NextFileNumber(v.value.0), v.value.1))
    else if tag == 4 then Some((LastSequence(v.value.0), v.value.1))
    else Some((PrevLogNumber(v.value.0), v.value.1))
  }

  function ReadComparator(s: Bytes, p: nat): (r: Option<(Item, nat)>)
    ensures r.Some? ==> p < r.value.1 <= |s|
  {
    var b := GetLengthPrefixed(s, p);
    if b.None? then None else Some((Comparator(b.value.0), b.value.1))
  }

  function ReadPointer(s: Bytes, p: nat): (r: Option<(Item, nat)>)
    ensures r.Some? ==> p < r.value.1 <= |s|
  {
    var l := GetLevel(s, p);
    if l.None? then None
    else
      var k := GetLengthPrefixed(s, l.value.1);
      if k.None? then None else Some((CompactPointer(l.value.0, k.value.0), k.value.1))
  }

  function ReadDeleted(s: Bytes, p: nat): (r: Option<(Item, nat)>)
    ensures r.Some? ==> p < r.value.1 <= |s|
  {
    var l := GetLevel(s, p);
    if l.None? then None
    else
      var n := VarintAt(s, l.value.1, W64);
      if n.None? then None else Some((DeletedFile(l.value.0, n.value.0), n.value.1))
  }

  function ReadKeys(s: Bytes, p: nat, level: nat, number: nat, size: nat): (r: Option<(Item, nat)>)
    ensures r.Some? ==> p < r.value.1 <= |s|
  {
    var a := GetLengthPrefixed(s, p);
    if a.None? then None
    else
      var b := GetLengthPrefixed(s, a.value.1);
      if b.None? then None else Some((Added(NewFile(level, number, size, a.value.0, b.value.0)), b.value.1))
  }

  function ReadAdded(s: Bytes, p: nat): (r: Option<(Item, nat)>)
    ensures r.Some? ==> p < r.value.1 <= |s|
  {
    var l := GetLevel(s, p);
    if l.None? then None
    else
      var n := VarintAt(s, l.value.1, W64);
      if n.None? then None
      else
        var z := VarintAt(s, n.value.1, W64);
        if z.None? then None else ReadKeys(s, z.value.1, l.value.0, n.value.0, z.value.0)
  }

  function ReadFields(s: Bytes, p: nat, tag: nat): (r: Option<(Item, nat)>)
    ensures r.Some? ==> p < r.value.1 <= |s|
  {
    if tag == 1 then ReadComparator(s, p)
    else if tag == 2 || tag == 3 || tag == 4 || tag == 9 then Number(s, p, tag)
    else if tag == 5 then ReadPointer(s, p)
    else if tag == 6 then ReadDeleted(s, p)
    else if tag == 7 then ReadAdded(s, p)
    else None
  }

  lemma ReadsLevel(s: Bytes, p: nat, l: nat)
    requires l < DbFormat.NUM_LEVELS && At(s, p, Varint(l))
    ensures GetLevel(s, p) == Some((l, p + |Varint(l)|))
  {
    Varint32RoundTrip(s, p, l);
  }

  lemma ReadsOne(s: Bytes, p: nat, item: Item)
    requires Small(item) && |Fields(item)| == 1 && At(s, p, Concat(Fields(item), 0))
    ensures ReadFields(s, p, Tag(item)) == Some((item, p + |Concat(Fields(item), 0)|))
  {
    var fs := Fields(item);
    NextPiece(s, p, fs, 0);
    assert Concat(fs, 1) == [];
    match item
    case Comparator(b) => LengthPrefixedRoundTrip(s, p, b);
    case LogNumber(n) => Varint64RoundTrip(s, p, n);
    case NextFileNumber(n) => Varint64RoundTrip(s, p, n);
    case LastSequence(n) => Varint64RoundTrip(s, p, n);
    case PrevLogNumber(n) => Varint64RoundTrip(s, p, n);
  }

  lemma ReadsPointer(s: Bytes, p: nat, l: nat, k: Bytes)
    requires l < DbFormat.NUM_LEVELS && |k| < TWO32 && At(s, p, Concat([Varint(l), LengthPrefixed(k)], 0))
    ensures ReadPointer(s, p) == Some((CompactPointer(l, k), p + |Concat([Varint(l), LengthPrefixed(k)], 0)|))
  {
    var fs := [Varint(l), LengthPrefixed(k)];
    NextPiece(s, p, fs, 0);
    NextPiece(s, p + |fs[0]|, fs, 1);
    assert Concat(fs, 2) == [];
    ReadsLevel(s, p, l);
    LengthPrefixedRoundTrip(s, p + |fs[0]|, k);
  }

  lemma ReadsDeleted(s: Bytes, p: nat, l: nat, n: nat)
    requires l < DbFormat.NUM_LEVELS && n < TWO64 && At(s, p, Concat([Varint(l), Varint(n)], 0))
    ensures ReadDeleted(s, p) == Some((DeletedFile(l, n), p + |Concat([Varint(l), Varint(n)], 0)|))
  {
    var fs := [Varint(l), Varint(n)];
    NextPiece(s, p, fs, 0);
    NextPiece(s, p + |fs[0]|, fs, 1);
    assert Concat(fs, 2) == [];
    ReadsLevel(s, p, l);
    Varint64RoundTrip(s, p + |fs[0]|, n);
  }

  lemma ReadsKeys(s: Bytes, p: nat, f: NewFile)
    requires |f.smallest| < TWO32 && |f.largest| < TWO32
    requires At(s, p, LengthPrefixed(f.smallest)) && At(s, p + |LengthPrefixed(f.smallest)|, LengthPrefixed(f.largest))
    ensures ReadKeys(s, p, f.level, f.number, f.size)
         == Some((Added(f), p + |LengthPrefixed(f.smallest)| + |LengthPrefixed(f.largest)|))
  {
    LengthPrefixedRoundTrip(s, p, f.smallest);
    LengthPrefixedRoundTrip(s, p + |LengthPrefixed(f.smallest)|, f.largest);
  }

  lemma FivePieces(s: Bytes, p: nat, fs: seq<Bytes>)
    requires |fs| == 5 && At(s, p, Concat(fs, 0))
    ensures At(s, p, fs[0]) && At(s, p + |fs[0]|, fs[1]) && At(s, p + |fs[0]| + |fs[1]|, fs[2])
    ensures At(s, p + |fs[0]| + |fs[1]| + |fs[2]|, fs[3]) && At(s, p + |fs[0]| + |fs[1]| + |fs[2]| + |fs[3]|, fs[4])
    ensures |Concat(fs, 0)| == |fs[0]| + |fs[1]| + |fs[2]| + |fs[3]| + |fs[4]|
  {
    NextPiece(s, p, fs, 0);
    NextPiece(s, p + |fs[0]|, fs, 1);
    NextPiece(s, p + |fs[0]| + |fs[1]|, fs, 2);
    NextPiece(s, p + |fs[0]| + |fs[1]| + |fs[2]|, fs, 3);
    NextPiece(s, p + |fs[0]| + |fs[1]| + |fs[2]| + |fs[3]|, fs, 4);
    assert Concat(fs, 5) == [];
  }

  /** The numbers in front of the keys, put together. */
  lemma AddedFrom(s: Bytes, p: nat, f: NewFile, p1: nat, p2: nat, p3: nat, r: Option<(Item, nat)>)
    requires GetLevel(s, p) == Some((f.level, p1)) && VarintAt(s, p1, W64) == Some((f.number, p2))
    requires VarintAt(s, p2, W64) == Some((f.size, p3)) && ReadKeys(s, p3, f.level, f.number, f.size) == r
    ensures ReadAdded(s, p) == r
  {
  }

  lemma ReadsParts(s: Bytes, p: nat, f: NewFile, p1: nat, p2: nat, p3: nat)
    requires Small(Added(f)) && At(s, p, Varint(f.level)) && At(s, p1, Varint(f.number)) && At(s, p2, Varint(f.size))
    requires p1 == p + |Varint(f.level)| && p2 == p1 + |Varint(f.number)| && p3 == p2 + |Varint(f.size)|
    ensures ReadAdded(s, p) == ReadKeys(s, p3, f.level, f.number, f.size)
  {
    ReadsLevel(s, p, f.level);
    Varint64RoundTrip(s, p1, f.number);
    Varint64RoundTrip(s, p2, f.size);
    AddedFrom(s, p, f, p1, p2, p3, ReadKeys(s, p3, f.level, f.number, f.size));
  }

  lemma ReadsAdded(s: Bytes, p: nat, f: NewFile)
    requires Small(Added(f)) && At(s, p, Concat(Fields(Added(f)), 0))
    ensures ReadAdded(s, p) == Some((Added(f), p + |Concat(Fields(Added(f)), 0)|))
  {
    hide At, ReadAdded;
    var fs := Fields(Added(f));
    FivePieces(s, p, fs);
    var p1 := p + |fs[0]|;
    var p2 := p1 + |fs[1]|;
    var p3 := p2 + |fs[2]|;
    ReadsParts(s, p, f, p1, p2, p3);
    ReadsKeys(s, p3, f);
  }

  lemma ReadsBody(s: Bytes, p: nat, item: Item)
    requires Small(item) && At(s, p, Concat(Fields(item), 0))
    ensures ReadFields(s, p, Tag(item)) == Some((item, p + |Concat(Fields(item), 0)|))
  {
    match item
    case CompactPointer(l, k) => ReadsPointer(s, p, l, k);
    case DeletedFile(l, n) => ReadsDeleted(s, p, l, n);
    case Added(f) => ReadsAdded(s, p, f);
    case _ => ReadsOne(s, p, item);
  }

  lemma ReadsTag(s: Bytes, p: nat, tag: nat, rest: Bytes)
    requires tag < 128 && At(s, p, Varint(tag) + rest)
    ensures VarintAt(s, p, W32) == Some((tag, p + 1)) && At(s, p + 1, rest)
  {
    AtAppend(s, p, Varint(tag), rest);
    Varint32RoundTrip(s, p, tag);
  }

  /** An encoded item is read back. */
  lemma ReadsItem(s: Bytes, p: nat, item: Item)
    requires Small(item) && At(s, p, ItemBytes(item))
    ensures VarintAt(s, p, W32) == Some((Tag(item), p + 1))
    ensures ReadFields(s, p + 1, Tag(item)) == Some((item, p + |ItemBytes(item)|))
  {
    ReadsTag(s, p, Tag(item), Concat(Fields(item), 0));
    ReadsBody(s, p + 1, item);
  }
}
