/**
 The record log: 32 KiB blocks, records cut into fragments that never cross a
 block, each with a seven-byte header.  `Log` gives the bytes for a list of
 records; `Parse` gives the physical record found at a position of any file.
 */
module LogFormat {
  import opened Basics
  import opened Coding
  import opened Crc32c

  const BLOCK: nat := 32768
  const HEADER: nat := 7

  const FULL: byte := 1
  const FIRST: byte := 2
  const MIDDLE: byte := 3
  const LAST: byte := 4
  /** Codes the reader uses besides the record types. */
  const EOF: byte := 5
  const BAD: byte := 6

  function Kind(begin: bool, end: bool): (k: byte)
    ensures FULL <= k <= LAST
  {
    if begin && end then FULL else if begin then FIRST else if end then LAST else MIDDLE
  }

  // ---------------------------------------------------------------------
  // Layout
  // ---------------------------------------------------------------------

  /** An offset within a block; the end of one block counts as the start of the next. */
  type Place = x: nat | x <= BLOCK

  /** A block tail too short for a header is filled with zeros. */
  function Pad(at: Place): nat {
    if BLOCK - at < HEADER then BLOCK - at else 0
  }

  /** Where the next header starts, within its block. */
  function Into(at: Place): (r: Place)
    ensures r + HEADER <= BLOCK
  {
    if BLOCK - at < HEADER then 0 else at
  }

  function FragmentLength(at: Place, left: nat): (n: nat)
    ensures n <= left && Into(at) + HEADER + n <= BLOCK
    ensures n < left ==> Into(at) + HEADER + n == BLOCK
  {
    var room := BLOCK - Into(at) - HEADER;
    if left < room then left else room
  }

  function AfterFragment(at: Place, left: nat): Place {
    Into(at) + HEADER + FragmentLength(at, left)
  }

  function LengthBytes(n: nat): (b: Bytes)
    requires n <= BLOCK
    ensures |b| == 2
  {
    var low: byte, high: byte := n % 256, n / 256;
    [low, high]
  }

  function Header(seal: Seal, kind: byte, payload: Bytes): (h: Bytes)
    requires |payload| <= BLOCK
    ensures |h| == HEADER
  {
    seal(kind, payload) + (LengthBytes(|payload|) + [kind])
  }

  /** One fragment of a record whose remaining bytes are `data`, written at `at`. */
  function Fragment(seal: Seal, at: Place, data: Bytes, begin: bool): (b: Bytes)
    ensures |b| == Pad(at) + HEADER + FragmentLength(at, |data|)
  {
    var n := FragmentLength(at, |data|);
    Zeros(Pad(at)) + (Header(seal, Kind(begin, n == |data|), data[..n]) + data[..n])
  }

  /** The bytes a whole record adds at `at`. */
  function Emit(seal: Seal, at: Place, data: Bytes, begin: bool): (b: Bytes)
    ensures |b| >= HEADER
    decreases |data|, FragmentLength(at, |data|) == 0
  {
    var n := FragmentLength(at, |data|);
    var step := Fragment(seal, at, data, begin);
    if n == |data| then step else step + Emit(seal, BLOCK, data[n..], false)
  }

  /** The writer's place after a whole record. */
  function AfterRecord(at: Place, data: Bytes): Place
    decreases |data|, FragmentLength(at, |data|) == 0
  {
    var n := FragmentLength(at, |data|);
    if n == |data| then AfterFragment(at, |data|) else AfterRecord(BLOCK, data[n..])
  }

  lemma EmitUnfold(seal: Seal, at: Place, data: Bytes, begin: bool, n: nat)
    requires n == FragmentLength(at, |data|)
    ensures n == |data| ==> Emit(seal, at, data, begin) == Fragment(seal, at, data, begin) && AfterRecord(at, data) == AfterFragment(at, n)
    ensures n < |data| ==>
              && Emit(seal, at, data, begin) == Fragment(seal, at, data, begin) + Emit(seal, BLOCK, data[n..], false)
              && AfterRecord(at, data) == AfterRecord(BLOCK, data[n..]) && AfterFragment(at, |data|) == BLOCK
  {
  }

  function Place0(records: seq<Bytes>): Place {
    if records == [] then 0 else AfterRecord(Place0(records[..|records| - 1]), records[|records| - 1])
  }

  /** A log file holding `records`. */
  function Log(seal: Seal, records: seq<Bytes>): Bytes {
    if records == [] then []
    else
      var init := records[..|records| - 1];
      Log(seal, init) + Emit(seal, Place0(init), records[|records| - 1], true)
  }

  lemma {:induction false} LogGrows(seal: Seal, records: seq<Bytes>, i: nat)
    requires i <= |records|
    ensures Log(seal, records[..i]) <= Log(seal, records)
    decreases |records|
  {
    if i < |records| {
      var init := records[..|records| - 1];
      LogGrows(seal, init, i);
      assert init[..i] == records[..i];
    } else {
      assert records[..i] == records;
    }
  }

  lemma LogSnoc(seal: Seal, records: seq<Bytes>, r: Bytes)
    ensures Log(seal, records + [r]) == Log(seal, records) + Emit(seal, Place0(records), r, true)
    ensures Place0(records + [r]) == AfterRecord(Place0(records), r)
  {
    assert (records + [r])[..|records|] == records;
  }

  /** Record `i` starts where the log of the records before it ends. */
  lemma RecordAt(seal: Seal, records: seq<Bytes>, i: nat)
    requires i < |records|
    ensures At(Log(seal, records), |Log(seal, records[..i])|, Emit(seal, Place0(records[..i]), records[i], true))
    ensures |Log(seal, records[..i + 1])| == |Log(seal, records[..i])| + |Emit(seal, Place0(records[..i]), records[i], true)|
    ensures Place0(records[..i + 1]) == AfterRecord(Place0(records[..i]), records[i])
  {
    assert records[..i + 1] == records[..i] + [records[i]];
    LogSnoc(seal, records[..i], records[i]);
    LogGrows(seal, records, i + 1);
  }

  // ---------------------------------------------------------------------
  // Physical records of any file
  // ---------------------------------------------------------------------

  datatype Physical = Physical(code: byte, fragment: Bytes, next: nat, drops: seq<nat>)

  /** What stands at offset `p` of the file, `at` within its block; `drops` are the sizes reported as corrupt. */
  function Parse(seal: Seal, f: Bytes, p: nat, at: Place, checksum: bool): (r: Physical)
    requires p <= |f|
    ensures p <= r.next <= |f| && (r.code != EOF ==> p < r.next)
  {
    ParseAt(f, p, at, !checksum || Sound(seal, f, p + Pad(at)))
  }

  /** The same, once it is known whether the checksum is in order. */
  function ParseAt(f: Bytes, p: nat, at: Place, sound: bool): (r: Physical)
    requires p <= |f|
    ensures p <= r.next <= |f| && (r.code != EOF ==> p < r.next)
  {
    var h := p + Pad(at);
    if h + HEADER > |f| then Physical(EOF, [], |f|, []) else ParseHeader(f, h, h - Into(at) + BLOCK, sound)
  }

  function LengthAt(f: Bytes, h: nat): nat
    requires h + HEADER <= |f|
  {
    var low: nat, high: nat := f[h + 4], f[h + 5];
    low + 256 * high
  }

  predicate Sound(seal: Seal, f: Bytes, h: nat) {
    h + HEADER <= |f| && h + HEADER + LengthAt(f, h) <= |f| &&
    f[h..h + 4] == seal(f[h + 6], f[h + HEADER..h + HEADER + LengthAt(f, h)])
  }

  /** `end` is where the block ends, or would if the file were long enough. */
  function ParseHeader(f: Bytes, h: nat, end: nat, sound: bool): (r: Physical)
    requires h + HEADER <= |f| && h + HEADER <= end
    ensures h < r.next <= |f|
  {
    var limit := if end <= |f| then end else |f|;
    var n := LengthAt(f, h);
    if h + HEADER + n > limit then
      if end > |f| then Physical(EOF, [], |f|, []) else Physical(BAD, [], limit, [limit - h])
    else if f[h + 6] == 0 && n == 0 then Physical(BAD, [], limit, [])
    else if !sound then Physical(BAD, [], limit, [limit - h])
    else Physical(f[h + 6], f[h + HEADER..h + HEADER + n], h + HEADER + n, [])
  }

  // ---------------------------------------------------------------------
  // Physical records of a log cut short
  // ---------------------------------------------------------------------

  lemma HeaderReads(seal: Seal, f: Bytes, h: nat, kind: byte, payload: Bytes)
    requires |payload| <= BLOCK && At(f, h, Header(seal, kind, payload))
    ensures LengthAt(f, h) == |payload| && f[h + 6] == kind
    ensures At(f, h, seal(kind, payload))
  {
    var n := LengthBytes(|payload|);
    AtAppend(f, h, seal(kind, payload), n + [kind]);
    AtAppend(f, h + 4, n, [kind]);
    assert f[h + 4 + 0] == n[0] && f[h + 4 + 1] == n[1] && f[h + 6 + 0] == [kind][0];
  }

  lemma AtPrefix(L: Bytes, f: Bytes, p: nat, b: Bytes)
    requires f <= L && At(L, p, b) && p + |b| <= |f|
    ensures At(f, p, b)
  {
  }

  lemma FragmentParts(seal: Seal, L: Bytes, p: nat, at: Place, data: Bytes, begin: bool, n: nat, kind: byte, payload: Bytes)
    requires At(L, p, Fragment(seal, at, data, begin))
    requires n == FragmentLength(at, |data|) && kind == Kind(begin, n == |data|) && payload == data[..n]
    ensures At(L, p + Pad(at), Header(seal, kind, payload)) && At(L, p + Pad(at) + HEADER, payload)
  {
    AtAppend(L, p, Zeros(Pad(at)), Header(seal, kind, payload) + payload);
    AtAppend(L, p + Pad(at), Header(seal, kind, payload), payload);
  }

  /** What a reader finds of header and payload, byte for byte. */
  lemma FragmentBytes(seal: Seal, L: Bytes, f: Bytes, p: nat, at: Place, data: Bytes, begin: bool, n: nat, h: nat)
    requires f <= L && At(L, p, Fragment(seal, at, data, begin)) && n == FragmentLength(at, |data|) && h == p + Pad(at)
    requires h + HEADER <= |f|
    ensures LengthAt(f, h) == n && f[h + 6] == Kind(begin, n == |data|)
    ensures h + HEADER + n <= |f| ==> f[h + HEADER..h + HEADER + n] == data[..n]
  {
    var kind, payload := Kind(begin, n == |data|), data[..n];
    FragmentParts(seal, L, p, at, data, begin, n, kind, payload);
    AtPrefix(L, f, h, Header(seal, kind, payload));
    HeaderReads(seal, f, h, kind, payload);
    if h + HEADER + n <= |f| {
      AtPrefix(L, f, h + HEADER, payload);
      AtSlice(f, h + HEADER, payload);
    }
  }

  lemma FragmentSound(seal: Seal, L: Bytes, f: Bytes, p: nat, at: Place, data: Bytes, begin: bool, n: nat, h: nat)
    requires f <= L && At(L, p, Fragment(seal, at, data, begin)) && n == FragmentLength(at, |data|) && h == p + Pad(at)
    requires h + HEADER + n <= |f|
    ensures Sound(seal, f, h)
  {
    var kind, payload := Kind(begin, n == |data|), data[..n];
    FragmentBytes(seal, L, f, p, at, data, begin, n, h);
    FragmentParts(seal, L, p, at, data, begin, n, kind, payload);
    AtPrefix(L, f, h, Header(seal, kind, payload));
    HeaderReads(seal, f, h, kind, payload);
    AtSlice(f, h, seal(kind, payload));
  }

  /** A fragment that survived whole is read back; one that did not looks like the end of the file. */
  lemma ParseFragment(seal: Seal, L: Bytes, f: Bytes, p: nat, at: Place, data: Bytes, begin: bool, sound: bool, n: nat)
    requires f <= L && p <= |f| && At(L, p, Fragment(seal, at, data, begin)) && n == FragmentLength(at, |data|)
    requires p + Pad(at) + HEADER + n <= |f| ==> sound
    ensures ParseAt(f, p, at, sound) ==
              if p + Pad(at) + HEADER + n <= |f|
              then Physical(Kind(begin, n == |data|), data[..n], p + Pad(at) + HEADER + n, [])
              else Physical(EOF, [], |f|, [])
  {
    var h := p + Pad(at);
    if h + HEADER <= |f| {
      FragmentBytes(seal, L, f, p, at, data, begin, n, h);
    }
  }

  lemma ReadFragment(seal: Seal, L: Bytes, f: Bytes, p: nat, at: Place, data: Bytes, begin: bool, checksum: bool, n: nat)
    requires f <= L && p <= |f| && At(L, p, Fragment(seal, at, data, begin)) && n == FragmentLength(at, |data|)
    ensures Parse(seal, f, p, at, checksum) ==
              if p + Pad(at) + HEADER + n <= |f|
              then Physical(Kind(begin, n == |data|), data[..n], p + Pad(at) + HEADER + n, [])
              else Physical(EOF, [], |f|, [])
  {
    if p + Pad(at) + HEADER + n <= |f| {
      FragmentSound(seal, L, f, p, at, data, begin, n, p + Pad(at));
    }
    ParseFragment(seal, L, f, p, at, data, begin, !checksum || Sound(seal, f, p + Pad(at)), n);
  }

  /** The records all of whose bytes lie in the first `n` bytes of the log. */
  function Surviving(seal: Seal, records: seq<Bytes>, n: nat): seq<Bytes> {
    if |Log(seal, records)| <= n then records
    else if records == [] then []
    else Surviving(seal, records[..|records| - 1], n)
  }

  lemma InitPrefix<T>(s: seq<T>, i: nat)
    requires i < |s|
    ensures s[..|s| - 1][..i] == s[..i]
  {
  }

  lemma {:induction false} SurvivingIs(seal: Seal, records: seq<Bytes>, n: nat, i: nat)
    requires i <= |records| && |Log(seal, records[..i])| <= n
    requires i < |records| ==> n < |Log(seal, records[..i + 1])|
    ensures Surviving(seal, records, n) == records[..i]
    decreases |records|
  {
    if i == |records| {
      assert records[..i] == records;
    } else {
      LogGrows(seal, records, i + 1);
      InitPrefix(records, i);
      if i + 1 < |records| {
        InitPrefix(records, i + 1);
      }
      SurvivingIs(seal, records[..|records| - 1], n, i);
    }
  }
}
