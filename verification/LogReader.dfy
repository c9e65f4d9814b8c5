/**
 `log::Reader`, reading from the start of a file.  On a log cut short anywhere
 it returns exactly the records whose last byte survived and reports nothing.
 */
module LogReader {
  import opened Basics
  import opened Coding
  import opened Crc32c
  import opened LogFormat

  /** Record `i` of the log is partly read: `rest` is still to come, from offset `p` on. */
  ghost predicate Progress(seal: Seal, records: seq<Bytes>, i: nat, p: nat, at: Place, rest: Bytes, begin: bool, scratch: Bytes) {
    && i < |records| && scratch + rest == records[i] && (begin ==> scratch == [])
    && At(Log(seal, records), p, Emit(seal, at, rest, begin))
    && |Log(seal, records[..i + 1])| == p + |Emit(seal, at, rest, begin)|
    && Place0(records[..i + 1]) == AfterRecord(at, rest)
  }

  lemma StartRecord(seal: Seal, records: seq<Bytes>, i: nat)
    requires i < |records|
    ensures Progress(seal, records, i, |Log(seal, records[..i])|, Place0(records[..i]), records[i], true, [])
  {
    RecordAt(seal, records, i);
  }

  /** One fragment further into a record. */
  lemma NextFragment(seal: Seal, records: seq<Bytes>, i: nat, p: nat, at: Place, rest: Bytes, begin: bool, scratch: Bytes, n: nat)
    requires Progress(seal, records, i, p, at, rest, begin, scratch) && n == FragmentLength(at, |rest|)
    ensures At(Log(seal, records), p, Fragment(seal, at, rest, begin))
    ensures |Log(seal, records[..i + 1])| >= p + Pad(at) + HEADER + n
    ensures n == |rest| ==> |Log(seal, records[..i + 1])| == p + Pad(at) + HEADER + n && Place0(records[..i + 1]) == Into(at) + HEADER + n
    ensures n < |rest| ==>
              && Progress(seal, records, i, p + Pad(at) + HEADER + n, BLOCK, rest[n..], false, scratch + rest[..n])
              && Into(at) + HEADER + n == BLOCK
  {
    hide FragmentLength, At, Log, Fragment, Pad, Place0, Emit;
    EmitUnfold(seal, at, rest, begin, n);
    if n < |rest| {
      var frag, tail := Fragment(seal, at, rest, begin), Emit(seal, BLOCK, rest[n..], false);
      AtAppend(Log(seal, records), p, frag, tail);
      SplitRest(scratch, rest, n);
      StillProgress(seal, records, i, p + |frag|, rest[n..], scratch + rest[..n], tail);
    }
  }

  lemma StillProgress(seal: Seal, records: seq<Bytes>, i: nat, p: nat, rest: Bytes, scratch: Bytes, tail: Bytes)
    requires i < |records| && scratch + rest == records[i] && tail == Emit(seal, BLOCK, rest, false)
    requires At(Log(seal, records), p, tail) && |Log(seal, records[..i + 1])| == p + |tail|
    requires Place0(records[..i + 1]) == AfterRecord(BLOCK, rest)
    ensures Progress(seal, records, i, p, BLOCK, rest, false, scratch)
  {
  }

  lemma SplitRest(scratch: Bytes, rest: Bytes, n: nat)
    requires n <= |rest|
    ensures scratch + rest[..n] + rest[n..] == scratch + rest
  {
    assert rest == rest[..n] + rest[n..];
    Associate(scratch, rest[..n], rest[n..]);
  }

  /** What the reader sees of the next fragment of a record under way. */
  lemma SeesFragment(seal: Seal, f: Bytes, records: seq<Bytes>, i: nat, p: nat, at: Place, rest: Bytes, begin: bool, scratch: Bytes,
                     checksum: bool, n: nat)
    requires Progress(seal, records, i, p, at, rest, begin, scratch) && n == FragmentLength(at, |rest|)
    requires f <= Log(seal, records) && p <= |f|
    ensures Parse(seal, f, p, at, checksum) ==
              if p + Pad(at) + HEADER + n <= |f|
              then Physical(Kind(begin, n == |rest|), rest[..n], p + Pad(at) + HEADER + n, [])
              else Physical(EOF, [], |f|, [])
  {
    NextFragment(seal, records, i, p, at, rest, begin, scratch, n);
    ReadFragment(seal, Log(seal, records), f, p, at, rest, begin, checksum, n);
  }

  /** What one physical record means for the logical record under way. */
  datatype Turn = Turn(done: bool, record: Option<Bytes>, inFragment: bool, scratch: Bytes, drops: seq<nat>)

  /** The `switch` of `ReadRecord`. */
  function Assemble(code: byte, fragment: Bytes, inFragment: bool, scratch: Bytes): Turn {
    var partial := if inFragment && scratch != [] then [|scratch|] else [];
    if code == FULL then Turn(true, Some(fragment), inFragment, scratch, partial)
    else if code == FIRST then Turn(false, None, true, fragment, partial)
    else if code == MIDDLE then
      if inFragment then Turn(false, None, true, scratch + fragment, []) else Turn(false, None, false, scratch, [|fragment|])
    else if code == LAST then
      if inFragment then Turn(true, Some(scratch + fragment), true, scratch, []) else Turn(false, None, false, scratch, [|fragment|])
    else if code == EOF then Turn(true, None, inFragment, [], [])
    else if code == BAD then Turn(false, None, false, if inFragment then [] else scratch, if inFragment then [|scratch|] else [])
    else Turn(false, None, false, [], [|fragment| + if inFragment then |scratch| else 0])
  }

  /** The fragments of one record come together without complaint. */
  lemma AssembleFragment(fragment: Bytes, inFragment: bool, scratch: Bytes, end: bool)
    requires !inFragment ==> scratch == []
    ensures var t := Assemble(Kind(!inFragment, end), fragment, inFragment, scratch);
            && t.drops == [] && t.done == end && (end ==> t.record == Some(scratch + fragment))
            && (!end ==> t.inFragment && t.scratch == scratch + fragment)
  {
    assert !inFragment ==> scratch + fragment == fragment;
  }

  lemma TurnFacts(seal: Seal, records: seq<Bytes>, i: nat, p: nat, at: Place, rest: Bytes, inFragment: bool, scratch: Bytes, n: nat)
    requires Progress(seal, records, i, p, at, rest, !inFragment, scratch) && n == FragmentLength(at, |rest|)
    ensures var e := p + Pad(at) + HEADER + n;
            var t := Assemble(Kind(!inFragment, n == |rest|), rest[..n], inFragment, scratch);
            && e <= |Log(seal, records[..i + 1])| && t.drops == [] && t.done == (n == |rest|)
            && (t.done ==> t.record == Some(records[i]) && |Log(seal, records[..i + 1])| == e && Place0(records[..i + 1]) == Into(at) + HEADER + n)
            && (!t.done ==> t.inFragment && Into(at) + HEADER + n == BLOCK && Progress(seal, records, i, e, BLOCK, rest[n..], false, t.scratch))
  {
    NextFragment(seal, records, i, p, at, rest, !inFragment, scratch, n);
    AssembleFragment(rest[..n], inFragment, scratch, n == |rest|);
    assert n == |rest| ==> rest[..n] == rest;
  }

  /** The file is a log cut short, and a reader at `p` is inside record `i` or past the last one. */
  ghost predicate InsideAt(seal: Seal, f: Bytes, records: seq<Bytes>, i: nat, p: nat, at: Place, rest: Bytes, begin: bool, scratch: Bytes) {
    && f <= Log(seal, records)
    && if i < |records| then Progress(seal, records, i, p, at, rest, begin, scratch) else i == |records| && p == |f|
  }

  /** The reader is done with record `i`: it has it, or the file ends before the record does. */
  ghost predicate FinishedAt(seal: Seal, f: Bytes, records: seq<Bytes>, i: nat, r: Option<Bytes>, p: nat, at: Place) {
    if i < |records| && |Log(seal, records[..i + 1])| <= |f|
    then r == Some(records[i]) && p == |Log(seal, records[..i + 1])| && at == Place0(records[..i + 1])
    else r == None
  }

  /** One physical record further: no complaint, and either done or deeper inside. */
  lemma TurnOutcome(seal: Seal, f: Bytes, records: seq<Bytes>, i: nat, p: nat, at: Place, rest: Bytes, inFragment: bool, scratch: Bytes,
                    checksum: bool, r: Physical, turn: Turn, at': Place)
    requires InsideAt(seal, f, records, i, p, at, rest, !inFragment, scratch) && p <= |f|
    requires r == Parse(seal, f, p, at, checksum) && turn == Assemble(r.code, r.fragment, inFragment, scratch)
    requires r.code != EOF && r.code != BAD ==> at' == Into(at) + HEADER + |r.fragment|
    ensures r.drops == [] && turn.drops == []
    ensures turn.done ==> FinishedAt(seal, f, records, i, turn.record, r.next, at')
    ensures !turn.done ==>
              InsideAt(seal, f, records, i, r.next, at', rest[FragmentLength(at, |rest|)..], !turn.inFragment, turn.scratch)
  {
    if i == |records| {
      EndOfLog(seal, f, at, checksum);
    } else if p + Pad(at) + HEADER + FragmentLength(at, |rest|) <= |f| {
      WholeTurn(seal, f, records, i, p, at, rest, inFragment, scratch, checksum, r, turn, FragmentLength(at, |rest|));
    } else {
      TornTurn(seal, f, records, i, p, at, rest, inFragment, scratch, checksum, r, FragmentLength(at, |rest|));
    }
  }

  lemma WholeTurn(seal: Seal, f: Bytes, records: seq<Bytes>, i: nat, p: nat, at: Place, rest: Bytes, inFragment: bool, scratch: Bytes,
                  checksum: bool, r: Physical, turn: Turn, n: nat)
    requires Progress(seal, records, i, p, at, rest, !inFragment, scratch) && n == FragmentLength(at, |rest|)
    requires f <= Log(seal, records) && p + Pad(at) + HEADER + n <= |f|
    requires r == Parse(seal, f, p, at, checksum) && turn == Assemble(r.code, r.fragment, inFragment, scratch)
    ensures FULL <= r.code <= LAST && |r.fragment| == n && r.next == p + Pad(at) + HEADER + n && r.drops == [] && turn.drops == []
    ensures turn.done ==> FinishedAt(seal, f, records, i, turn.record, r.next, Into(at) + HEADER + n)
    ensures !turn.done ==> Into(at) + HEADER + n == BLOCK && Progress(seal, records, i, r.next, BLOCK, rest[n..], !turn.inFragment, turn.scratch)
  {
    hide Log, Pad, Parse, Assemble, Into;
    SeesFragment(seal, f, records, i, p, at, rest, !inFragment, scratch, checksum, n);
    TurnFacts(seal, records, i, p, at, rest, inFragment, scratch, n);
  }

  lemma TornTurn(seal: Seal, f: Bytes, records: seq<Bytes>, i: nat, p: nat, at: Place, rest: Bytes, inFragment: bool, scratch: Bytes,
                 checksum: bool, r: Physical, n: nat)
    requires Progress(seal, records, i, p, at, rest, !inFragment, scratch) && n == FragmentLength(at, |rest|)
    requires f <= Log(seal, records) && p <= |f| < p + Pad(at) + HEADER + n
    requires r == Parse(seal, f, p, at, checksum)
    ensures r == Physical(EOF, [], |f|, []) && |f| < |Log(seal, records[..i + 1])|
  {
    SeesFragment(seal, f, records, i, p, at, rest, !inFragment, scratch, checksum, n);
    NextFragment(seal, records, i, p, at, rest, !inFragment, scratch, n);
  }

  lemma EndOfLog(seal: Seal, f: Bytes, at: Place, checksum: bool)
    ensures Parse(seal, f, |f|, at, checksum) == Physical(EOF, [], |f|, [])
  {
  }

  lemma ParseFrom(seal: Seal, f: Bytes, p: nat, at: Place, checksum: bool, h: nat, place: Place)
    requires p <= |f| && h == p + Pad(at) && place == Into(at) && h + HEADER <= |f|
    ensures Parse(seal, f, p, at, checksum) == ParseHeader(f, h, h - place + BLOCK, !checksum || Sound(seal, f, h))
  {
  }

  class Reader {
    const seal: Seal
    const file: Bytes
    const checksum: bool
    var filePos: nat
    var buffer: Bytes
    var eof: bool
    /** Sizes handed to `Reporter::Corruption`. */
    var reports: seq<nat>
    ghost var at: Place

    /** The buffer is what is left of the block read last. */
    ghost predicate Valid()
      reads this
    {
      && |buffer| <= filePos <= |file| && buffer == file[filePos - |buffer|..filePos]
      && if eof then filePos == |file| && (buffer != [] ==> |buffer| + at < BLOCK)
         else |buffer| + at == BLOCK || (buffer == [] && at == 0)
    }

    /** How much of the file has been consumed. */
    ghost function Position(): nat
      requires Valid()
      reads this
    {
      filePos - |buffer|
    }

    constructor (seal: Seal, file: Bytes, checksum: bool)
      ensures Valid() && Position() == 0 && at == 0 && reports == []
      ensures this.seal == seal && this.file == file && this.checksum == checksum
    {
      this.seal := seal;
      this.file := file;
      this.checksum := checksum;
      filePos, buffer, eof, reports, at := 0, [], false, [], 0;
    }

    /** Reads block after block until the buffer holds a header; false at the end of the file. */
    method FillBuffer() returns (ok: bool)
      requires Valid()
      modifies this`filePos, this`buffer, this`eof, this`at
      ensures Valid()
      ensures ok <==> old(Position()) + Pad(old(at)) + HEADER <= |file|
      ensures ok ==> |buffer| >= HEADER && Position() == old(Position()) + Pad(old(at)) && at == Into(old(at))
      ensures !ok ==> Position() == |file|
    {
      while |buffer| < HEADER
        invariant Valid()
        invariant (Position() + Pad(at) == old(Position()) + Pad(old(at)) && Into(at) == Into(old(at)))
                  || (eof && |buffer| < HEADER && old(Position()) + Pad(old(at)) + HEADER > |file|)
        decreases |file| - filePos, !eof
      {
        if eof {
          buffer := [];
          return false;
        }
        var n := if |file| - filePos < BLOCK then |file| - filePos else BLOCK;
        buffer := file[filePos..filePos + n];
        filePos := filePos + n;
        eof := n < BLOCK;
        at := 0;
      }
      return true;
    }

    /** The reader stands at the start of record `i` of a log of which the file is a prefix. */
    ghost predicate OnRecord(records: seq<Bytes>, i: nat)
      requires Valid()
      reads this
    {
      && file <= Log(seal, records) && i <= |records|
      && Position() == |Log(seal, records[..i])| && at == Place0(records[..i])
    }

    /** The next record.  `records` and `i` only describe the file, for logs that were cut short. */
    method ReadRecord(ghost records: seq<Bytes>, ghost i: nat) returns (r: Option<Bytes>)
      requires Valid()
      modifies this
      ensures Valid() && (r.Some? ==> old(Position()) < Position())
      ensures old(OnRecord(records, i)) ==> reports == old(reports)
      ensures old(OnRecord(records, i)) ==>
                if i < |records| && |Log(seal, records[..i + 1])| <= |file| then r == Some(records[i]) && OnRecord(records, i + 1)
                else r == None
    {
      hide Log, InsideAt, FragmentLength;
      var scratch: Bytes, inFragment := [], false;
      ghost var on := OnRecord(records, i);
      ghost var rest := if i < |records| then records[i] else [];
      if on {
        BeginRecord(records, i);
      }
      while true
        invariant Valid() && old(Position()) <= Position()
        invariant on ==> reports == old(reports) && InsideAt(seal, file, records, i, Position(), at, rest, !inFragment, scratch)
        decreases |file| - Position()
      {
        ghost var n := FragmentLength(at, |rest|);
        var turn := ReadTurn(inFragment, scratch, on, records, i, rest);
        if turn.done {
          return turn.record;
        }
        inFragment, scratch, rest := turn.inFragment, turn.scratch, rest[n..];
      }
    }

    /** One physical record, and what it does to the logical record under way. */
    method ReadTurn(inFragment: bool, scratch: Bytes, ghost on: bool, ghost records: seq<Bytes>, ghost i: nat, ghost rest: Bytes)
      returns (turn: Turn)
      requires Valid() && (on ==> InsideAt(seal, file, records, i, Position(), at, rest, !inFragment, scratch))
      modifies this
      ensures Valid() && (!turn.done || turn.record.Some? ==> old(Position()) < Position())
      ensures on ==> reports == old(reports)
      ensures on && turn.done ==> FinishedAt(seal, file, records, i, turn.record, Position(), at)
      ensures on && !turn.done ==>
                InsideAt(seal, file, records, i, Position(), at, rest[FragmentLength(old(at), |rest|)..], !turn.inFragment, turn.scratch)
    {
      ghost var p, place := Position(), at;
      ghost var parsed := Parse(seal, file, p, place, checksum);
      var code, fragment := ReadPhysicalRecord();
      turn := Assemble(code, fragment, inFragment, scratch);
      reports := reports + turn.drops;
      if on {
        TurnOutcome(seal, file, records, i, p, place, rest, inFragment, scratch, checksum, parsed, turn, at);
      }
    }

    lemma BeginRecord(records: seq<Bytes>, i: nat)
      requires Valid() && OnRecord(records, i)
      ensures InsideAt(seal, file, records, i, Position(), at, if i < |records| then records[i] else [], true, [])
    {
      if i < |records| {
        StartRecord(seal, records, i);
      } else {
        assert records[..i] == records;
      }
    }

    method ReadPhysicalRecord() returns (code: byte, fragment: Bytes)
      requires Valid()
      modifies this
      ensures Valid()
      ensures Took(Parse(seal, file, old(Position()), old(at), checksum), old(reports), code, fragment)
      ensures code != EOF && code != BAD ==> at == Into(old(at)) + HEADER + |fragment|
    {
      hide Position, Into;
      ghost var p, place := Position(), at;
      var ok := FillBuffer();
      if !ok {
        return EOF, [];
      }
      ParseFrom(seal, file, p, place, checksum, Position(), at);
      code, fragment := TakeRecord();
    }

    /** The outcome of one parse, as far as a caller can see it. */
    ghost predicate Took(r: Physical, before: seq<nat>, code: byte, fragment: Bytes)
      requires Valid()
      reads this
    {
      code == r.code && fragment == r.fragment && Position() == r.next && reports == before + r.drops
    }

    /** What stands at the front of the buffer. */
    ghost function Here(): Physical
      requires Valid() && |buffer| >= HEADER && at + HEADER <= BLOCK
      reads this
    {
      ParseHeader(file, Position(), Position() - at + BLOCK, !checksum || Sound(seal, file, Position()))
    }

    /** Parses the header at the front of the buffer. */
    method TakeRecord() returns (code: byte, fragment: Bytes)
      requires Valid() && |buffer| >= HEADER && at + HEADER <= BLOCK
      modifies this`buffer, this`at, this`reports
      ensures Valid() && Took(old(Here()), old(reports), code, fragment)
      ensures code != EOF && code != BAD ==> at == old(at) + HEADER + |fragment|
    {
      BufferFacts(file, buffer, Position());
      var low: nat, high: nat := buffer[4], buffer[5];
      var length := low + 256 * high;
      if HEADER + length > |buffer| {
        code, fragment := Drop(!eof, if eof then EOF else BAD);
      } else if buffer[6] == 0 && length == 0 {
        code, fragment := Drop(false, BAD);
      } else {
        code, fragment := TakePayload(length);
      }
    }

    method TakePayload(length: nat) returns (code: byte, fragment: Bytes)
      requires Valid() && |buffer| >= HEADER + length && at + HEADER <= BLOCK
      requires length == LengthAt(file, Position()) && (length > 0 || file[Position() + 6] != 0)
      modifies this`buffer, this`at, this`reports
      ensures Valid() && Took(old(Here()), old(reports), code, fragment)
      ensures code != EOF && code != BAD ==> at == old(at) + HEADER + |fragment|
    {
      hide LengthAt;
      BufferFacts(file, buffer, Position());
      var kind, payload := buffer[6], buffer[HEADER..HEADER + length];
      var sound := CheckRecord(kind, payload);
      if !sound {
        code, fragment := Drop(true, BAD);
        return;
      }
      Consume(HEADER + length);
      return kind, payload;
    }

    method Consume(n: nat)
      requires Valid() && n <= |buffer|
      modifies this`buffer, this`at
      ensures Valid() && Position() == old(Position()) + n && (n > 0 ==> at == old(at) + n)
    {
      if n > 0 {
        buffer := buffer[n..];
        at := at + n;
      }
    }

    /** Compares the seal in the header, if checksums are wanted (`Crc32c.SealedIff`). */
    method CheckRecord(kind: byte, payload: Bytes) returns (sound: bool)
      requires Valid() && |buffer| >= HEADER + |payload|
      requires kind == file[Position() + 6] && |payload| == LengthAt(file, Position())
      requires payload == buffer[HEADER..HEADER + |payload|]
      ensures payload == file[Position() + HEADER..Position() + HEADER + |payload|]
      ensures sound <==> !checksum || Sound(seal, file, Position())
    {
      SamePayload(file, buffer, Position(), |payload|);
      sound := !checksum || buffer[..4] == seal(kind, payload);
    }

    /** Gives up on the rest of the buffer, reporting its size if asked to. */
    method Drop(report: bool, result: byte) returns (code: byte, fragment: Bytes)
      requires Valid()
      modifies this`buffer, this`at, this`reports
      ensures Valid() && buffer == [] && code == result && fragment == []
      ensures reports == old(reports) + if report then [old(|buffer|)] else []
    {
      if report {
        reports := reports + [|buffer|];
      }
      buffer := [];
      at := BLOCK;
      return result, [];
    }
  }

  lemma BufferFacts(file: Bytes, buffer: Bytes, h: nat)
    requires h + |buffer| <= |file| && buffer == file[h..h + |buffer|] && |buffer| >= HEADER
    ensures buffer[4] == file[h + 4] && buffer[5] == file[h + 5] && buffer[6] == file[h + 6]
  {
  }

  lemma SamePayload(file: Bytes, buffer: Bytes, h: nat, n: nat)
    requires h + |buffer| <= |file| && buffer == file[h..h + |buffer|] && HEADER + n <= |buffer|
    ensures buffer[HEADER..HEADER + n] == file[h + HEADER..h + HEADER + n] && buffer[..4] == file[h..h + 4]
  {
    forall j | HEADER <= j < HEADER + n ensures buffer[j] == file[h + j] {
    }
  }

  /** The first record not read whole is the first whose last byte is missing. */
  lemma StopsAt(seal: Seal, records: seq<Bytes>, n: nat, i: nat)
    requires i <= |records| && |Log(seal, records[..i])| <= n
    requires !(i < |records| && |Log(seal, records[..i + 1])| <= n)
    ensures Surviving(seal, records, n) == records[..i]
  {
    SurvivingIs(seal, records, n, i);
  }

  /**
   Reads a whole file, as log recovery does.  If the file is the log of some
   records cut at any byte, the result is exactly the records whose last byte
   survived, in order, and no corruption is reported.
   */
  method ReadAll(seal: Seal, file: Bytes, checksum: bool, ghost records: seq<Bytes>) returns (rs: seq<Bytes>, reports: seq<nat>)
    ensures file <= Log(seal, records) ==> rs == Surviving(seal, records, |file|) && reports == []
  {
    var reader := new Reader(seal, file, checksum);
    ghost var on := file <= Log(seal, records);
    ghost var i := 0;
    rs := [];
    while true
      invariant reader.Valid() && fresh(reader) && reader.file == file && reader.seal == seal
      invariant on ==> reader.OnRecord(records, i)
      invariant on ==> rs == records[..i]
      invariant on ==> reader.reports == []
      decreases |file| - reader.Position()
    {
      var r := reader.ReadRecord(records, i);
      if r.None? {
        reports := reader.reports;
        if on {
          StopsAt(seal, records, |file|, i);
        }
        return;
      }
      if on {
        OneMore(records, i);
      }
      rs := rs + [r.value];
      i := i + 1;
    }
  }

  lemma OneMore(records: seq<Bytes>, i: nat)
    ensures i < |records| ==> records[..i] + [records[i]] == records[..i + 1]
  {
  }
}
