/** `log::Writer`: appends records to a file. */
module LogWriter {
  import opened Basics
  import opened Coding
  import opened Crc32c
  import opened LogFormat

  /** What is written, plus what is left to write, makes the goal. */
  ghost predicate Pending(seal: Seal, file: Bytes, at: Place, left: Bytes, goal: Bytes, end: Place) {
    if left == [] then file == goal && at == end
    else file + Emit(seal, at, left, false) == goal && AfterRecord(at, left) == end
  }

  lemma EmitStep(seal: Seal, file: Bytes, at: Place, left: Bytes, begin: bool, goal: Bytes, end: Place)
    requires file + Emit(seal, at, left, begin) == goal && AfterRecord(at, left) == end
    ensures Pending(seal, file + Fragment(seal, at, left, begin), AfterFragment(at, |left|), left[FragmentLength(at, |left|)..], goal, end)
  {
    var n, step := FragmentLength(at, |left|), Fragment(seal, at, left, begin);
    EmitUnfold(seal, at, left, begin, n);
    if n < |left| {
      Associate(file, step, Emit(seal, BLOCK, left[n..], false));
    }
  }

  class Writer {
    const seal: Seal
    var file: Bytes
    var blockOffset: Place

    constructor (seal: Seal)
      ensures this.seal == seal && file == [] && blockOffset == 0
    {
      this.seal := seal;
      file, blockOffset := [], 0;
    }

    method EmitPhysicalRecord(kind: byte, payload: Bytes)
      requires blockOffset + HEADER + |payload| <= BLOCK
      modifies this
      ensures file == old(file) + (Header(seal, kind, payload) + payload)
      ensures blockOffset == old(blockOffset) + HEADER + |payload|
    {
      file := file + Header(seal, kind, payload);
      file := file + payload;
      blockOffset := blockOffset + HEADER + |payload|;
    }

    /** One turn of the fragmentation loop; returns how much of `data` it wrote. */
    method AddFragment(data: Bytes, begin: bool) returns (n: nat)
      modifies this
      ensures n == FragmentLength(old(blockOffset), |data|)
      ensures file == old(file) + Fragment(seal, old(blockOffset), data, begin)
      ensures blockOffset == AfterFragment(old(blockOffset), |data|)
    {
      ghost var was, at := file, blockOffset;
      var leftover := BLOCK - blockOffset;
      if leftover < HEADER {
        file := file + Zeros(leftover);
        blockOffset := 0;
      }
      assert file == was + Zeros(Pad(at));
      var avail := BLOCK - blockOffset - HEADER;
      n := if |data| < avail then |data| else avail;
      var end := n == |data|;
      var kind := if begin && end then FULL else if begin then FIRST else if end then LAST else MIDDLE;
      EmitPhysicalRecord(kind, data[..n]);
      Associate(was, Zeros(Pad(at)), Header(seal, kind, data[..n]) + data[..n]);
    }

    /** Fragments the record; an empty one still gets one fragment. */
    method AddRecord(record: Bytes)
      modifies this
      ensures file == old(file) + Emit(seal, old(blockOffset), record, true)
      ensures blockOffset == AfterRecord(old(blockOffset), record)
    {
      ghost var goal, end := file + Emit(seal, blockOffset, record, true), AfterRecord(blockOffset, record);
      var left, begin := record, true;
      EmitStep(seal, file, blockOffset, left, begin, goal, end);
      var n := AddFragment(left, begin);
      left, begin := left[n..], false;
      while left != []
        invariant !begin && Pending(seal, file, blockOffset, left, goal, end)
        decreases |left|, FragmentLength(blockOffset, |left|) == 0
      {
        EmitStep(seal, file, blockOffset, left, begin, goal, end);
        n := AddFragment(left, begin);
        left := left[n..];
      }
    }

    /** The file is the log of the records added so far. */
    ghost predicate Holds(records: seq<Bytes>)
      reads this
    {
      file == Log(seal, records) && blockOffset == Place0(records)
    }

    method Append(record: Bytes, ghost records: seq<Bytes>)
      requires Holds(records)
      modifies this
      ensures Holds(records + [record])
    {
      AddRecord(record);
      LogSnoc(seal, records, record);
    }
  }
}
