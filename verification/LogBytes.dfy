/**
 What a crash leaves of the bytes of a log, read back: `DBImpl::RecoverLogFile`
 down to the batches that recovery replays.  A log cut at any byte beyond what
 was synced is a crash image in the sense of `Recovery`.
 */
module LogBytes {
  import opened Basics
  import opened Crc32c
  import opened LogFormat
  import opened LogWriter
  import opened WriteBatch
  import opened DbFormat
  import opened Durability
  import Comparator
  import LogReader
  import Recovery

  /** An update as an entry of the store. */
  function EntryOf(s: Sequenced): Entry {
    match s.update
    case Put(key, value) => Entry(Comparator.Abstract(key, s.sequence, ValueType.Value), value)
    case Delete(key) => Entry(Comparator.Abstract(key, s.sequence, Deletion), [])
  }

  function EntriesOf(ss: seq<Sequenced>): (es: seq<Entry>)
    ensures |es| == |ss| && forall i :: 0 <= i < |ss| ==> es[i] == EntryOf(ss[i])
  {
    if ss == [] then [] else EntriesOf(ss[..|ss| - 1]) + [EntryOf(ss[|ss| - 1])]
  }

  /** The contents of a write batch, and how they come about. */
  datatype Encoding = Encoding(rep: Bytes, head: Bytes, records: seq<Bytes>, first: nat, us: seq<Update>)

  /** The bytes of one batch. */
  ghost predicate Encodes(x: Encoding, batch: seq<Entry>) {
    && Holds(x.rep, x.head, x.records, x.us) && HeadSays(x.head, x.first, |x.us|)
    && batch == EntriesOf(NumberedTo(x.first, x.us, |x.us|))
  }

  function Reps(xs: seq<Encoding>): (r: seq<Bytes>)
    ensures |r| == |xs| && forall i :: 0 <= i < |xs| ==> r[i] == xs[i].rep
  {
    if xs == [] then [] else Reps(xs[..|xs| - 1]) + [xs[|xs| - 1].rep]
  }

  ghost predicate AllEncode(xs: seq<Encoding>, batches: seq<seq<Entry>>) {
    |xs| == |batches| && forall i :: 0 <= i < |xs| ==> Encodes(xs[i], batches[i])
  }

  /** The file is what a crash may leave of the log: cut anywhere, but not within what was synced. */
  ghost predicate LeftOf(file: Bytes, log: LogFile, xs: seq<Encoding>) {
    && log.synced <= |log.records| && AllEncode(xs, log.records)
    && file <= Log(LogSeal, Reps(xs))
    && |Log(LogSeal, Reps(xs)[..log.synced])| <= |file|
  }

  /** `AddRecord` of a batch, as its group's leader calls it: one more batch in the log. */
  method AppendBatch(writer: Writer, batch: Batch, ghost records: seq<seq<Entry>>, ghost xs: seq<Encoding>) returns (ghost x: Encoding)
    requires writer.seal == LogSeal && writer.Holds(Reps(xs)) && batch.Valid() && AllEncode(xs, records)
    modifies writer
    ensures writer.seal == LogSeal && writer.Holds(Reps(xs + [x]))
    ensures AllEncode(xs + [x], records + [EntriesOf(NumberedTo(batch.first, batch.updates, |batch.updates|))])
  {
    hide Log, Place0, RecordsOf;
    x := Encoding(batch.rep, batch.head, batch.records, batch.first, batch.updates);
    assert (xs + [x])[..|xs|] == xs;
    writer.Append(batch.rep, Reps(xs));
  }

  lemma {:induction false} SurvivingPrefix(seal: Seal, records: seq<Bytes>, n: nat, synced: nat)
    requires synced <= |records| && |Log(seal, records[..synced])| <= n
    ensures var r := Surviving(seal, records, n); synced <= |r| <= |records| && r == records[..|r|]
    decreases |records|
  {
    assert records[..|records|] == records;
    if |Log(seal, records)| > n {
      var init := records[..|records| - 1];
      assert init[..synced] == records[..synced];
      SurvivingPrefix(seal, init, n, synced);
      var k := |Surviving(seal, init, n)|;
      assert init[..k] == records[..k];
    }
  }

  /** One record: nothing if it is too short, else what it inserts. */
  method ReadBatch(record: Bytes, ghost x: Encoding, ghost batch: seq<Entry>) returns (r: Option<seq<Entry>>)
    ensures Encodes(x, batch) && record == x.rep ==> r == Some(batch)
  {
    if |record| < WriteBatch.HEADER {
      return None;
    }
    var inserted, status := InsertInto(record, x.head, x.records, x.first, x.us);
    r := Some(EntriesOf(inserted));
  }

  lemma ReadSoFar(log: LogFile, xs: seq<Encoding>, records: seq<Bytes>, i: nat)
    requires AllEncode(xs, log.records) && i < |records| <= |xs| && records == Reps(xs)[..|records|]
    ensures Encodes(xs[i], log.records[i]) && records[i] == xs[i].rep
    ensures log.records[..i] + [log.records[i]] == log.records[..i + 1]
  {
    hide Encodes;
    assert records[i] == Reps(xs)[i];
  }

  lemma WhatSurvives(file: Bytes, log: LogFile, xs: seq<Encoding>, records: seq<Bytes>)
    requires LeftOf(file, log, xs) && records == Surviving(LogSeal, Reps(xs), |file|)
    ensures AllEncode(xs, log.records) && |log.records| == |xs| && log.synced <= |records| <= |xs| && records == Reps(xs)[..|records|]
  {
    SurvivingPrefix(LogSeal, Reps(xs), |file|, log.synced);
  }

  /** Reads the batches of a log file. */
  method ReadLog(file: Bytes, ghost log: LogFile, ghost xs: seq<Encoding>) returns (batches: seq<seq<Entry>>)
    ensures LeftOf(file, log, xs) ==> Survives(log, batches)
  {
    var records, reports := LogReader.ReadAll(LogSeal, file, true, Reps(xs));
    ghost var on := LeftOf(file, log, xs);
    if on { WhatSurvives(file, log, xs, records); }
    hide LeftOf, Encodes, Log, Surviving, Reps, AllEncode;
    batches := [];
    for i := 0 to |records|
      invariant on ==> |log.records| == |xs| && batches == log.records[..i]
    {
      ghost var x := if on then xs[i] else Encoding([], [], [], 0, []);
      ghost var batch := if on then log.records[i] else [];
      if on { ReadSoFar(log, xs, records, i); }
      var r := ReadBatch(records[i], x, batch);
      if r.Some? {
        batches := batches + [r.value];
      }
    }
  }

  ghost predicate AllLeft(files: map<nat, Bytes>, d: Durable, xs: map<nat, seq<Encoding>>) {
    && files.Keys == d.logs.Keys
    && forall n :: n in files && n >= d.manifest.logNumber ==> n in xs && LeftOf(files[n], d.logs[n], xs[n])
  }

  /** Reads all logs a crash has left; the result is what `Recovery.Recover` starts from. */
  method ReadLogs(files: map<nat, Bytes>, ghost d: Durable, ghost xs: map<nat, seq<Encoding>>) returns (logs: map<nat, LogFile>)
    requires AllLeft(files, d, xs)
    ensures Recovery.CrashImage(d, logs)
  {
    logs := map[];
    var left := files.Keys;
    while left != {}
      invariant left <= files.Keys && logs.Keys == files.Keys - left
      invariant forall n :: n in logs && n >= d.manifest.logNumber ==> Survives(d.logs[n], logs[n].records)
      decreases left
    {
      var n :| n in left;
      var batches := ReadLog(files[n], d.logs[n], if n in xs then xs[n] else []);
      logs := logs[n := LogFile(batches, |batches|)];
      left := left - {n};
    }
  }
}
