/** `BlockBuilder`: appends entries in key order, sharing prefixes between restart points. */
module BlockBuilder {
  import opened Basics
  import opened Coding
  import opened BlockFormat

  lemma AtGrows(s: Bytes, t: Bytes, p: nat, b: Bytes)
    requires At(s, p, b)
    ensures At(s + t, p, b)
  {
  }

  function Extended(lay: Layout, e: KV, sh: nat, restart: bool): Layout
    requires Shapely(lay) && sh <= |e.key|
  {
    Layout(lay.es + [e], lay.offs + [lay.offs[|lay.es|] + |EntryBytes(sh, e)|], lay.shared + [sh],
           if restart then lay.idx + [|lay.es|] else lay.idx)
  }

  lemma OldEntry(region: Bytes, lay: Layout, e: KV, sh: nat, restart: bool, i: nat)
    requires Body(region, lay) && sh <= |e.key| && i < |lay.es|
    ensures EntryAt(region + EntryBytes(sh, e), Extended(lay, e, sh, restart), i)
  {
    assert EntryAt(region, lay, i);
    AtGrows(region, EntryBytes(sh, e), lay.offs[i], EntryBytes(lay.shared[i], lay.es[i]));
  }

  /** One more entry at the end of a well-formed region. */
  lemma BodyGrows(region: Bytes, lay: Layout, e: KV, sh: nat, restart: bool)
    requires Body(region, lay) && sh <= |e.key| < TWO32 && |e.value| < TWO32
    requires |lay.es| == 0 ==> sh == 0
    requires |lay.es| > 0 ==> var last := lay.es[|lay.es| - 1].key; sh <= |last| && last[..sh] == e.key[..sh]
    ensures Body(region + EntryBytes(sh, e), Extended(lay, e, sh, restart))
  {
    forall i | 0 <= i < |lay.es| ensures EntryAt(region + EntryBytes(sh, e), Extended(lay, e, sh, restart), i) {
      OldEntry(region, lay, e, sh, restart, i);
    }
    AtSelf(region, EntryBytes(sh, e), []);
    assert region + EntryBytes(sh, e) + [] == region + EntryBytes(sh, e);
  }

  lemma RestartStays(lay: Layout, e: KV, sh: nat, restart: bool, k: nat, at: nat)
    requires Shapely(lay) && k < |lay.idx| && RestartAt(lay, k, at) && sh <= |e.key| && (|lay.es| == 0 ==> sh == 0)
    requires k == 0 || lay.idx[k] < |lay.es|
    requires lay.idx[k] == |lay.es| ==> |lay.es| == 0
    ensures RestartAt(Extended(lay, e, sh, restart), k, at)
  {
  }

  lemma RestartsGrow(lay: Layout, e: KV, sh: nat, restart: bool, points: seq<nat>)
    requires Shapely(lay) && RestartsOk(lay, points) && sh <= |e.key|
    requires restart || |lay.es| == 0 ==> sh == 0
    requires restart ==> |lay.es| > lay.idx[|lay.idx| - 1]
    ensures RestartsOk(Extended(lay, e, sh, restart), if restart then points + [lay.offs[|lay.es|]] else points)
  {
    var more := Extended(lay, e, sh, restart);
    forall k | 0 <= k < |points| ensures RestartAt(more, k, points[k]) {
      assert RestartAt(lay, k, points[k]);
      RestartStays(lay, e, sh, restart, k, points[k]);
    }
    if restart {
      AscendingSnoc(lay.idx, |lay.es|);
      assert RestartAt(more, |lay.idx|, lay.offs[|lay.es|]);
    }
  }

  lemma AscendingSnoc(s: seq<nat>, n: nat)
    requires Ascending(s) && (s != [] ==> s[|s| - 1] < n)
    ensures Ascending(s + [n])
  {
    forall j | 0 <= j < |s| ensures s[j] < n {
      if j < |s| - 1 {
        assert s[j] < s[|s| - 1];
      }
    }
  }

  lemma EntriesTakeSpace(region: Bytes, lay: Layout)
    requires Body(region, lay) && lay.es != []
    ensures region != []
  {
    assert EntryAt(region, lay, |lay.es| - 1);
  }

  class BlockBuilder {
    const interval: nat
    const rank: Rank
    var buffer: Bytes
    var restarts: seq<nat>
    var counter: nat
    var finished: bool
    var lastKey: Bytes
    ghost var lay: Layout

    ghost predicate Valid()
      reads this
    {
      && Body(buffer, lay) && RestartsOk(lay, restarts) && Increasing(rank, lay.es)
      && interval >= 1 && counter <= interval && !finished
      && lastKey == (if lay.es == [] then [] else lay.es[|lay.es| - 1].key)
      && lay.idx[|lay.idx| - 1] + counter == |lay.es|
    }

    constructor (interval: nat, rank: Rank)
      requires interval >= 1
      ensures Valid() && lay.es == [] && this.rank == rank
    {
      this.interval := interval;
      this.rank := rank;
      buffer, restarts, counter, finished, lastKey := [], [0], 0, false, [];
      lay := Layout([], [0], [], [0]);
    }

    /** The longest common prefix with the previous key. */
    method SharedPrefix(key: Bytes) returns (shared: nat)
      ensures shared <= |key| && shared <= |lastKey| && lastKey[..shared] == key[..shared]
      ensures shared == |key| || shared == |lastKey| || lastKey[shared] != key[shared]
    {
      var minLength := if |lastKey| < |key| then |lastKey| else |key|;
      shared := 0;
      while shared < minLength && lastKey[shared] == key[shared]
        invariant shared <= minLength && lastKey[..shared] == key[..shared]
      {
        shared := shared + 1;
      }
    }

    method Add(key: Bytes, value: Bytes)
      requires Valid() && |key| < TWO32 && |value| < TWO32
      requires buffer != [] ==> rank(key) > rank(lastKey)
      modifies this
      ensures Valid() && lay.es == old(lay.es) + [KV(key, value)]
    {
      ghost var region, was, points := buffer, lay, restarts;
      ghost var restart := counter >= interval;
      var shared := ChooseShared(key);
      AppendEntry(shared, key, value);
      KeepKey(shared, key);
      counter := counter + 1;
      lay := LayEntry(region, was, points, KV(key, value), shared, restart);
    }

    method KeepKey(shared: nat, key: Bytes)
      requires shared <= |key| && shared <= |lastKey| && lastKey[..shared] == key[..shared]
      modifies this`lastKey
      ensures lastKey == key
    {
      lastKey := lastKey[..shared];
      lastKey := lastKey + key[shared..];
    }

    /** Shares a prefix, or starts afresh at a restart point when the interval is used up. */
    method ChooseShared(key: Bytes) returns (shared: nat)
      requires interval >= 1 && counter <= interval
      modifies this`restarts, this`counter
      ensures shared <= |key| && shared <= |lastKey| && lastKey[..shared] == key[..shared]
      ensures if old(counter) < interval then restarts == old(restarts) && counter == old(counter)
              else shared == 0 && restarts == old(restarts) + [|buffer|] && counter == 0
    {
      if counter < interval {
        shared := SharedPrefix(key);
      } else {
        shared := 0;
        restarts := restarts + [|buffer|];
        counter := 0;
      }
    }

    method AppendEntry(shared: nat, key: Bytes, value: Bytes)
      requires shared <= |key|
      modifies this`buffer
      ensures buffer == old(buffer) + EntryBytes(shared, KV(key, value))
    {
      Regroup(buffer, Varint(shared), Varint(|key| - shared), Varint(|value|), key[shared..], value);
      buffer := buffer + (Varint(shared) + (Varint(|key| - shared) + Varint(|value|)));
      buffer := buffer + key[shared..];
      buffer := buffer + value;
    }

    lemma LayEntry(region: Bytes, was: Layout, points: seq<nat>, e: KV, shared: nat, restart: bool) returns (more: Layout)
      requires Body(region, was) && RestartsOk(was, points) && Increasing(rank, was.es)
      requires shared <= |e.key| < TWO32 && |e.value| < TWO32
      requires region != [] ==> rank(e.key) > rank(was.es[|was.es| - 1].key)
      requires restart || |was.es| == 0 ==> shared == 0
      requires |was.es| > 0 ==> var last := was.es[|was.es| - 1].key; shared <= |last| && last[..shared] == e.key[..shared]
      requires restart ==> |was.es| > was.idx[|was.idx| - 1]
      ensures more == Extended(was, e, shared, restart)
      ensures Body(region + EntryBytes(shared, e), more) && Increasing(rank, more.es)
      ensures RestartsOk(more, if restart then points + [was.offs[|was.es|]] else points)
    {
      more := Extended(was, e, shared, restart);
      BodyGrows(region, was, e, shared, restart);
      RestartsGrow(was, e, shared, restart, points);
      if was.es != [] {
        EntriesTakeSpace(region, was);
      }
      StillIncreasing(rank, was.es, e);
    }

    /** Appends the restart array; the result is a block of exactly the entries added. */
    method Finish() returns (data: Bytes, ghost words: seq<Four>)
      requires Valid() && |buffer| < TWO32 && |restarts| < TWO32
      modifies this
      ensures IsBlock(data, old(buffer), old(lay), old(restarts), words) && Increasing(rank, old(lay.es))
    {
      ghost var region := buffer;
      words := AppendRestarts();
      var count: Four := EncodeFixed(|restarts|, 4);
      Associate(region, Join(words), count);
      buffer := buffer + count;
      finished := true;
      data := buffer;
    }

    method AppendRestarts() returns (ghost words: seq<Four>)
      modifies this`buffer
      ensures buffer == old(buffer) + Join(words) && Encodes(words, restarts)
    {
      ghost var region := buffer;
      words := [];
      assert region + Join([]) == region;
      for i := 0 to |restarts|
        invariant buffer == region + Join(words) && Encodes(words, restarts[..i])
      {
        var word: Four := EncodeFixed(restarts[i], 4);
        JoinSnoc(region, words, word);
        EncodesSnoc(words, restarts[..i], word, restarts[i]);
        assert restarts[..i + 1] == restarts[..i] + [restarts[i]];
        buffer := buffer + word;
        words := words + [word];
      }
      assert restarts[..|restarts|] == restarts;
    }
  }

  lemma JoinSnoc(region: Bytes, words: seq<Four>, word: Four)
    ensures region + Join(words) + word == region + Join(words + [word])
  {
    assert (words + [word])[..|words|] == words;
  }

  lemma Regroup(s: Bytes, a: Bytes, b: Bytes, c: Bytes, d: Bytes, e: Bytes)
    ensures s + (a + (b + c)) + d + e == s + (a + (b + (c + (d + e))))
  {
  }

  lemma StillIncreasing(rank: Rank, es: seq<KV>, e: KV)
    requires Increasing(rank, es) && (es != [] ==> rank(es[|es| - 1].key) < rank(e.key))
    ensures Increasing(rank, es + [e])
  {
    forall i | 0 <= i < |es| ensures rank(es[i].key) < rank(e.key) {
      if i < |es| - 1 {
        assert rank(es[i].key) < rank(es[|es| - 1].key);
      }
    }
  }
}
