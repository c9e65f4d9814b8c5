/**
 `Block` and `Block::Iter`.  On a finished block the iterator sits where an
 index into the entries would sit.  On other bytes it stops with an error, or
 yields whatever they happen to spell.  If it comes upon an entry that claims
 lengths whose sum overflows 32 bits (see `BlockFormat.HeadInside`), the code
 reads outside the block; here the iterator stops and says that it has strayed.
 */
module BlockIter {
  import opened Basics
  import opened Coding
  import opened BlockFormat
  import opened Cursors

  /** What is known, for the proofs only, about a well-formed block. */
  datatype Ghostly = Ghostly(lay: Layout, points: seq<nat>, words: seq<Four>)

  /** The first entry whose key is at or after the target, counted from `from`. */
  ghost predicate IsLowerBound(rank: Rank, es: seq<KV>, target: Bytes, i: nat) {
    && i <= |es|
    && (forall j :: 0 <= j < i ==> rank(es[j].key) < rank(target))
    && (i < |es| ==> rank(es[i].key) >= rank(target))
  }

  /** Where the restart array starts and how many restarts there are, if the sizes make sense. */
  function Trailer(data: Bytes): (r: Option<(nat, nat)>)
    ensures r.Some? ==> r.value.0 + 4 * r.value.1 + 4 == |data|
  {
    if |data| < 4 then None
    else
      var n := DecodeFixed(data, |data| - 4, 4);
      if n > (|data| - 4) / 4 then None else Some((|data| - 4 * (n + 1), n))
  }

  lemma TrailerIs(data: Bytes, limit: nat, n: nat)
    requires |data| == limit + 4 * n + 4 && DecodeFixed(data, |data| - 4, 4) == n
    ensures Trailer(data) == Some((limit, n))
  {
  }

  lemma ThreeParts(a: Bytes, b: Bytes, c: Bytes)
    ensures At(a + (b + c), |a|, b) && At(a + (b + c), |a| + |b|, c) && (a + (b + c))[..|a|] == a
  {
    AtSelf(a, b + c, []);
    assert a + (b + c) + [] == a + (b + c);
    AtAppend(a + (b + c), |a|, b, c);
  }

  lemma TrailerReads(data: Bytes, region: Bytes, words: seq<Four>, count: Four, n: nat)
    requires data == region + (Join(words) + count) && count == EncodeFixed(n, 4) && n == |words| < TWO32
    ensures Trailer(data) == Some((|region|, n)) && data[..|region|] == region
    ensures At(data, |region|, Join(words))
  {
    ThreeParts(region, Join(words), count);
    WordReads(data, |region| + |Join(words)|, count, n);
    TrailerIs(data, |region|, n);
  }

  lemma PointReads(data: Bytes, limit: nat, g: Ghostly, k: nat)
    requires At(data, limit, Join(g.words)) && Encodes(g.words, g.points) && k < |g.points| && g.points[k] < TWO32
    ensures limit + 4 * k + 4 <= |data| && DecodeFixed(data, limit + 4 * k, 4) == g.points[k]
  {
    ArrayReads(data, limit, g.words, g.points, k);
  }

  ghost predicate WellFormed(data: Bytes, region: Bytes, numRestarts: nat, g: Ghostly) {
    && Body(region, g.lay) && RestartsOk(g.lay, g.points) && Encodes(g.words, g.points)
    && |region| < TWO32 && |g.points| == numRestarts
    && At(data, |region|, Join(g.words))
  }

  lemma {:induction false} OffsetsGrow(region: Bytes, lay: Layout, i: nat, j: nat)
    requires Body(region, lay) && i <= j <= |lay.es|
    ensures lay.offs[i] <= lay.offs[j] <= |region| && (i < j ==> lay.offs[i] < lay.offs[j])
    decreases |lay.es| - i, j - i
  {
    if i < j {
      assert EntryAt(region, lay, i);
      OffsetsGrow(region, lay, i + 1, j);
    } else if j < |lay.es| {
      assert EntryAt(region, lay, j);
      OffsetsGrow(region, lay, j + 1, |lay.es|);
    }
  }

  class Iter {
    const rank: Rank
    const data: Bytes
    const region: Bytes
    const numRestarts: nat
    var current: nat
    var restartIndex: nat
    var key: Bytes
    var valueOffset: nat
    var valueLength: nat
    var corrupt: bool
    /** A stray head has been met: the code reads outside the block from here on. */
    var strayed: bool
    ghost const good: bool
    ghost const g: Ghostly
    ghost var at: nat

    /** Holds for any bytes; among some of them there is a stray head to be met. */
    ghost predicate Valid()
      reads this
    {
      && numRestarts > 0 && |region| + 4 * numRestarts <= |data| && (OnEntry() ==> restartIndex < numRestarts)
      && (good ==> WellFormed(data, region, numRestarts, g) && Increasing(rank, g.lay.es))
      && (good ==> !corrupt) && (strayed ==> !good && !NoneStray(region))
    }

    predicate OnEntry()
      reads this
    {
      current < |region|
    }

    function NextEntryOffset(): nat
      reads this
    {
      valueOffset + valueLength
    }

    /** Of a good block: this iterator stands on entry `at`, or nowhere. */
    ghost predicate Placed()
      reads this
    {
      Valid() && (OnEntry() ==> NextEntryOffset() <= |region|) && (good && OnEntry() ==> StandsOn(at))
    }

    ghost predicate StandsOn(i: nat)
      requires Valid() && good
      reads this
    {
      && i < |g.lay.es| && current == g.lay.offs[i] && key == g.lay.es[i].key
      && NextEntryOffset() == g.lay.offs[i + 1]
      && valueOffset + valueLength <= |region| && region[valueOffset..valueOffset + valueLength] == g.lay.es[i].value
      && restartIndex < numRestarts && g.lay.idx[restartIndex] <= i
      && (restartIndex + 1 < numRestarts ==> i <= g.lay.idx[restartIndex + 1])
    }

    /** The next entry to be parsed is `i`. */
    ghost predicate ReadyFor(i: nat)
      requires Valid() && good
      reads this
    {
      && i <= |g.lay.es| && NextEntryOffset() == g.lay.offs[i]
      && restartIndex < numRestarts && g.lay.idx[restartIndex] <= i
      && (i < |g.lay.es| ==> g.lay.shared[i] == 0 || (i > 0 && key == g.lay.es[i - 1].key))
    }

    /** Where in the list of entries this iterator sits. */
    ghost function Index(): Option<nat>
      reads this
    {
      if OnEntry() then Some(at) else None
    }

    constructor (rank: Rank, data: Bytes, restarts: nat, numRestarts: nat, ghost good: bool, ghost g: Ghostly)
      requires numRestarts > 0 && restarts + 4 * numRestarts <= |data|
      requires good ==> WellFormed(data, data[..restarts], numRestarts, g) && Increasing(rank, g.lay.es)
      ensures Placed() && Index() == None && this.good == good && this.g == g
      ensures this.rank == rank && this.data == data && region == data[..restarts] && this.numRestarts == numRestarts
    {
      this.rank, this.data, region, this.numRestarts := rank, data, data[..restarts], numRestarts;
      this.good, this.g := good, g;
      current, restartIndex := restarts, numRestarts;
      key, valueOffset, valueLength, corrupt, strayed := [], 0, 0, false, false;
    }

    method Key() returns (k: Bytes)
      requires Placed() && OnEntry()
      ensures good ==> at < |g.lay.es| && k == g.lay.es[at].key
    {
      k := key;
    }

    method Value() returns (v: Bytes)
      requires Placed() && OnEntry()
      ensures good ==> at < |g.lay.es| && v == g.lay.es[at].value
    {
      v := region[valueOffset..valueOffset + valueLength];
    }

    method GetRestartPoint(k: nat) returns (p: nat)
      requires Valid() && k < numRestarts
      ensures good ==> p == g.points[k] && RestartAt(g.lay, k, p)
    {
      if good {
        assert RestartAt(g.lay, k, g.points[k]);
        OffsetsGrow(region, g.lay, g.lay.idx[k], |g.lay.es|);
        PointReads(data, |region|, g, k);
      }
      p := DecodeFixed(data, |region| + 4 * k, 4);
    }

    method SeekToRestartPoint(k: nat)
      requires Valid() && k < numRestarts
      modifies this`key, this`restartIndex, this`valueOffset, this`valueLength
      ensures Valid() && restartIndex == k && (good ==> ReadyFor(g.lay.idx[k]))
    {
      key := [];
      restartIndex := k;
      valueOffset := GetRestartPoint(k);
      valueLength := 0;
    }

    method CorruptionError()
      requires Valid() && !good
      modifies this
      ensures Valid() && !OnEntry()
    {
      current, restartIndex := |region|, numRestarts;
      corrupt, key, valueOffset, valueLength := true, [], 0, 0;
    }

    /** Where the behaviour of the code is no longer defined, the model stops. */
    method Stray(ghost p: nat)
      requires Valid() && !good && DecodeEntry(region, p).Some? && !Inside(region, DecodeEntry(region, p).value)
      modifies this
      ensures Valid() && strayed && !OnEntry()
    {
      CorruptionError();
      strayed := true;
    }

    /** Parses the entry after the current value; of a good block, that is entry `i`. */
    method ParseNextKey(ghost i: nat) returns (ok: bool)
      requires Valid() && restartIndex < numRestarts && (good ==> ReadyFor(i))
      modifies this
      ensures Valid() && ok == OnEntry()
      ensures ok ==> current == old(NextEntryOffset()) < NextEntryOffset() <= |region|
      ensures good ==> if i < |g.lay.es| then ok && StandsOn(i) && ReadyFor(i + 1) else !ok
    {
      hide DecodeEntry;
      current := NextEntryOffset();
      if current >= |region| {
        if good && i < |g.lay.es| {
          OffsetsGrow(region, g.lay, i, |g.lay.es|);
        }
        current, restartIndex := |region|, numRestarts;
        return false;
      }
      if good {
        EntryHere(i);
      }
      var h := DecodeEntry(region, current);
      if h.None? || |key| < h.value.shared {
        CorruptionError();
        return false;
      }
      if !Inside(region, h.value) {
        Stray(current);
        return false;
      }
      key := key[..h.value.shared];
      key := key + region[h.value.next..h.value.next + h.value.nonShared];
      valueOffset, valueLength := h.value.next + h.value.nonShared, h.value.valueLength;
      AdvanceRestart(i);
      return true;
    }

    lemma EntryHere(i: nat)
      requires Valid() && good && ReadyFor(i) && current == NextEntryOffset() < |region|
      ensures i < |g.lay.es| && current == g.lay.offs[i]
      ensures var h := DecodeEntry(region, current); h.Some? && Inside(region, h.value)
      ensures var e, r := g.lay.es[i], NextKey(region, current, key);
              r.Some? && r.value.0 == e.key && r.value.1 + r.value.2 == g.lay.offs[i + 1] && region[r.value.1..r.value.1 + r.value.2] == e.value
    {
      assert EntryAt(region, g.lay, i);
      ReadsEntry(region, g.lay, i, key);
    }

    /** Moves the restart index up to the restart block of the entry just parsed. */
    method AdvanceRestart(ghost i: nat)
      requires Valid() && restartIndex < numRestarts
      requires good ==> i < |g.lay.es| && current == g.lay.offs[i] && g.lay.idx[restartIndex] <= i
      modifies this`restartIndex
      ensures Valid() && restartIndex < numRestarts
      ensures good ==> g.lay.idx[restartIndex] <= i && (restartIndex + 1 < numRestarts ==> i <= g.lay.idx[restartIndex + 1])
    {
      while restartIndex + 1 < numRestarts
        invariant Valid() && restartIndex < numRestarts
        invariant good ==> g.lay.idx[restartIndex] <= i
        decreases numRestarts - restartIndex
      {
        var next := GetRestartPoint(restartIndex + 1);
        if good {
          PointOrder(restartIndex + 1, i);
        }
        if next >= current {
          return;
        }
        restartIndex := restartIndex + 1;
      }
    }

    /** Restart offsets compare as the entries they point to. */
    lemma PointOrder(k: nat, i: nat)
      requires Valid() && good && k < numRestarts && i < |g.lay.es|
      ensures g.points[k] < g.lay.offs[i] <==> g.lay.idx[k] < i
    {
      var j := g.lay.idx[k];
      assert RestartAt(g.lay, k, g.points[k]);
      if j < i {
        OffsetsGrow(region, g.lay, j, i);
      } else {
        OffsetsGrow(region, g.lay, i, j);
      }
    }

    method SeekToFirst()
      requires Valid()
      modifies this
      ensures Placed() && (good ==> Index() == First(|g.lay.es|))
    {
      SeekToRestartPoint(0);
      var ok := ParseNextKey(0);
      at := 0;
    }

    /** Parses on until the end of an entry reaches `stop`, the end of entry `last`. */
    method ScanTo(stop: nat, ghost from: nat, ghost last: nat)
      requires Valid() && restartIndex < numRestarts && stop <= |region|
      requires good ==> ReadyFor(from) && (g.lay.es != [] ==> from <= last < |g.lay.es| && stop == g.lay.offs[last + 1])
      modifies this
      ensures Placed() && (good ==> Index() == if g.lay.es == [] then None else Some(last))
    {
      ghost var i: nat := from;
      while true
        invariant Valid() && restartIndex < numRestarts && (good ==> ReadyFor(i) && (g.lay.es != [] ==> i <= last))
        decreases |region| - NextEntryOffset()
      {
        var ok := ParseNextKey(i);
        at := i;
        if good && g.lay.es != [] {
          OffsetsGrow(region, g.lay, i + 1, last + 1);
        }
        if !ok || NextEntryOffset() >= stop {
          return;
        }
        i := i + 1;
      }
    }

    method SeekToLast()
      requires Valid()
      modifies this
      ensures Placed() && (good ==> Index() == Last(|g.lay.es|))
    {
      SeekToRestartPoint(numRestarts - 1);
      assert good ==> RestartAt(g.lay, numRestarts - 1, g.points[numRestarts - 1]);
      ScanTo(|region|, if good then g.lay.idx[numRestarts - 1] else 0, if good && g.lay.es != [] then |g.lay.es| - 1 else 0);
    }

    /** A restart point's entry carries its key whole. */
    lemma RestartKey(k: nat)
      requires Valid() && good && k < numRestarts && g.lay.idx[k] < |g.lay.es|
      ensures var h := DecodeEntry(region, g.points[k]);
              h.Some? && Inside(region, h.value) && h.value.shared == 0 && region[h.value.next..h.value.next + h.value.nonShared] == g.lay.es[g.lay.idx[k]].key
    {
      var i := g.lay.idx[k];
      assert RestartAt(g.lay, k, g.points[k]);
      assert EntryAt(region, g.lay, i);
      var next := EntryParts(region, g.lay.offs[i], 0, g.lay.es[i]);
    }

    /** All entries up to `i` lie before the target. */
    ghost predicate AllBefore(target: Bytes, i: nat)
      requires good
      reads this
    {
      i <= |g.lay.es| && forall j :: 0 <= j < i ==> rank(g.lay.es[j].key) < rank(target)
    }

    lemma BeforeRestart(target: Bytes, i: nat)
      requires Valid() && good && i < |g.lay.es| && rank(g.lay.es[i].key) < rank(target)
      ensures AllBefore(target, i)
    {
      forall j | 0 <= j < i ensures rank(g.lay.es[j].key) < rank(target) {
        assert rank(g.lay.es[j].key) < rank(g.lay.es[i].key);
      }
    }

    /** Binary search over the restart points for the last one with a key before the target. */
    method FindRestart(target: Bytes) returns (left: nat, ok: bool)
      requires Valid()
      modifies this
      ensures Valid() && left < numRestarts && (good ==> ok && AllBefore(target, g.lay.idx[left]))
      ensures !ok ==> !OnEntry()
    {
      ok := true;
      left := 0;
      var right := numRestarts - 1;
      while left < right
        invariant left <= right < numRestarts && Valid() && (good ==> AllBefore(target, g.lay.idx[left]))
        decreases right - left
      {
        var mid := (left + right + 1) / 2;
        var p := GetRestartPoint(mid);
        if good {
          RestartKey(mid);
        }
        var h := DecodeEntry(region, p);
        if h.None? || h.value.shared != 0 {
          CorruptionError();
          return left, false;
        }
        if !Inside(region, h.value) {
          Stray(p);
          return left, false;
        }
        var midKey := region[h.value.next..h.value.next + h.value.nonShared];
        if rank(midKey) < rank(target) {
          if good {
            BeforeRestart(target, g.lay.idx[mid]);
          }
          left := mid;
        } else {
          right := mid - 1;
        }
      }
    }

    /** Lands on the first entry whose key is at or after the target. */
    method Seek(target: Bytes)
      requires Valid()
      modifies this
      ensures Placed()
      ensures good ==> IsLowerBound(rank, g.lay.es, target, if OnEntry() then at else |g.lay.es|)
    {
      var left, sound := FindRestart(target);
      if !sound {
        return;
      }
      SeekToRestartPoint(left);
      ghost var i: nat := if good then g.lay.idx[left] else 0;
      while true
        invariant Valid() && restartIndex < numRestarts && (good ==> ReadyFor(i) && AllBefore(target, i))
        decreases |region| - NextEntryOffset()
      {
        var ok := ParseNextKey(i);
        at := i;
        if !ok || rank(key) >= rank(target) {
          return;
        }
        i := i + 1;
      }
    }

    method Next()
      requires Placed() && OnEntry()
      modifies this
      ensures Placed() && (good ==> Index() == After(|g.lay.es|, old(at)))
    {
      ghost var i := at + 1;
      var ok := ParseNextKey(i);
      at := i;
    }

    method Prev()
      requires Placed() && OnEntry()
      modifies this
      ensures Placed() && (good ==> Index() == Before(old(at)))
    {
      ghost var was := at;
      var original := current;
      var more := RestartBefore(original);
      if !more {
        return;
      }
      SeekToRestartPoint(restartIndex);
      if good {
        OffsetsGrow(region, g.lay, was, |g.lay.es|);
      }
      ScanTo(original, if good then g.lay.idx[restartIndex] else 0, if good then was - 1 else 0);
    }

    /** Scans backwards for a restart point before the current entry; gives up on the first entry. */
    method RestartBefore(original: nat) returns (more: bool)
      requires Placed() && OnEntry() && original == current
      modifies this`current, this`restartIndex
      ensures Valid()
      ensures more ==> restartIndex < numRestarts && (good ==> g.lay.idx[restartIndex] < at)
      ensures !more ==> !OnEntry() && (good ==> at == 0)
    {
      while true
        invariant Valid() && restartIndex < numRestarts && (good ==> Above(original))
        decreases restartIndex
      {
        var p := GetRestartPoint(restartIndex);
        if good {
          PointOrder(restartIndex, at);
        }
        if p < original {
          return true;
        }
        if restartIndex == 0 {
          current, restartIndex := |region|, numRestarts;
          return false;
        }
        restartIndex := restartIndex - 1;
      }
    }

    ghost predicate Above(original: nat)
      requires Valid() && good
      reads this
    {
      at < |g.lay.es| && original == g.lay.offs[at] && restartIndex < numRestarts && g.lay.idx[restartIndex] <= at
    }
  }

  /** `Block::NewIterator`: an error, an iterator over nothing, or a real one. */
  datatype Opened = BadContents | Empty | Over(iter: Iter)

  method NewIterator(rank: Rank, data: Bytes, ghost good: bool, ghost region: Bytes, ghost g: Ghostly) returns (r: Opened)
    requires good ==> IsBlock(data, region, g.lay, g.points, g.words) && Increasing(rank, g.lay.es)
    ensures good ==> r.Over? && r.iter.good && r.iter.g == g && r.iter.rank == rank
    ensures r.Over? ==> fresh(r.iter) && r.iter.Placed() && r.iter.Index() == None
  {
    if good {
      TrailerReads(data, region, g.words, EncodeFixed(|g.points|, 4), |g.points|);
    }
    var trailer := Trailer(data);
    if trailer.None? {
      return BadContents;
    }
    var (restarts, numRestarts) := trailer.value;
    if numRestarts == 0 {
      return Empty;
    }
    var it := new Iter(rank, data, restarts, numRestarts, good, g);
    return Over(it);
  }
}
