/**
 The filter block of a table: one filter for each 2 KiB of file offsets, over
 the keys of the data blocks that start there.  It never rejects a key of the
 block it is asked about.
 */
module FilterBlock {
  import opened Basics
  import opened Coding
  import opened BlockFormat

  const BASE_LG: byte := 11
  const BASE: nat := 2048

  /** A filter policy: how to make a filter, and what it says of a key. */
  datatype Policy<!K> = Policy(create: seq<K> -> Bytes, mayMatch: (K, Bytes) -> bool)

  /** A policy must not miss a key it was given. */
  ghost predicate NoFalseNegatives<K(!new)>(policy: Policy<K>) {
    forall keys: seq<K>, i :: 0 <= i < |keys| ==> policy.mayMatch(keys[i], policy.create(keys))
  }

  /** The bytes of one filter; no keys, no bytes. */
  function FilterOf<K(!new)>(policy: Policy<K>, keys: seq<K>): Bytes {
    if keys == [] then [] else policy.create(keys)
  }

  /** `points` are where the filters start, and where the last one ends. */
  ghost predicate FilterAt<K(!new)>(policy: Policy<K>, result: Bytes, groups: seq<seq<K>>, points: seq<nat>, i: nat)
    requires i + 1 < |points| && i < |groups|
  {
    points[i] <= points[i + 1] <= |result| && result[points[i]..points[i + 1]] == FilterOf(policy, groups[i])
  }

  ghost predicate FiltersAt<K(!new)>(policy: Policy<K>, result: Bytes, groups: seq<seq<K>>, points: seq<nat>) {
    && |points| == |groups| + 1 && points[|groups|] == |result|
    && forall i :: 0 <= i < |groups| ==> FilterAt(policy, result, groups, points, i)
  }

  lemma FiltersGrow<K(!new)>(policy: Policy<K>, result: Bytes, groups: seq<seq<K>>, points: seq<nat>, keys: seq<K>)
    requires FiltersAt(policy, result, groups, points)
    ensures var more := result + FilterOf(policy, keys);
            FiltersAt(policy, more, groups + [keys], points + [|more|])
  {
    var more := result + FilterOf(policy, keys);
    forall i | 0 <= i < |groups| + 1 ensures FilterAt(policy, more, groups + [keys], points + [|more|], i) {
      if i < |groups| {
        assert FilterAt(policy, result, groups, points, i);
      }
    }
  }

  /** A finished filter block. */
  ghost predicate IsFilterBlock<K(!new)>(policy: Policy<K>, data: Bytes, result: Bytes, groups: seq<seq<K>>, points: seq<nat>, words: seq<Four>) {
    && FiltersAt(policy, result, groups, points) && Encodes(words, points) && |result| < TWO32
    && data == result + (Join(words) + [BASE_LG])
  }

  class FilterBlockBuilder<K(!new)> {
    const policy: Policy<K>
    var keys: seq<K>
    var result: Bytes
    var filterOffsets: seq<nat>
    ghost var groups: seq<seq<K>>
    /** Which keys went to which filter. */
    ghost var belongs: set<(nat, K)>

    ghost predicate Valid()
      reads this
    {
      && FiltersAt(policy, result, groups, filterOffsets + [|result|])
      && forall a :: a in belongs ==> if a.0 < |groups| then a.1 in groups[a.0] else a.0 == |groups| && a.1 in keys
    }

    /** The bytes of the filters once the current one is closed. */
    ghost function Size(): nat
      reads this
    {
      |result| + |FilterOf(policy, keys)|
    }

    constructor (policy: Policy<K>)
      ensures Valid() && this.policy == policy && filterOffsets == [] && belongs == {}
    {
      this.policy := policy;
      keys, result, filterOffsets, groups, belongs := [], [], [], [], {};
    }

    /** Filters up to the one for this offset are closed; keys added from now on go to it. */
    method StartBlock(blockOffset: nat)
      requires Valid() && blockOffset / BASE >= |filterOffsets|
      modifies this
      ensures Valid() && |filterOffsets| == blockOffset / BASE && belongs == old(belongs) && Size() == old(Size())
    {
      var index := blockOffset / BASE;
      while index > |filterOffsets|
        invariant Valid() && |filterOffsets| <= index && belongs == old(belongs) && Size() == old(Size())
        decreases index - |filterOffsets|
      {
        GenerateFilter();
      }
    }

    method AddKey(key: K)
      requires Valid()
      modifies this
      ensures Valid() && filterOffsets == old(filterOffsets) && belongs == old(belongs) + {(|filterOffsets|, key)}
    {
      keys := keys + [key];
      belongs := belongs + {(|groups|, key)};
    }

    method GenerateFilter()
      requires Valid()
      modifies this
      ensures Valid() && |filterOffsets| == |old(filterOffsets)| + 1 && keys == [] && belongs == old(belongs)
      ensures |result| == old(Size()) == Size()
    {
      FiltersGrow(policy, result, groups, filterOffsets + [|result|], keys);
      filterOffsets := filterOffsets + [|result|];
      groups := groups + [keys];
      if keys != [] {
        result := result + policy.create(keys);
        keys := [];
      } else {
        assert result + [] == result;
      }
    }

    /** Closes the last filter and appends the array of offsets. */
    method Finish() returns (data: Bytes, ghost words: seq<Four>)
      requires Valid() && Size() < TWO32
      modifies this
      ensures IsFilterBlock(policy, data, result, groups, filterOffsets + [|result|], words) && belongs == old(belongs)
      ensures forall a :: a in belongs ==> a.0 < |groups| && a.1 in groups[a.0]
    {
      if keys != [] {
        GenerateFilter();
      }
      var arrayAt := |result|;
      data, words := PutOffsets(filterOffsets + [arrayAt]);
      data := data + [BASE_LG];
      Associate(result, Join(words), [BASE_LG]);
    }

    method PutOffsets(points: seq<nat>) returns (data: Bytes, ghost words: seq<Four>)
      ensures data == result + Join(words) && Encodes(words, points)
    {
      data, words := result, [];
      for i := 0 to |points|
        invariant data == result + Join(words) && Encodes(words, points[..i])
      {
        var word: Four := EncodeFixed(points[i], 4);
        assert (words + [word])[..|words|] == words;
        Associate(result, Join(words), word);
        EncodesSnoc(words, points[..i], word, points[i]);
        assert points[..i + 1] == points[..i] + [points[i]];
        data := data + word;
        words := words + [word];
      }
      assert points[..|points|] == points;
    }
  }

  // ---------------------------------------------------------------------
  // Reading
  // ---------------------------------------------------------------------

  /** `FilterBlockReader`: the start of the offset array, how many filters there are, and the range of one. */
  datatype Reader = Reader(data: Bytes, arrayAt: nat, num: nat, baseLg: nat)

  function Open(data: Bytes): (r: Reader)
    ensures r.data == data && (r.num > 0 ==> r.arrayAt + 4 * r.num + 5 <= |data|)
  {
    if |data| < 5 then Reader(data, 0, 0, 0)
    else
      var last := DecodeFixed(data, |data| - 5, 4);
      if last > |data| - 5 then Reader(data, 0, 0, 0)
      else Reader(data, last, (|data| - 5 - last) / 4, data[|data| - 1])
  }

  /** The reader of a well-formed block, as `OpensBlock` shows. */
  ghost predicate Fits<K(!new)>(reader: Reader, result: Bytes, groups: seq<seq<K>>) {
    reader.arrayAt == |result| && reader.num == |groups| && reader.baseLg == BASE_LG
  }

  /** The reader's answer; the ghost arguments describe the block, if it is well formed. */
  method KeyMayMatch<K(!new)>(policy: Policy<K>, reader: Reader, blockOffset: nat, key: K,
                              ghost result: Bytes, ghost groups: seq<seq<K>>, ghost points: seq<nat>, ghost words: seq<Four>)
    returns (r: bool)
    requires reader.num > 0 ==> reader.arrayAt + 4 * reader.num + 5 <= |reader.data|
    ensures IsFilterBlock(policy, reader.data, result, groups, points, words) && Fits(reader, result, groups) ==>
              r == (blockOffset / BASE >= |groups| || policy.mayMatch(key, FilterOf(policy, groups[blockOffset / BASE])))
  {
    Pow2Of11();
    var index := blockOffset / Pow2(reader.baseLg);
    if index >= reader.num {
      return true;
    }
    var start, limit := FilterRange(policy, reader, index, result, groups, points, words);
    if start <= limit && limit <= reader.arrayAt {
      return policy.mayMatch(key, reader.data[start..limit]);
    } else if start == limit {
      return false;
    }
    return true;
  }

  /** Where filter `index` starts and ends, from two words of the offset array. */
  method FilterRange<K(!new)>(policy: Policy<K>, reader: Reader, index: nat,
                              ghost result: Bytes, ghost groups: seq<seq<K>>, ghost points: seq<nat>, ghost words: seq<Four>)
    returns (start: nat, limit: nat)
    requires index < reader.num && reader.arrayAt + 4 * reader.num + 5 <= |reader.data|
    ensures IsFilterBlock(policy, reader.data, result, groups, points, words) && reader.arrayAt == |result| && index < |groups| ==>
              start <= limit <= |result| && reader.data[start..limit] == FilterOf(policy, groups[index])
  {
    if IsFilterBlock(policy, reader.data, result, groups, points, words) && reader.arrayAt == |result| && index < |groups| {
      ReadsFilter(policy, reader.data, result, groups, points, words, index);
    }
    start := DecodeFixed(reader.data, reader.arrayAt + 4 * index, 4);
    limit := DecodeFixed(reader.data, reader.arrayAt + 4 * index + 4, 4);
  }

  lemma Pow2Of11()
    ensures Pow2(BASE_LG) == BASE
  {
    assert Pow2(3) == 8;
    assert Pow2(7) == 16 * Pow2(3);
    assert Pow2(11) == 16 * Pow2(7);
  }

  lemma ArrayStands(data: Bytes, result: Bytes, words: Bytes, last: byte)
    requires data == result + (words + [last])
    ensures At(data, |result|, words) && data[|data| - 1] == last && data[..|result|] == result
  {
    Associate(result, words, [last]);
    AtSelf(result, words, [last]);
  }

  lemma PointInside<K(!new)>(policy: Policy<K>, result: Bytes, groups: seq<seq<K>>, points: seq<nat>, i: nat)
    requires FiltersAt(policy, result, groups, points) && i < |points|
    ensures points[i] <= |result|
  {
    if i < |groups| {
      assert FilterAt(policy, result, groups, points, i);
    }
  }

  lemma WordsStand<K(!new)>(policy: Policy<K>, data: Bytes, result: Bytes, groups: seq<seq<K>>, points: seq<nat>, words: seq<Four>, i: nat)
    requires IsFilterBlock(policy, data, result, groups, points, words) && i < |points|
    ensures points[i] <= |result| && |result| + 4 * i + 4 <= |data|
    ensures DecodeFixed(data, |result| + 4 * i, 4) == points[i]
  {
    PointInside(policy, result, groups, points, i);
    ArrayStands(data, result, Join(words), BASE_LG);
    ArrayReads(data, |result|, words, points, i);
  }

  lemma OpensBlock<K(!new)>(policy: Policy<K>, data: Bytes, result: Bytes, groups: seq<seq<K>>, points: seq<nat>, words: seq<Four>)
    requires IsFilterBlock(policy, data, result, groups, points, words)
    ensures Open(data).data == data && Fits(Open(data), result, groups)
  {
    WordsStand(policy, data, result, groups, points, words, |groups|);
    ArrayStands(data, result, Join(words), BASE_LG);
    OpenIs(data, |result|, |groups|);
  }

  lemma OpenIs(data: Bytes, last: nat, n: nat)
    requires |data| == last + 4 * n + 5 && DecodeFixed(data, last + 4 * n, 4) == last
    ensures Open(data) == Reader(data, last, n, data[|data| - 1])
  {
  }

  lemma ReadsFilter<K(!new)>(policy: Policy<K>, data: Bytes, result: Bytes, groups: seq<seq<K>>, points: seq<nat>, words: seq<Four>, i: nat)
    requires IsFilterBlock(policy, data, result, groups, points, words) && i < |groups|
    ensures |result| + 4 * i + 8 <= |data|
    ensures var start, limit := DecodeFixed(data, |result| + 4 * i, 4), DecodeFixed(data, |result| + 4 * i + 4, 4);
            start <= limit <= |result| && data[start..limit] == FilterOf(policy, groups[i])
  {
    hide FilterOf, Join;
    WordsStand(policy, data, result, groups, points, words, i);
    WordsStand(policy, data, result, groups, points, words, i + 1);
    assert FilterAt(policy, result, groups, points, i);
    ArrayStands(data, result, Join(words), BASE_LG);
    SamePart(data, result, points[i], points[i + 1]);
  }

  lemma SamePart(data: Bytes, result: Bytes, a: nat, b: nat)
    requires a <= b <= |result| <= |data| && data[..|result|] == result
    ensures data[a..b] == result[a..b]
  {
    forall j | a <= j < b ensures data[j] == result[j] {
      assert data[..|result|][j] == data[j];
    }
  }

  /** A key added for a block is never rejected for it. */
  lemma NeverRejected<K(!new)>(policy: Policy<K>, groups: seq<seq<K>>, belongs: set<(nat, K)>, blockOffset: nat, key: K)
    requires NoFalseNegatives(policy) && (forall a :: a in belongs ==> a.0 < |groups| && a.1 in groups[a.0])
    requires (blockOffset / BASE, key) in belongs
    ensures blockOffset / BASE < |groups| && policy.mayMatch(key, FilterOf(policy, groups[blockOffset / BASE]))
  {
    var keys := groups[(blockOffset / BASE, key).0];
    var i :| 0 <= i < |keys| && keys[i] == key;
  }
}
