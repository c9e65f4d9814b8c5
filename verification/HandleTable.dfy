/** `HandleTable`: chained hashing from (hash, key) to cache entries. */
module HandleTable {
  import opened Basics

  type Id = nat

  /** What an entry is found by. */
  datatype Tag = Tag(hash: nat, key: Bytes)

  datatype Slot = Slot(tag: Tag, id: Id)

  type Chain = seq<Slot>

  /** Where the chain search stops: the slot with the tag, or the end. */
  function Find(chain: Chain, tag: Tag): (i: nat)
    ensures i <= |chain| && (i < |chain| ==> chain[i].tag == tag)
    ensures forall j :: 0 <= j < i ==> chain[j].tag != tag
  {
    if chain == [] then 0
    else if chain[0].tag == tag then 0
    else 1 + Find(chain[1..], tag)
  }

  /** `hash & (length - 1)`, the length being a power of two. */
  function Bucket(tag: Tag, length: nat): (b: nat)
    requires length > 0
    ensures b < length
  {
    tag.hash % length
  }

  predicate PowerOfTwo(n: nat) {
    n == 1 || (n > 1 && n % 2 == 0 && PowerOfTwo(n / 2))
  }

  /** A slot of chain `i` is in its place, and stands for an entry of the map. */
  ghost predicate SlotOk(s: Slot, i: nat, length: nat, m: map<Tag, Id>)
    requires length > 0
  {
    Bucket(s.tag, length) == i && s.tag in m && m[s.tag] == s.id
  }

  ghost predicate ChainOk(chain: Chain, i: nat, length: nat, m: map<Tag, Id>)
    requires length > 0
  {
    && (forall j :: 0 <= j < |chain| ==> SlotOk(chain[j], i, length, m))
    && (forall j, k :: 0 <= j < k < |chain| ==> chain[j].tag != chain[k].tag)
  }

  /** The chain of a tag's bucket holds it. */
  ghost predicate Present(buckets: seq<Chain>, tag: Tag)
    requires |buckets| > 0
  {
    var chain := buckets[Bucket(tag, |buckets|)]; Find(chain, tag) < |chain|
  }

  ghost predicate Represents(buckets: seq<Chain>, m: map<Tag, Id>) {
    && |buckets| > 0
    && (forall i :: 0 <= i < |buckets| ==> ChainOk(buckets[i], i, |buckets|, m))
    && (forall tag :: tag in m ==> Present(buckets, tag))
  }

  lemma FindIs(chain: Chain, tag: Tag, j: nat)
    requires j < |chain| && chain[j].tag == tag && forall a, b :: 0 <= a < b < |chain| ==> chain[a].tag != chain[b].tag
    ensures Find(chain, tag) == j
  {
  }

  lemma ChainStays(chain: Chain, i: nat, length: nat, m: map<Tag, Id>, m': map<Tag, Id>, b: nat)
    requires length > 0 && ChainOk(chain, i, length, m) && i != b
    requires forall tag: Tag :: Bucket(tag, length) != b ==> (tag in m <==> tag in m') && (tag in m ==> m[tag] == m'[tag])
    ensures ChainOk(chain, i, length, m')
  {
    forall j | 0 <= j < |chain| ensures SlotOk(chain[j], i, length, m') {
      assert SlotOk(chain[j], i, length, m);
    }
  }

  /** Changing one chain only matters for tags of that bucket. */
  lemma OneChain(buckets: seq<Chain>, m: map<Tag, Id>, b: nat, chain: Chain, m': map<Tag, Id>)
    requires Represents(buckets, m) && b < |buckets| && ChainOk(chain, b, |buckets|, m')
    requires forall tag: Tag :: Bucket(tag, |buckets|) != b ==> (tag in m <==> tag in m') && (tag in m ==> m[tag] == m'[tag])
    requires forall tag: Tag :: Bucket(tag, |buckets|) == b && tag in m' ==> Find(chain, tag) < |chain|
    ensures Represents(buckets[b := chain], m')
  {
    hide ChainOk, Present, Find, Bucket;
    var changed := buckets[b := chain];
    forall i | 0 <= i < |changed| ensures ChainOk(changed[i], i, |changed|, m') {
      assert ChainOk(buckets[i], i, |buckets|, m);
      if i != b {
        ChainStays(buckets[i], i, |buckets|, m, m', b);
      }
    }
    forall tag | tag in m' ensures Present(changed, tag) {
      OneChainPresent(buckets, m, b, chain, m', tag);
    }
  }

  lemma OneChainPresent(buckets: seq<Chain>, m: map<Tag, Id>, b: nat, chain: Chain, m': map<Tag, Id>, tag: Tag)
    requires Represents(buckets, m) && b < |buckets| && tag in m'
    requires Bucket(tag, |buckets|) != b ==> tag in m
    requires Bucket(tag, |buckets|) == b ==> Find(chain, tag) < |chain|
    ensures Present(buckets[b := chain], tag)
  {
    if Bucket(tag, |buckets|) != b {
      assert Present(buckets, tag);
    }
  }

  class Table {
    var buckets: seq<Chain>
    var elems: nat
    ghost var m: map<Tag, Id>

    ghost predicate Valid()
      reads this
    {
      Represents(buckets, m) && |buckets| >= 4 && PowerOfTwo(|buckets|) && elems == |m|
    }

    constructor ()
      ensures Valid() && m == map[]
    {
      buckets := [[], [], [], []];
      elems := 0;
      m := map[];
    }

    method Lookup(tag: Tag) returns (r: Option<Id>)
      requires Valid()
      ensures r == if tag in m then Some(m[tag]) else None
    {
      var chain := buckets[Bucket(tag, |buckets|)];
      var i := Find(chain, tag);
      SearchTells(buckets, m, tag);
      r := if i < |chain| then Some(chain[i].id) else None;
    }

    /** Puts the entry in the place of one with the same tag, which is returned, or at the end of its chain. */
    method Insert(tag: Tag, id: Id) returns (previous: Option<Id>)
      requires Valid()
      modifies this
      ensures Valid() && m == old(m)[tag := id]
      ensures previous == if tag in old(m) then Some(old(m)[tag]) else None
    {
      var b := Bucket(tag, |buckets|);
      var chain := buckets[b];
      var i := Find(chain, tag);
      SearchTells(buckets, m, tag);
      InsertChain(buckets, m, tag, id);
      if i < |chain| {
        previous := Some(chain[i].id);
        buckets := buckets[b := chain[i := Slot(tag, id)]];
        MapSame(m, tag, id);
        m := m[tag := id];
      } else {
        previous := None;
        buckets := buckets[b := chain + [Slot(tag, id)]];
        MapGrows(m, tag, id);
        m := m[tag := id];
        elems := elems + 1;
        if elems > |buckets| {
          Resize();
        }
      }
    }

    method Remove(tag: Tag) returns (r: Option<Id>)
      requires Valid()
      modifies this
      ensures Valid() && m == old(m) - {tag}
      ensures r == if tag in old(m) then Some(old(m)[tag]) else None
    {
      hide Bucket, Find, ChainOk;
      var b := Bucket(tag, |buckets|);
      var chain := buckets[b];
      var i := Find(chain, tag);
      SearchTells(buckets, m, tag);
      if i == |chain| {
        assert m - {tag} == m;
        return None;
      }
      RemoveChain(buckets, m, tag);
      MapShrinks(m, tag);
      r := Some(chain[i].id);
      buckets := buckets[b := chain[..i] + chain[i + 1..]];
      m := m - {tag};
      elems := elems - 1;
    }

    /** Moves every entry to a table of at least as many buckets as entries. */
    method Resize()
      requires Represents(buckets, m) && elems == |m|
      modifies this
      ensures Valid() && m == old(m) && |buckets| >= elems
    {
      var newLength := 4;
      assert PowerOfTwo(2) && PowerOfTwo(4);
      while newLength < elems
        invariant newLength >= 4 && PowerOfTwo(newLength)
        decreases elems - newLength
      {
        newLength := newLength * 2;
      }
      buckets := Rehash(buckets, newLength, m);
    }
  }

  lemma SearchTells(buckets: seq<Chain>, m: map<Tag, Id>, tag: Tag)
    requires Represents(buckets, m)
    ensures var chain := buckets[Bucket(tag, |buckets|)];
            var i := Find(chain, tag);
            (i < |chain| <==> tag in m) && (i < |chain| ==> chain[i].id == m[tag])
  {
    var b := Bucket(tag, |buckets|);
    var chain := buckets[b];
    assert ChainOk(chain, b, |buckets|, m);
    assert tag in m ==> Present(buckets, tag);
    if Find(chain, tag) < |chain| {
      assert SlotOk(chain[Find(chain, tag)], b, |buckets|, m);
    }
  }

  lemma MapSame(m: map<Tag, Id>, tag: Tag, id: Id)
    requires tag in m
    ensures |m[tag := id]| == |m|
  {
    assert m[tag := id].Keys == m.Keys;
  }

  lemma MapGrows(m: map<Tag, Id>, tag: Tag, id: Id)
    requires tag !in m
    ensures |m[tag := id]| == |m| + 1
  {
    assert m[tag := id].Keys == m.Keys + {tag};
  }

  lemma MapShrinks(m: map<Tag, Id>, tag: Tag)
    requires tag in m
    ensures |m - {tag}| == |m| - 1
  {
    assert (m - {tag}).Keys == m.Keys - {tag};
  }

  lemma InsertChain(buckets: seq<Chain>, m: map<Tag, Id>, tag: Tag, id: Id)
    requires Represents(buckets, m)
    ensures var b := Bucket(tag, |buckets|);
            var chain := buckets[b];
            var i := Find(chain, tag);
            Represents(buckets[b := if i < |chain| then chain[i := Slot(tag, id)] else chain + [Slot(tag, id)]], m[tag := id])
  {
    hide Bucket, Find;
    var b := Bucket(tag, |buckets|);
    var chain, m' := buckets[b], m[tag := id];
    var i := Find(chain, tag);
    var chain' := if i < |chain| then chain[i := Slot(tag, id)] else chain + [Slot(tag, id)];
    assert ChainOk(chain, b, |buckets|, m);
    forall j | 0 <= j < |chain'| ensures SlotOk(chain'[j], b, |buckets|, m') {
      if j < |chain| {
        assert SlotOk(chain[j], b, |buckets|, m);
      }
    }
    forall t: Tag | Bucket(t, |buckets|) == b && t in m' ensures Find(chain', t) < |chain'| {
      if t == tag {
        assert chain'[i].tag == tag;
      } else {
        assert Present(buckets, t);
        var k := Find(chain, t);
        assert chain'[k].tag == t;
      }
    }
    OneChain(buckets, m, b, chain', m');
  }

  lemma ChainMinus(chain: Chain, b: nat, length: nat, m: map<Tag, Id>, i: nat)
    requires length > 0 && ChainOk(chain, b, length, m) && i < |chain|
    ensures ChainOk(chain[..i] + chain[i + 1..], b, length, m - {chain[i].tag})
  {
    var chain' := chain[..i] + chain[i + 1..];
    forall j | 0 <= j < |chain'| ensures SlotOk(chain'[j], b, length, m - {chain[i].tag}) {
      assert SlotOk(chain[if j < i then j else j + 1], b, length, m);
    }
  }

  lemma StillFound(chain: Chain, i: nat, t: Tag)
    requires i < |chain| && chain[i].tag != t && Find(chain, t) < |chain|
    ensures Find(chain[..i] + chain[i + 1..], t) < |chain| - 1
  {
    var chain', k := chain[..i] + chain[i + 1..], Find(chain, t);
    assert chain'[if k < i then k else k - 1].tag == t;
  }

  lemma RemoveChain(buckets: seq<Chain>, m: map<Tag, Id>, tag: Tag)
    requires Represents(buckets, m) && tag in m
    ensures var b := Bucket(tag, |buckets|);
            var chain := buckets[b];
            var i := Find(chain, tag);
            i < |chain| && Represents(buckets[b := chain[..i] + chain[i + 1..]], m - {tag})
  {
    var b := Bucket(tag, |buckets|);
    var chain, m' := buckets[b], m - {tag};
    var i := Find(chain, tag);
    assert Present(buckets, tag) && ChainOk(chain, b, |buckets|, m);
    ChainMinus(chain, b, |buckets|, m, i);
    forall t: Tag | Bucket(t, |buckets|) == b && t in m' ensures Find(chain[..i] + chain[i + 1..], t) < |chain| - 1 {
      assert Present(buckets, t);
      StillFound(chain, i, t);
    }
    OneChain(buckets, m, b, chain[..i] + chain[i + 1..], m');
  }

  // ---------------------------------------------------------------------
  // Rehashing
  // ---------------------------------------------------------------------

  /** The entries of the first chains, and of the front of the next one. */
  ghost predicate Moved(buckets: seq<Chain>, i: nat, j: nat, tag: Tag)
    requires |buckets| > 0
  {
    var b := Bucket(tag, |buckets|);
    var k := Find(buckets[b], tag);
    k < |buckets[b]| && (b < i || (b == i && k < j))
  }

  ghost predicate Halfway(buckets: seq<Chain>, m: map<Tag, Id>, i: nat, j: nat, part: map<Tag, Id>)
    requires |buckets| > 0
  {
    forall tag :: (tag in part <==> tag in m && Moved(buckets, i, j, tag)) && (tag in part ==> part[tag] == m[tag])
  }

  /** The outer loop of `Resize`: every chain is moved. */
  method Rehash(buckets: seq<Chain>, newLength: nat, ghost m: map<Tag, Id>) returns (moved: seq<Chain>)
    requires Represents(buckets, m) && newLength > 0
    ensures |moved| == newLength && Represents(moved, m)
  {
    moved := seq(newLength, i => []);
    ghost var part: map<Tag, Id> := map[];
    for i := 0 to |buckets|
      invariant |moved| == newLength && Represents(moved, part) && Halfway(buckets, m, i, 0, part)
    {
      moved, part := MoveChain(buckets, i, moved, m, part);
    }
    AllMoved(buckets, m, part);
  }

  /** The inner loop: every entry of a chain goes to the front of its new chain. */
  method MoveChain(buckets: seq<Chain>, i: nat, target: seq<Chain>, ghost m: map<Tag, Id>, ghost part: map<Tag, Id>)
    returns (moved: seq<Chain>, ghost more: map<Tag, Id>)
    requires Represents(buckets, m) && i < |buckets| && Represents(target, part) && Halfway(buckets, m, i, 0, part)
    ensures |moved| == |target| && Represents(moved, more) && Halfway(buckets, m, i + 1, 0, more)
  {
    moved, more := target, part;
    var chain := buckets[i];
    for j := 0 to |chain|
      invariant |moved| == |target| && Represents(moved, more) && Halfway(buckets, m, i, j, more)
    {
      NextMoves(buckets, m, i, j, more);
      moved := Push(moved, chain[j], more);
      more := more[chain[j].tag := chain[j].id];
    }
    ChainDone(buckets, m, i, more);
  }

  method Push(buckets: seq<Chain>, s: Slot, ghost m: map<Tag, Id>) returns (moved: seq<Chain>)
    requires Represents(buckets, m) && s.tag !in m
    ensures |moved| == |buckets| && Represents(moved, m[s.tag := s.id])
  {
    PushFront(buckets, m, s);
    var b := Bucket(s.tag, |buckets|);
    moved := buckets[b := [s] + buckets[b]];
  }

  lemma AllMoved(buckets: seq<Chain>, m: map<Tag, Id>, part: map<Tag, Id>)
    requires Represents(buckets, m) && Halfway(buckets, m, |buckets|, 0, part)
    ensures part == m
  {
    forall tag ensures tag in part <==> tag in m {
      assert tag in m ==> Present(buckets, tag);
    }
  }

  lemma NextMoves(buckets: seq<Chain>, m: map<Tag, Id>, i: nat, j: nat, part: map<Tag, Id>)
    requires Represents(buckets, m) && i < |buckets| && j < |buckets[i]| && Halfway(buckets, m, i, j, part)
    ensures var s := buckets[i][j];
            s.tag !in part && Halfway(buckets, m, i, j + 1, part[s.tag := s.id])
  {
    hide Find;
    var s := buckets[i][j];
    assert ChainOk(buckets[i], i, |buckets|, m);
    assert SlotOk(s, i, |buckets|, m);
    FindIs(buckets[i], s.tag, j);
    forall tag ensures Moved(buckets, i, j + 1, tag) <==> Moved(buckets, i, j, tag) || tag == s.tag {
    }
  }

  lemma ChainDone(buckets: seq<Chain>, m: map<Tag, Id>, i: nat, part: map<Tag, Id>)
    requires Represents(buckets, m) && i < |buckets| && Halfway(buckets, m, i, |buckets[i]|, part)
    ensures Halfway(buckets, m, i + 1, 0, part)
  {
    forall tag ensures Moved(buckets, i, |buckets[i]|, tag) <==> Moved(buckets, i + 1, 0, tag) {
    }
  }

  lemma PushFront(buckets: seq<Chain>, m: map<Tag, Id>, s: Slot)
    requires Represents(buckets, m) && s.tag !in m
    ensures var b := Bucket(s.tag, |buckets|); Represents(buckets[b := [s] + buckets[b]], m[s.tag := s.id])
  {
    var b := Bucket(s.tag, |buckets|);
    var chain, m' := buckets[b], m[s.tag := s.id];
    var chain' := [s] + chain;
    assert ChainOk(chain, b, |buckets|, m);
    forall j | 0 <= j < |chain'| ensures SlotOk(chain'[j], b, |buckets|, m') && (j > 0 ==> chain'[j].tag != s.tag) {
      if j > 0 {
        assert SlotOk(chain[j - 1], b, |buckets|, m);
      }
    }
    forall t: Tag | Bucket(t, |buckets|) == b && t in m' ensures Find(chain', t) < |chain'| {
      if t != s.tag {
        assert Present(buckets, t);
        assert chain'[1 + Find(chain, t)].tag == t;
      }
    }
    OneChain(buckets, m, b, chain', m');
  }
}
