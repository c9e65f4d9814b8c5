/**
 The skip list as memory: nodes with one link per level, changed one store at
 a time.  A reader that loads links between the writer's stores still finds
 exact answers.  Keys are compared through their rank in comparator order.
 */
module SkipListModel {
  import opened Basics

  type Key = real

  const MAX_HEIGHT: nat := 12

  datatype Node = Node(key: Key, next: seq<Option<nat>>)

  /** Node 0 is the head, before every key. */
  type Memory = seq<Node>

  /** `y` comes after `x`. */
  predicate After(m: Memory, y: nat, x: nat)
    requires x < |m| && y < |m|
  {
    y != 0 && (x == 0 || m[x].key < m[y].key)
  }

  predicate Below(m: Memory, x: nat, k: Key)
    requires x < |m|
  {
    x == 0 || m[x].key < k
  }

  /** On how many levels, from the bottom, each node has been linked in. */
  type Linked = seq<nat>

  ghost predicate Shape(m: Memory, up: Linked) {
    && |m| == |up| > 0 && |m[0].next| == MAX_HEIGHT == up[0]
    && (forall x :: 0 <= x < |m| ==> up[x] <= |m[x].next| <= MAX_HEIGHT)
    && (forall x, y :: 0 < x < |m| && 0 < y < |m| && x != y && up[x] > 0 && up[y] > 0 ==> m[x].key != m[y].key)
  }

  /** `r` is the first node linked on level `l` after `x`. */
  ghost predicate IsNext(m: Memory, up: Linked, l: nat, x: nat, r: Option<nat>)
    requires |up| == |m| && x < |m|
  {
    match r
    case None => forall z :: 0 <= z < |m| && up[z] > l ==> !After(m, z, x)
    case Some(y) =>
      && y < |m| && up[y] > l && After(m, y, x)
      && forall z :: 0 <= z < |m| && up[z] > l && After(m, z, x) ==> z == y || m[y].key < m[z].key
  }

  /** Every level is sorted, and holds exactly the nodes linked that high. */
  ghost predicate Inv(m: Memory, up: Linked) {
    && Shape(m, up)
    && forall x, l :: 0 <= x < |m| && 0 <= l < up[x] ==> IsNext(m, up, l, x, m[x].next[l])
  }

  /** The keys a reader can find. */
  ghost function Keys(m: Memory, up: Linked): set<Key>
    requires |up| == |m|
  {
    set x | 0 < x < |m| && up[x] > 0 :: m[x].key
  }

  /** `r` holds the least key at or after `k`. */
  ghost predicate IsLowerBound(m: Memory, up: Linked, k: Key, r: Option<nat>)
    requires |up| == |m|
  {
    match r
    case None => forall q :: q in Keys(m, up) ==> q < k
    case Some(y) => 0 < y < |m| && m[y].key in Keys(m, up) && m[y].key >= k && forall q :: q in Keys(m, up) && q >= k ==> m[y].key <= q
  }

  // ---------------------------------------------------------------------
  // Stores
  // ---------------------------------------------------------------------

  /** `NewNode`: not linked anywhere yet. */
  function Alloc(m: Memory, k: Key, height: nat): Memory {
    m + [Node(k, seq(height, i => None))]
  }

  function SetNext(m: Memory, x: nat, l: nat, r: Option<nat>): Memory
    requires x < |m| && l < |m[x].next|
  {
    m[x := m[x].(next := m[x].next[l := r])]
  }

  lemma SameNext(m: Memory, m': Memory, up: Linked, l: nat, x: nat, r: Option<nat>)
    requires |m'| == |m| == |up| && x < |m| && IsNext(m, up, l, x, r)
    requires forall z :: 0 <= z < |m| ==> m'[z].key == m[z].key
    ensures IsNext(m', up, l, x, r)
  {
  }

  lemma AllocKeeps(m: Memory, up: Linked, k: Key, height: nat)
    requires Inv(m, up) && 0 < height <= MAX_HEIGHT
    ensures Inv(Alloc(m, k, height), up + [0]) && Keys(Alloc(m, k, height), up + [0]) == Keys(m, up)
  {
    var m', up' := Alloc(m, k, height), up + [0];
    forall x, l | 0 <= x < |m'| && 0 <= l < up'[x] ensures IsNext(m', up', l, x, m'[x].next[l]) {
      assert IsNext(m, up, l, x, m[x].next[l]);
    }
    assert forall x :: 0 <= x < |m| ==> m'[x] == m[x] && up'[x] == up[x];
  }

  /** A link of the new node on a level where it is not linked in yet: no reader can see it. */
  lemma PrepareKeeps(m: Memory, up: Linked, x: nat, l: nat, r: Option<nat>)
    requires Inv(m, up) && x < |m| && up[x] <= l < |m[x].next|
    ensures Inv(SetNext(m, x, l, r), up) && Keys(SetNext(m, x, l, r), up) == Keys(m, up)
  {
    var m' := SetNext(m, x, l, r);
    forall z, i | 0 <= z < |m'| && 0 <= i < up[z] ensures IsNext(m', up, i, z, m'[z].next[i]) {
      assert IsNext(m, up, i, z, m[z].next[i]);
      SameNext(m, m', up, i, z, m[z].next[i]);
    }
  }

  /** Between `p` and its successor on level `l` is the place of key `k`. */
  ghost predicate IsPlace(m: Memory, up: Linked, l: nat, p: nat, k: Key)
    requires |up| == |m|
  {
    && p < |m| && l < up[p] <= |m[p].next| && Below(m, p, k)
    && (m[p].next[l].Some? ==> m[p].next[l].value < |m| && m[m[p].next[l].value].key > k)
  }

  ghost predicate KeyIsNew(m: Memory, up: Linked, x: nat)
    requires |up| == |m| && x < |m|
  {
    forall z :: 0 < z < |m| && z != x && up[z] > 0 ==> m[z].key != m[x].key
  }

  /** Everything linked on level `l` is either at most `p` or beyond the new node's key. */
  lemma PlaceSplits(m: Memory, up: Linked, l: nat, p: nat, k: Key, z: nat)
    requires Inv(m, up) && IsPlace(m, up, l, p, k) && z < |m| && up[z] > l && After(m, z, p)
    ensures m[z].key > k
  {
    assert IsNext(m, up, l, p, m[p].next[l]);
  }

  /** The other nodes' successors on the level are not disturbed by the new node. */
  lemma OthersKeep(m: Memory, up: Linked, x: nat, l: nat, p: nat, z: nat)
    requires Inv(m, up) && 0 < x < |m| && up[x] == l && z < |m| && up[z] > l && z != p
    requires IsPlace(m, up, l, p, m[x].key) && KeyIsNew(m, up, x)
    ensures IsNext(m, up[x := l + 1], l, z, m[z].next[l])
  {
    assert IsNext(m, up, l, z, m[z].next[l]);
    if After(m, p, z) {
      assert up[p] > l;
    } else if After(m, z, p) {
      PlaceSplits(m, up, l, p, m[x].key, z);
    }
  }

  lemma NewFollowsPlace(m: Memory, up: Linked, x: nat, l: nat, p: nat)
    requires Inv(m, up) && 0 < x < |m| && up[x] == l && IsPlace(m, up, l, p, m[x].key)
    ensures IsNext(m, up[x := l + 1], l, p, Some(x))
  {
    forall z | 0 <= z < |m| && up[x := l + 1][z] > l && After(m, z, p) ensures z == x || m[x].key < m[z].key {
      if z != x {
        PlaceSplits(m, up, l, p, m[x].key, z);
      }
    }
  }

  lemma NewHasNext(m: Memory, up: Linked, x: nat, l: nat, p: nat)
    requires Inv(m, up) && 0 < x < |m| && up[x] == l < |m[x].next| && IsPlace(m, up, l, p, m[x].key)
    ensures IsNext(m, up[x := l + 1], l, x, m[p].next[l])
  {
    var r := m[p].next[l];
    assert IsNext(m, up, l, p, r);
    forall z | 0 <= z < |m| && up[x := l + 1][z] > l && After(m, z, x) ensures up[z] > l && After(m, z, p) {
    }
  }

  /** Publishing the new node on one more level, with its own link already in place. */
  lemma PublishKeeps(m: Memory, up: Linked, x: nat, l: nat, p: nat)
    requires Inv(m, up) && 0 < x < |m| && up[x] == l < |m[x].next| && KeyIsNew(m, up, x)
    requires IsPlace(m, up, l, p, m[x].key) && m[x].next[l] == m[p].next[l]
    ensures Inv(SetNext(m, p, l, Some(x)), up[x := l + 1])
    ensures Keys(SetNext(m, p, l, Some(x)), up[x := l + 1]) == Keys(m, up) + {m[x].key}
  {
    var m', up' := SetNext(m, p, l, Some(x)), up[x := l + 1];
    forall z, i | 0 <= z < |m'| && 0 <= i < up'[z] ensures IsNext(m', up', i, z, m'[z].next[i]) {
      if i == l {
        if z == p {
          NewFollowsPlace(m, up, x, l, p);
        } else if z == x {
          NewHasNext(m, up, x, l, p);
        } else {
          OthersKeep(m, up, x, l, p, z);
        }
      } else {
        assert IsNext(m, up, i, z, m[z].next[i]);
        OtherLevel(m, up, x, l, i, z, m[z].next[i]);
      }
      SameNext(m, m', up', i, z, m'[z].next[i]);
    }
    PublishedKeys(m, up, x, l, p);
  }

  lemma OtherLevel(m: Memory, up: Linked, x: nat, l: nat, i: nat, z: nat, r: Option<nat>)
    requires |up| == |m| && x < |m| && z < |m| && up[x] == l && i != l && IsNext(m, up, i, z, r)
    ensures IsNext(m, up[x := l + 1], i, z, r)
  {
  }

  lemma PublishedKeys(m: Memory, up: Linked, x: nat, l: nat, p: nat)
    requires Shape(m, up) && 0 < x < |m| && up[x] == l && p < |m| && l < |m[p].next|
    ensures Keys(SetNext(m, p, l, Some(x)), up[x := l + 1]) == Keys(m, up) + {m[x].key}
  {
    var m', up' := SetNext(m, p, l, Some(x)), up[x := l + 1];
    assert forall z :: 0 <= z < |m| ==> m'[z].key == m[z].key;
    forall k ensures k in Keys(m', up') <==> k in Keys(m, up) + {m[x].key} {
      if k in Keys(m, up) {
        var z :| 0 < z < |m| && up[z] > 0 && m[z].key == k;
        assert up'[z] > 0 && m'[z].key == k;
      }
      if k == m[x].key {
        assert up'[x] > 0 && m'[x].key == k;
      }
    }
  }

  /** A place on a higher level stays the place while lower levels are published. */
  lemma PlaceStays(m: Memory, up: Linked, x: nat, l: nat, p: nat, i: nat, q: nat)
    requires Shape(m, up) && 0 < x < |m| && up[x] == l < |m[x].next| && p < |m| && l < |m[p].next|
    requires i > l && IsPlace(m, up, i, q, m[x].key)
    ensures IsPlace(SetNext(m, p, l, Some(x)), up[x := l + 1], i, q, m[x].key)
  {
  }

  // ---------------------------------------------------------------------
  // A reader among the stores
  // ---------------------------------------------------------------------

  /** Having come as far as `x` on level `l`, all below the target. */
  ghost predicate OnTheWay(m: Memory, up: Linked, k: Key, x: nat, l: nat)
    requires |up| == |m|
  {
    x < |m| && l < up[x] && Below(m, x, k)
  }

  /** The last load decides: it shows the lower bound in the keys present at that moment. */
  lemma LastLoadIsLowerBound(m: Memory, up: Linked, k: Key, x: nat)
    requires Inv(m, up) && OnTheWay(m, up, k, x, 0)
    requires m[x].next[0].Some? ==> m[x].next[0].value < |m| && m[m[x].next[0].value].key >= k
    ensures IsLowerBound(m, up, k, m[x].next[0])
  {
    var r := m[x].next[0];
    assert IsNext(m, up, 0, x, r);
    forall q | q in Keys(m, up) ensures q < k || (r.Some? && m[r.value].key <= q) {
      var z :| 0 < z < |m| && up[z] > 0 && m[z].key == q;
      assert After(m, z, x) || q < k;
    }
  }

  /** The writer: idle, or putting in node `x`, linked so far on `level` levels. */
  datatype Writer = Resting | Linking(x: nat, place: seq<nat>, level: nat, prepared: bool)

  datatype Reader = Away | Searching(target: Key, x: nat, level: nat) | Found(target: Key, result: Option<nat>)

  datatype Shared = Shared(m: Memory, up: Linked, maxHeight: nat, writer: Writer, reader: Reader)

  /** The places `FindGreaterOrEqual` computed for the new key, one for each level of the new node. */
  ghost predicate Places(m: Memory, up: Linked, place: seq<nat>, from: nat, k: Key)
    requires |up| == |m|
  {
    forall l :: from <= l < |place| ==> IsPlace(m, up, l, place[l], k)
  }

  ghost predicate WriterOk(s: Shared)
    requires |s.up| == |s.m|
  {
    s.writer.Linking? ==>
      var x, l := s.writer.x, s.writer.level;
      && 0 < x < |s.m| && l < |s.writer.place| <= |s.m[x].next| && s.up[x] == l && KeyIsNew(s.m, s.up, x)
      && Places(s.m, s.up, s.writer.place, l, s.m[x].key)
      && (s.writer.prepared ==> s.m[x].next[l] == s.m[s.writer.place[l]].next[l])
  }

  ghost predicate ReaderOk(s: Shared)
    requires |s.up| == |s.m|
  {
    s.reader.Searching? ==> OnTheWay(s.m, s.up, s.reader.target, s.reader.x, s.reader.level)
  }

  ghost predicate SharedInv(s: Shared) {
    Inv(s.m, s.up) && 0 < s.maxHeight <= MAX_HEIGHT && WriterOk(s) && ReaderOk(s)
  }

  /** `Insert` raises the height if needed and allocates the node. */
  ghost predicate BeginInsert(s: Shared, s': Shared, k: Key, place: seq<nat>) {
    && s.writer.Resting? && 0 < |place| <= MAX_HEIGHT && |s.up| == |s.m| && k !in Keys(s.m, s.up)
    && Places(s.m, s.up, place, 0, k)
    && s' == s.(m := Alloc(s.m, k, |place|), up := s.up + [0], maxHeight := Max(s.maxHeight, |place|),
                writer := Linking(|s.m|, place, 0, false))
  }

  /** `NoBarrier_SetNext` on the new node. */
  ghost predicate Prepare(s: Shared, s': Shared) {
    && s.writer.Linking? && !s.writer.prepared && s.writer.x < |s.m| && s.writer.level < |s.writer.place|
    && var x, l := s.writer.x, s.writer.level;
       var p := s.writer.place[l];
       && p < |s.m| && l < |s.m[x].next| && l < |s.m[p].next|
       && s' == s.(m := SetNext(s.m, x, l, s.m[p].next[l]), writer := s.writer.(prepared := true))
  }

  /** `SetNext` on the node before it. */
  ghost predicate Publish(s: Shared, s': Shared) {
    && s.writer.Linking? && s.writer.prepared && s.writer.x < |s.m| == |s.up| && s.writer.level < |s.writer.place|
    && var x, l := s.writer.x, s.writer.level;
       var p := s.writer.place[l];
       && p < |s.m| && l < |s.m[p].next|
       && s' == s.(m := SetNext(s.m, p, l, Some(x)), up := s.up[x := l + 1],
                   writer := if l + 1 < |s.writer.place| then Linking(x, s.writer.place, l + 1, false) else Resting)
  }

  /** A search starts on the top level it knows of. */
  ghost predicate BeginSearch(s: Shared, s': Shared, k: Key, level: nat) {
    level < MAX_HEIGHT && s' == s.(reader := Searching(k, 0, level))
  }

  /** One load of a link, and the comparison it allows. */
  ghost predicate Load(s: Shared, s': Shared) {
    && s.reader.Searching? && s.reader.x < |s.m| && s.reader.level < |s.m[s.reader.x].next|
    && var k, x, l := s.reader.target, s.reader.x, s.reader.level;
       var next := s.m[x].next[l];
       s' == s.(reader :=
                  if next.Some? && next.value < |s.m| && s.m[next.value].key < k then Searching(k, next.value, l)
                  else if l > 0 then Searching(k, x, l - 1)
                  else Found(k, next))
  }

  datatype Step = StartInsert(k: Key, place: seq<nat>) | StoreOwn | StorePrev | StartSearch(k: Key, level: nat) | ReadLink

  ghost predicate Next(s: Shared, a: Step, s': Shared) {
    match a
    case StartInsert(k, place) => BeginInsert(s, s', k, place)
    case StoreOwn => Prepare(s, s')
    case StorePrev => Publish(s, s')
    case StartSearch(k, level) => BeginSearch(s, s', k, level)
    case ReadLink => Load(s, s')
  }

  lemma BeginInsertKeeps(s: Shared, s': Shared, k: Key, place: seq<nat>)
    requires SharedInv(s) && BeginInsert(s, s', k, place)
    ensures SharedInv(s') && Keys(s'.m, s'.up) == Keys(s.m, s.up)
  {
    AllocKeeps(s.m, s.up, k, |place|);
    var x := |s.m|;
    forall z | 0 < z < |s'.m| && z != x && s'.up[z] > 0 ensures s'.m[z].key != k {
      assert s.m[z].key in Keys(s.m, s.up);
    }
    forall l | 0 <= l < |place| ensures IsPlace(s'.m, s'.up, l, place[l], k) {
      assert IsPlace(s.m, s.up, l, place[l], k);
    }
  }

  lemma PrepareStepKeeps(s: Shared, s': Shared)
    requires SharedInv(s) && Prepare(s, s')
    ensures SharedInv(s') && Keys(s'.m, s'.up) == Keys(s.m, s.up)
  {
    var x, l := s.writer.x, s.writer.level;
    PrepareKeeps(s.m, s.up, x, l, s.m[s.writer.place[l]].next[l]);
    forall i | l <= i < |s.writer.place| ensures IsPlace(s'.m, s'.up, i, s.writer.place[i], s'.m[x].key) {
      assert IsPlace(s.m, s.up, i, s.writer.place[i], s.m[x].key);
    }
  }

  lemma PublishStepKeeps(s: Shared, s': Shared)
    requires SharedInv(s) && Publish(s, s')
    ensures SharedInv(s') && Keys(s'.m, s'.up) == Keys(s.m, s.up) + {s.m[s.writer.x].key}
  {
    hide Keys, IsPlace;
    var x, l := s.writer.x, s.writer.level;
    var p := s.writer.place[l];
    assert IsPlace(s.m, s.up, l, p, s.m[x].key);
    PublishKeeps(s.m, s.up, x, l, p);
    forall i | l + 1 <= i < |s.writer.place| ensures IsPlace(s'.m, s'.up, i, s.writer.place[i], s'.m[x].key) {
      PlaceStays(s.m, s.up, x, l, p, i, s.writer.place[i]);
    }
  }

  lemma LoadKeeps(s: Shared, s': Shared)
    requires SharedInv(s) && Load(s, s')
    ensures SharedInv(s')
    ensures s'.reader.Found? ==> IsLowerBound(s.m, s.up, s'.reader.target, s'.reader.result)
  {
    var k, x, l := s.reader.target, s.reader.x, s.reader.level;
    assert IsNext(s.m, s.up, l, x, s.m[x].next[l]);
    if s'.reader.Found? {
      LastLoadIsLowerBound(s.m, s.up, k, x);
    }
  }

  lemma NextKeeps(s: Shared, a: Step, s': Shared)
    requires SharedInv(s) && Next(s, a, s')
    ensures SharedInv(s')
  {
    match a
    case StartInsert(k, place) => BeginInsertKeeps(s, s', k, place);
    case StoreOwn => PrepareStepKeeps(s, s');
    case StorePrev => PublishStepKeeps(s, s');
    case StartSearch(k, level) =>
    case ReadLink => LoadKeeps(s, s');
  }

  function EmptyMemory(): Memory {
    [Node(0.0, seq(MAX_HEIGHT, i => None))]
  }

  ghost predicate IsRun(states: seq<Shared>, steps: seq<Step>) {
    && |states| == |steps| + 1 && states[0] == Shared(EmptyMemory(), [MAX_HEIGHT], 1, Resting, Away)
    && forall i :: 0 <= i < |steps| ==> Next(states[i], steps[i], states[i + 1])
  }

  lemma {:induction false} RunKeeps(states: seq<Shared>, steps: seq<Step>, n: nat)
    requires IsRun(states, steps) && n < |states|
    ensures SharedInv(states[n])
  {
    if n > 0 {
      RunKeeps(states, steps, n - 1);
      NextKeeps(states[n - 1], steps[n - 1], states[n]);
    }
  }

  /**
   However loads and stores interleave, a search that ends with a load at step
   `n` returns the lower bound among the keys present at that very moment.
   */
  lemma SearchIsExact(states: seq<Shared>, steps: seq<Step>, n: nat)
    requires IsRun(states, steps) && n < |steps| && steps[n].ReadLink? && states[n + 1].reader.Found?
    ensures |states[n].up| == |states[n].m|
    ensures IsLowerBound(states[n].m, states[n].up, states[n + 1].reader.target, states[n + 1].reader.result)
  {
    RunKeeps(states, steps, n);
    assert Next(states[n], steps[n], states[n + 1]);
    LoadKeeps(states[n], states[n + 1]);
  }
}
