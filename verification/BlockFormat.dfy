/**
 Bytes of an sstable block: entries with shared key prefixes, then an array of
 restart offsets.  Keys are compared through `Rank`: any order a comparator
 can define on byte strings is the order of some real-valued rank, since there
 are only countably many byte strings.
 */
module BlockFormat {
  import opened Basics
  import opened Coding

  datatype KV = KV(key: Bytes, value: Bytes)

  type Rank = Bytes -> real

  ghost predicate Increasing(rank: Rank, es: seq<KV>) {
    forall i, j :: 0 <= i < j < |es| ==> rank(es[i].key) < rank(es[j].key)
  }

  function EntryBytes(shared: nat, e: KV): (b: Bytes)
    requires shared <= |e.key|
    ensures |b| >= 3
  {
    Varint(shared) + (Varint(|e.key| - shared) + (Varint(|e.value|) + (e.key[shared..] + e.value)))
  }

  /** Where entry `i` starts, how much of its key it shares, and which entries are restart points. */
  datatype Layout = Layout(es: seq<KV>, offs: seq<nat>, shared: seq<nat>, idx: seq<nat>)

  ghost predicate Shapely(lay: Layout) {
    |lay.offs| == |lay.es| + 1 && |lay.shared| == |lay.es| && lay.offs[0] == 0
  }

  ghost predicate SharesPrefix(lay: Layout, i: nat)
    requires Shapely(lay) && i < |lay.es|
  {
    && lay.shared[i] <= |lay.es[i].key| < TWO32 && |lay.es[i].value| < TWO32
    && (i == 0 ==> lay.shared[i] == 0)
    && (i > 0 ==> lay.shared[i] <= |lay.es[i - 1].key| && lay.es[i - 1].key[..lay.shared[i]] == lay.es[i].key[..lay.shared[i]])
  }

  ghost predicate EntryAt(region: Bytes, lay: Layout, i: nat)
    requires Shapely(lay) && i < |lay.es|
  {
    && SharesPrefix(lay, i)
    && At(region, lay.offs[i], EntryBytes(lay.shared[i], lay.es[i]))
    && lay.offs[i + 1] == lay.offs[i] + |EntryBytes(lay.shared[i], lay.es[i])|
  }

  /** The entries of the layout, one after the other, are the whole region. */
  ghost predicate Body(region: Bytes, lay: Layout) {
    && Shapely(lay) && lay.offs[|lay.es|] == |region|
    && forall i :: 0 <= i < |lay.es| ==> EntryAt(region, lay, i)
  }

  /** Restart point `k` is an entry whose key is stored whole; `at` is its offset. */
  ghost predicate RestartAt(lay: Layout, k: nat, at: nat)
    requires Shapely(lay) && k < |lay.idx|
  {
    var i := lay.idx[k];
    i <= |lay.es| && at == lay.offs[i] && (i < |lay.es| ==> lay.shared[i] == 0) && (k > 0 ==> i < |lay.es|)
  }

  ghost predicate Ascending(s: seq<nat>) {
    forall j, k :: 0 <= j < k < |s| ==> s[j] < s[k]
  }

  /** Restart points start at the first entry and ascend. */
  ghost predicate RestartsOk(lay: Layout, points: seq<nat>)
    requires Shapely(lay)
  {
    && |points| == |lay.idx| > 0 && lay.idx[0] == 0 && Ascending(lay.idx)
    && forall k :: 0 <= k < |points| ==> RestartAt(lay, k, points[k])
  }

  // ---------------------------------------------------------------------
  // The restart array
  // ---------------------------------------------------------------------

  function Join(words: seq<Four>): (b: Bytes)
    ensures |b| == 4 * |words|
  {
    if words == [] then [] else Join(words[..|words| - 1]) + words[|words| - 1]
  }

  lemma {:induction false} JoinAt(s: Bytes, p: nat, words: seq<Four>, k: nat)
    requires At(s, p, Join(words)) && k < |words|
    ensures At(s, p + 4 * k, words[k])
  {
    var n := |words| - 1;
    AtAppend(s, p, Join(words[..n]), words[n]);
    if k < n {
      JoinAt(s, p, words[..n], k);
    }
  }

  ghost predicate Encodes(words: seq<Four>, points: seq<nat>) {
    |words| == |points| && forall k :: 0 <= k < |points| ==> IsWord(words, points, k)
  }

  ghost predicate IsWord(words: seq<Four>, points: seq<nat>, k: nat)
    requires k < |words| && k < |points|
  {
    words[k] == EncodeFixed(points[k], 4)
  }

  /** Word `k` of an array that stands at `p`. */
  lemma ArrayReads(s: Bytes, p: nat, words: seq<Four>, points: seq<nat>, k: nat)
    requires At(s, p, Join(words)) && Encodes(words, points) && k < |points| && points[k] < TWO32
    ensures p + 4 * k + 4 <= |s| && DecodeFixed(s, p + 4 * k, 4) == points[k]
  {
    JoinAt(s, p, words, k);
    assert IsWord(words, points, k);
    WordReads(s, p + 4 * k, words[k], points[k]);
  }

  /** One more word at the end. */
  lemma EncodesSnoc(words: seq<Four>, points: seq<nat>, word: Four, v: nat)
    requires Encodes(words, points) && word == EncodeFixed(v, 4)
    ensures Encodes(words + [word], points + [v])
  {
    forall k | 0 <= k < |points| + 1 ensures IsWord(words + [word], points + [v], k) {
      if k < |points| {
        assert IsWord(words, points, k);
      }
    }
  }

  lemma WordReads(s: Bytes, p: nat, word: Four, v: nat)
    requires At(s, p, word) && word == EncodeFixed(v, 4) && v < TWO32
    ensures p + 4 <= |s| && DecodeFixed(s, p, 4) == v
  {
    FixedWidths();
    FixedRoundTrip(s, p, v, 4);
  }

  /** A finished block: entries, restart offsets, and their number. */
  ghost predicate IsBlock(data: Bytes, region: Bytes, lay: Layout, points: seq<nat>, words: seq<Four>) {
    && Body(region, lay) && RestartsOk(lay, points) && Encodes(words, points)
    && |region| < TWO32 && |points| < TWO32
    && data == region + (Join(words) + EncodeFixed(|points|, 4))
  }

  // ---------------------------------------------------------------------
  // Decoding one entry
  // ---------------------------------------------------------------------

  /** The three lengths of an entry and where its key delta starts. */
  datatype EntryHead = EntryHead(shared: nat, nonShared: nat, valueLength: nat, next: nat)

  /**
   `DecodeEntry`: a fast path for three one-byte lengths, else three varints.
   The check that key delta and value fit adds their lengths in 32 bits;
   `HeadInside` says what that is worth.
   */
  function DecodeEntry(region: Bytes, p: nat): (r: Option<EntryHead>)
    ensures r.Some? ==> p < r.value.next <= |region| && Lengths(r.value) % TWO32 <= |region| - r.value.next
  {
    if |region| < p + 3 then None
    else if region[p] < 128 && region[p + 1] < 128 && region[p + 2] < 128 then
      CheckHead(region, region[p], region[p + 1], region[p + 2], p + 3)
    else
      var a := VarintAt(region, p, W32);
      if a.None? then None
      else
        var b := VarintAt(region, a.value.1, W32);
        if b.None? then None
        else
          var c := VarintAt(region, b.value.1, W32);
          if c.None? then None else CheckHead(region, a.value.0, b.value.0, c.value.0, c.value.1)
  }

  function Lengths(h: EntryHead): nat {
    h.nonShared + h.valueLength
  }

  function CheckHead(region: Bytes, shared: nat, nonShared: nat, valueLength: nat, next: nat): (r: Option<EntryHead>)
    requires next <= |region|
    ensures r.Some? ==> r.value == EntryHead(shared, nonShared, valueLength, next)
    ensures r.Some? ==> Lengths(r.value) % TWO32 <= |region| - next
  {
    if |region| - next < (nonShared + valueLength) % TWO32 then None else Some(EntryHead(shared, nonShared, valueLength, next))
  }

  /** The key delta and the value of a head lie inside the region. */
  predicate Inside(region: Bytes, h: EntryHead) {
    h.next + Lengths(h) <= |region|
  }

  /** The exact condition: what an accepted head describes is inside if and only if the sum of the lengths fits 32 bits. */
  lemma HeadInside(region: Bytes, p: nat)
    requires |region| < TWO32 && DecodeEntry(region, p).Some?
    ensures Inside(region, DecodeEntry(region, p).value) <==> Lengths(DecodeEntry(region, p).value) < TWO32
  {
  }

  /** Shared length 0, key delta of 0xffffffff bytes, value of one byte; nothing after them. */
  const STRAY: Bytes := [0, 0xff, 0xff, 0xff, 0xff, 0x0f, 1]

  /** It is accepted, although there is neither key nor value. */
  lemma StrayIsAccepted()
    ensures DecodeEntry(STRAY, 0) == Some(EntryHead(0, 0xffff_ffff, 1, 7))
    ensures !Inside(STRAY, EntryHead(0, 0xffff_ffff, 1, 7))
  {
    assert Varint(0x0f) == [0x0f] && Varint(0x7ff) == [0xff, 0x0f] && Varint(0x3_ffff) == [0xff, 0xff, 0x0f];
    assert Varint(0x1ff_ffff) == [0xff, 0xff, 0xff, 0x0f];
    assert Varint(0xffff_ffff) == [0xff, 0xff, 0xff, 0xff, 0x0f];
    assert Varint(0) == [0] && Varint(1) == [1];
    assert At(STRAY, 0, Varint(0)) && At(STRAY, 1, Varint(0xffff_ffff)) && At(STRAY, 6, Varint(1));
    Varint32RoundTrip(STRAY, 0, 0);
    Varint32RoundTrip(STRAY, 1, 0xffff_ffff);
    Varint32RoundTrip(STRAY, 6, 1);
  }

  /** Nowhere in the region does a head describe more than is there. */
  ghost predicate NoneStray(region: Bytes) {
    forall p: nat :: DecodeEntry(region, p).Some? ==> Inside(region, DecodeEntry(region, p).value)
  }

  lemma OneByte(s: Bytes, p: nat, v: nat)
    requires v < TWO32 && At(s, p, Varint(v))
    ensures p < |s| && (s[p] < 128 <==> v < 128) && (v < 128 ==> s[p] == v && |Varint(v)| == 1)
  {
    assert s[p + 0] == Varint(v)[0];
  }

  lemma AtParts(s: Bytes, p: nat, a: Bytes, b: Bytes, c: Bytes, rest: Bytes)
    requires At(s, p, a + (b + (c + rest)))
    ensures At(s, p, a) && At(s, p + |a|, b) && At(s, p + |a| + |b|, c) && At(s, p + |a| + |b| + |c|, rest)
  {
    AtAppend(s, p, a, b + (c + rest));
    AtAppend(s, p + |a|, b, c + rest);
    AtAppend(s, p + |a| + |b|, c, rest);
  }

  /** A varint starting with a byte below 128 is that byte. */
  lemma ShortVarint(s: Bytes, p: nat, v: nat, q: nat)
    requires v < TWO32 && At(s, p, Varint(v)) && q == p + |Varint(v)|
    ensures p < |s| && VarintAt(s, p, W32) == Some((v, q)) && (s[p] < 128 ==> v == s[p] && q == p + 1)
  {
    OneByte(s, p, v);
    Varint32RoundTrip(s, p, v);
  }

  /** Both paths of `DecodeEntry` agree on what three varints say. */
  lemma HeadOnEitherPath(s: Bytes, p: nat, a: nat, b: nat, c: nat, p1: nat, p2: nat, p3: nat)
    requires p < p1 < p2 < p3 && p2 < |s| && p3 + b + c <= |s|
    requires VarintAt(s, p, W32) == Some((a, p1)) && VarintAt(s, p1, W32) == Some((b, p2)) && VarintAt(s, p2, W32) == Some((c, p3))
    requires s[p] < 128 ==> a == s[p] && p1 == p + 1
    requires s[p1] < 128 ==> b == s[p1] && p2 == p1 + 1
    requires s[p2] < 128 ==> c == s[p2] && p3 == p2 + 1
    ensures DecodeEntry(s, p) == Some(EntryHead(a, b, c, p3))
  {
  }

  /** Three varints in a row are read on either path. */
  lemma DecodesHead(s: Bytes, p: nat, a: nat, b: nat, c: nat, p1: nat, p2: nat, p3: nat)
    requires a < TWO32 && b < TWO32 && c < TWO32
    requires At(s, p, Varint(a)) && At(s, p1, Varint(b)) && At(s, p2, Varint(c))
    requires p1 == p + |Varint(a)| && p2 == p1 + |Varint(b)| && p3 == p2 + |Varint(c)| && p3 + b + c <= |s|
    ensures DecodeEntry(s, p) == Some(EntryHead(a, b, c, p3))
  {
    ShortVarint(s, p, a, p1);
    ShortVarint(s, p1, b, p2);
    ShortVarint(s, p2, c, p3);
    HeadOnEitherPath(s, p, a, b, c, p1, p2, p3);
  }

  /** What `ParseNextKey` makes of an entry, given the key before it. */
  function NextKey(region: Bytes, p: nat, last: Bytes): Option<(Bytes, nat, nat)>
    requires DecodeEntry(region, p).Some? ==> Inside(region, DecodeEntry(region, p).value)
  {
    var h := DecodeEntry(region, p);
    if h.None? || |last| < h.value.shared then None
    else
      var value := h.value.next + h.value.nonShared;
      Some((last[..h.value.shared] + region[h.value.next..value], value, h.value.valueLength))
  }

  /** From the previous key, or any key if nothing is shared, an entry is read back whole. */
  lemma ReadsEntry(region: Bytes, lay: Layout, i: nat, last: Bytes)
    requires Shapely(lay) && i < |lay.es| && EntryAt(region, lay, i)
    requires lay.shared[i] == 0 || (i > 0 && last == lay.es[i - 1].key)
    ensures var h := DecodeEntry(region, lay.offs[i]); h.Some? && Inside(region, h.value)
    ensures var e := lay.es[i];
            var r := NextKey(region, lay.offs[i], last);
            && r.Some? && r.value.0 == e.key && r.value.2 == |e.value| && r.value.1 + r.value.2 == lay.offs[i + 1] <= |region|
            && region[r.value.1..r.value.1 + r.value.2] == e.value
  {
    var e, sh := lay.es[i], lay.shared[i];
    var next := EntryParts(region, lay.offs[i], sh, e);
    assert e.key == e.key[..sh] + e.key[sh..];
  }

  lemma EntryParts(region: Bytes, p: nat, sh: nat, e: KV) returns (next: nat)
    requires sh <= |e.key| < TWO32 && |e.value| < TWO32 && At(region, p, EntryBytes(sh, e))
    ensures next + |e.key| - sh + |e.value| == p + |EntryBytes(sh, e)| <= |region|
    ensures DecodeEntry(region, p) == Some(EntryHead(sh, |e.key| - sh, |e.value|, next))
    ensures region[next..next + |e.key| - sh] == e.key[sh..]
    ensures region[next + |e.key| - sh..next + |e.key| - sh + |e.value|] == e.value
  {
    hide At, DecodeEntry, Varint;
    var x, y, z, delta := Varint(sh), Varint(|e.key| - sh), Varint(|e.value|), e.key[sh..];
    next := p + |x| + |y| + |z|;
    AtParts(region, p, x, y, z, delta + e.value);
    AtAppend(region, next, delta, e.value);
    DecodesHead(region, p, sh, |delta|, |e.value|, p + |x|, p + |x| + |y|, next);
    SlicesAt(region, next, delta, e.value);
  }

  lemma SlicesAt(s: Bytes, p: nat, a: Bytes, b: Bytes)
    requires At(s, p, a) && At(s, p + |a|, b)
    ensures s[p..p + |a|] == a && s[p + |a|..p + |a| + |b|] == b
  {
  }
}
