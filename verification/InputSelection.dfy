/**
 Which files a compaction reads: overlap queries, boundary files, and the
 two-level selection of `VersionSet::SetupOtherInputs`.
 */
module InputSelection {
  import opened Basics
  import opened DbFormat
  import opened Version

  // ---------------------------------------------------------------------
  // User-key ranges; an absent bound is unbounded on that side
  // ---------------------------------------------------------------------

  predicate AfterFile(u: Option<UserKey>, f: FileMeta) {
    u.Some? && u.value > f.largest.user
  }

  predicate BeforeFile(u: Option<UserKey>, f: FileMeta) {
    u.Some? && u.value < f.smallest.user
  }

  predicate Overlaps(f: FileMeta, lo: Option<UserKey>, hi: Option<UserKey>) {
    !AfterFile(lo, f) && !BeforeFile(hi, f)
  }

  ghost predicate SomeOverlap(files: seq<FileMeta>, lo: Option<UserKey>, hi: Option<UserKey>) {
    exists f :: f in files && Overlaps(f, lo, hi)
  }

  /** Those of the first `n` files that meet a range, in level order. */
  function OverlappingTo(files: seq<FileMeta>, n: nat, lo: Option<UserKey>, hi: Option<UserKey>): seq<FileMeta>
    requires n <= |files|
  {
    if n == 0 then []
    else OverlappingTo(files, n - 1, lo, hi) + if Overlaps(files[n - 1], lo, hi) then [files[n - 1]] else []
  }

  lemma {:induction false} OverlappingToMembers(files: seq<FileMeta>, n: nat, lo: Option<UserKey>, hi: Option<UserKey>)
    requires n <= |files|
    ensures forall f :: f in OverlappingTo(files, n, lo, hi) <==> f in files[..n] && Overlaps(f, lo, hi)
  {
    if n > 0 {
      OverlappingToMembers(files, n - 1, lo, hi);
      assert files[..n] == files[..n - 1] + [files[n - 1]];
    }
  }

  /** The files of a level that meet a range, in level order. */
  function OverlappingFiles(files: seq<FileMeta>, lo: Option<UserKey>, hi: Option<UserKey>): (r: seq<FileMeta>)
    ensures forall f :: f in r <==> f in files && Overlaps(f, lo, hi)
  {
    OverlappingToMembers(files, |files|, lo, hi);
    assert files[..|files|] == files;
    OverlappingTo(files, |files|, lo, hi)
  }

  method SomeFileOverlapsRange(disjointSorted: bool, files: seq<FileMeta>, lo: Option<UserKey>, hi: Option<UserKey>)
    returns (r: bool)
    requires ValidFiles(files) && (disjointSorted ==> SortedDisjoint(files))
    ensures r <==> SomeOverlap(files, lo, hi)
  {
    if !disjointSorted {
      for i := 0 to |files|
        invariant forall k :: 0 <= k < i ==> !Overlaps(files[k], lo, hi)
      {
        if !(AfterFile(lo, files[i]) || BeforeFile(hi, files[i])) {
          assert files[i] in files;
          return true;
        }
      }
      return false;
    }
    var index := 0;
    if lo.Some? {
      index := FindFile(files, SeekKey(lo.value, MAX_SEQUENCE));
      FirstAtOrAfter(files, index, lo.value);
    }
    if index >= |files| {
      return false;
    }
    assert files[index] in files;
    SmallestMonotone(files, index);
    return !BeforeFile(hi, files[index]);
  }

  lemma FirstAtOrAfter(files: seq<FileMeta>, index: nat, u: UserKey)
    requires ValidFiles(files) && index <= |files|
    requires forall i :: 0 <= i < index ==> Less(files[i].largest, SeekKey(u, MAX_SEQUENCE))
    requires forall i :: index <= i < |files| ==> !Less(files[i].largest, SeekKey(u, MAX_SEQUENCE))
    ensures forall i :: 0 <= i < |files| ==> (i < index <==> AfterFile(Some(u), files[i]))
  {
    forall i | 0 <= i < |files| ensures files[i].largest.sequence <= MAX_SEQUENCE {
      assert files[i] in files;
    }
  }

  lemma SmallestMonotone(files: seq<FileMeta>, m: nat)
    requires ValidFiles(files) && SortedDisjoint(files) && m < |files|
    ensures forall i :: m <= i < |files| ==> files[m].smallest.user <= files[i].smallest.user
    ensures forall i :: 0 <= i <= m ==> files[i].largest.user <= files[m].largest.user
    ensures files[m].smallest.user <= files[m].largest.user
  {
    forall i | 0 <= i < |files| ensures AtMost(files[i].smallest, files[i].largest) {
      assert files[i] in files;
      FileBounds(files[i], files[i].entries[0]);
    }
  }

  // ---------------------------------------------------------------------
  // GetOverlappingInputs
  // ---------------------------------------------------------------------

  /** Every file the range touches lies inside the range. */
  ghost predicate ClosedRange(files: seq<FileMeta>, lo: Option<UserKey>, hi: Option<UserKey>) {
    forall f :: f in files && Overlaps(f, lo, hi) ==> Inside(f, lo, hi)
  }

  /** The range (lo', hi') contains (lo, hi), with the same sides bounded. */
  ghost predicate Contains(lo': Option<UserKey>, hi': Option<UserKey>, lo: Option<UserKey>, hi: Option<UserKey>) {
    && lo'.Some? == lo.Some? && (lo.Some? ==> lo'.value <= lo.value)
    && hi'.Some? == hi.Some? && (hi.Some? ==> hi.value <= hi'.value)
  }

  /** (lo', hi') is the least closed range containing the request (lo, hi). */
  ghost predicate LeastClosed(files: seq<FileMeta>, lo: Option<UserKey>, hi: Option<UserKey>,
                              lo': Option<UserKey>, hi': Option<UserKey>) {
    && ClosedRange(files, lo', hi')
    && Contains(lo', hi', lo, hi)
    && ForcedRange(files, lo, hi, lo', hi')
  }

  ghost function StartingBelow(files: seq<FileMeta>, lo: Option<UserKey>): set<FileMeta> {
    set f | f in files && lo.Some? && f.smallest.user < lo.value
  }

  ghost function EndingAbove(files: seq<FileMeta>, hi: Option<UserKey>): set<FileMeta> {
    set f | f in files && hi.Some? && f.largest.user > hi.value
  }

  /** Every closed range around the request also contains (a, b). */
  ghost predicate ForcedRange(files: seq<FileMeta>, lo: Option<UserKey>, hi: Option<UserKey>,
                              a: Option<UserKey>, b: Option<UserKey>) {
    forall x, y :: ClosedRange(files, x, y) && Contains(x, y, lo, hi) ==> Contains(x, y, a, b)
  }

  lemma WidenLow(files: seq<FileMeta>, lo: Option<UserKey>, hi: Option<UserKey>,
                 a: Option<UserKey>, b: Option<UserKey>, f: FileMeta)
    requires ForcedRange(files, lo, hi, a, b) && f in files && Overlaps(f, a, b)
    requires a.Some? && f.smallest.user < a.value && f.smallest.user <= f.largest.user
    ensures ForcedRange(files, lo, hi, Some(f.smallest.user), b)
    ensures StartingBelow(files, Some(f.smallest.user)) < StartingBelow(files, a)
  {
    assert f in StartingBelow(files, a) && f !in StartingBelow(files, Some(f.smallest.user));
  }

  lemma WidenHigh(files: seq<FileMeta>, lo: Option<UserKey>, hi: Option<UserKey>,
                  a: Option<UserKey>, b: Option<UserKey>, f: FileMeta)
    requires ForcedRange(files, lo, hi, a, b) && f in files && Overlaps(f, a, b)
    requires b.Some? && f.largest.user > b.value && f.smallest.user <= f.largest.user
    ensures ForcedRange(files, lo, hi, a, Some(f.largest.user))
    ensures EndingAbove(files, Some(f.largest.user)) < EndingAbove(files, b)
  {
    assert f in EndingAbove(files, b) && f !in EndingAbove(files, Some(f.largest.user));
  }

  ghost predicate Inside(f: FileMeta, lo: Option<UserKey>, hi: Option<UserKey>) {
    (lo.Some? ==> lo.value <= f.smallest.user) && (hi.Some? ==> f.largest.user <= hi.value)
  }

  // ---------------------------------------------------------------------
  // Files without gaps between them
  // ---------------------------------------------------------------------

  ghost predicate Touched(files: seq<FileMeta>, u: UserKey) {
    exists f :: f in files && f.smallest.user <= u <= f.largest.user
  }

  ghost predicate Covered(files: seq<FileMeta>, lo: UserKey, hi: UserKey) {
    forall u :: lo <= u <= hi ==> Touched(files, u)
  }

  /** Between the start of one file and the end of another every key lies in the range of some file. */
  ghost predicate Connected(files: seq<FileMeta>) {
    forall f, g :: f in files && g in files ==> Covered(files, f.smallest.user, g.largest.user)
  }

  lemma Upright(files: seq<FileMeta>)
    requires ValidFiles(files)
    ensures forall f :: f in files ==> f.smallest.user <= f.largest.user
  {
    forall f | f in files ensures f.smallest.user <= f.largest.user {
      FileBounds(f, f.entries[0]);
    }
  }

  lemma ConnectedFrom(files: seq<FileMeta>, lo: UserKey, hi: UserKey)
    requires Covered(files, lo, hi) && forall f :: f in files ==> Overlaps(f, Some(lo), Some(hi))
    ensures Connected(files)
  {
    forall f, g, u | f in files && g in files && f.smallest.user <= u <= g.largest.user ensures Touched(files, u) {
      if u < lo {
        assert f.smallest.user <= u <= f.largest.user;
      } else if u > hi {
        assert g.smallest.user <= u <= g.largest.user;
      }
    }
  }

  lemma ConnectedGrows(files: seq<FileMeta>, f: FileMeta, others: seq<FileMeta>, u: UserKey)
    requires Connected(files + others) && Touched(files + others, u) && f.smallest.user <= u <= f.largest.user
    ensures Connected(files + [f] + others)
  {
    var all, more := files + others, files + [f] + others;
    assert forall g :: g in more <==> g in all || g == f;
    var h :| h in all && h.smallest.user <= u <= h.largest.user;
    forall a, b, x | a in more && b in more && a.smallest.user <= x <= b.largest.user ensures Touched(more, x) {
      if f.smallest.user <= x <= f.largest.user {
        assert f in more;
      } else {
        var a' := if x > f.largest.user && a == f then h else a;
        var b' := if x < f.smallest.user && b == f then h else b;
        assert Covered(all, a'.smallest.user, b'.largest.user);
        assert Touched(all, x);
      }
    }
  }

  lemma CoveredByMore(files: seq<FileMeta>, more: seq<FileMeta>, lo: UserKey, hi: UserKey)
    requires Covered(files, lo, hi) && forall f :: f in files ==> f in more
    ensures Covered(more, lo, hi)
  {
    forall u | lo <= u <= hi ensures Touched(more, u) {
      assert Touched(files, u);
    }
  }

  /** Widened from (lo, hi) to (lo', hi'), the range takes in only keys that some file touches. */
  ghost predicate Stretched(files: seq<FileMeta>, lo: Option<UserKey>, hi: Option<UserKey>,
                            lo': Option<UserKey>, hi': Option<UserKey>) {
    && (lo.Some? && lo'.Some? ==> forall u :: lo'.value <= u < lo.value ==> Touched(files, u))
    && (hi.Some? && hi'.Some? ==> forall u :: hi.value < u <= hi'.value ==> Touched(files, u))
  }

  /** Level zero restarts whenever an overlapping file widens the range. */
  method GetOverlappingInputs(level: nat, files: seq<FileMeta>, lo: Option<UserKey>, hi: Option<UserKey>)
    returns (inputs: seq<FileMeta>, ghost lo': Option<UserKey>, ghost hi': Option<UserKey>)
    requires ValidFiles(files)
    ensures inputs == OverlappingFiles(files, lo', hi')
    ensures level > 0 ==> lo' == lo && hi' == hi
    ensures level == 0 ==> LeastClosed(files, lo, hi, lo', hi')
    ensures Contains(lo', hi', lo, hi) && Stretched(files, lo, hi, lo', hi')
  {
    var userLo, userHi := lo, hi;
    inputs := [];
    var i := 0;
    while i < |files|
      invariant 0 <= i <= |files|
      invariant inputs == OverlappingTo(files, i, userLo, userHi)
      invariant level > 0 ==> userLo == lo && userHi == hi
      invariant Contains(userLo, userHi, lo, hi) && ForcedRange(files, lo, hi, userLo, userHi)
      invariant Stretched(files, lo, hi, userLo, userHi)
      invariant level == 0 ==> forall k :: 0 <= k < i && Overlaps(files[k], userLo, userHi) ==> Inside(files[k], userLo, userHi)
      decreases StartingBelow(files, userLo), EndingAbove(files, userHi), |files| - i
    {
      var f := files[i];
      assert ValidFile(f);
      FileBounds(f, f.entries[0]);
      i := i + 1;
      if userLo.Some? && f.largest.user < userLo.value {
      } else if userHi.Some? && f.smallest.user > userHi.value {
      } else {
        inputs := inputs + [f];
        if level == 0 {
          if userLo.Some? && f.smallest.user < userLo.value {
            WidenLow(files, lo, hi, userLo, userHi, f);
            userLo := Some(f.smallest.user);
            inputs := [];
            i := 0;
          } else if userHi.Some? && f.largest.user > userHi.value {
            WidenHigh(files, lo, hi, userLo, userHi, f);
            userHi := Some(f.largest.user);
            inputs := [];
            i := 0;
          }
        }
      }
    }
    lo', hi' := userLo, userHi;
  }

  // ---------------------------------------------------------------------
  // Boundary files
  // ---------------------------------------------------------------------

  ghost predicate IsLargestKey(files: seq<FileMeta>, k: InternalKey) {
    (exists f :: f in files && f.largest == k) && forall f :: f in files ==> AtMost(f.largest, k)
  }

  method FindLargestKey(files: seq<FileMeta>) returns (largest: InternalKey)
    requires files != []
    ensures IsLargestKey(files, largest)
  {
    largest := files[0].largest;
    for i := 1 to |files|
      invariant exists f :: f in files && f.largest == largest
      invariant forall k :: 0 <= k < i ==> AtMost(files[k].largest, largest)
    {
      if Less(largest, files[i].largest) {
        largest := files[i].largest;
      }
    }
  }

  /** `f` continues the user key of `k` in a later part of the level. */
  predicate IsBoundary(f: FileMeta, k: InternalKey) {
    Less(k, f.smallest) && f.smallest.user == k.user
  }

  ghost predicate NoBoundary(files: seq<FileMeta>, k: InternalKey) {
    forall f :: f in files ==> !IsBoundary(f, k)
  }

  method FindSmallestBoundaryFile(files: seq<FileMeta>, k: InternalKey) returns (r: Option<FileMeta>)
    ensures r.None? ==> NoBoundary(files, k)
    ensures r.Some? ==> r.value in files && IsBoundary(r.value, k)
    ensures r.Some? ==> forall f :: f in files && IsBoundary(f, k) ==> AtMost(r.value.smallest, f.smallest)
  {
    r := None;
    for i := 0 to |files|
      invariant r.None? ==> forall j :: 0 <= j < i ==> !IsBoundary(files[j], k)
      invariant r.Some? ==> r.value in files && IsBoundary(r.value, k)
      invariant r.Some? ==> forall j :: 0 <= j < i && IsBoundary(files[j], k) ==> AtMost(r.value.smallest, files[j].smallest)
    {
      if IsBoundary(files[i], k) {
        if r.None? || Less(files[i].smallest, r.value.smallest) {
          r := Some(files[i]);
        }
      }
    }
  }

  ghost function StartingAfter(files: seq<FileMeta>, k: InternalKey): set<FileMeta> {
    set f | f in files && Less(k, f.smallest)
  }

  ghost predicate NoDuplicates(files: seq<FileMeta>) {
    forall i, j :: 0 <= i < j < |files| ==> files[i] != files[j]
  }

  ghost predicate SliceAt(files: seq<FileMeta>, part: seq<FileMeta>, a: nat, b: nat) {
    a < b <= |files| && forall i :: 0 <= i < |files| ==> (files[i] in part <==> a <= i < b)
  }

  /** `part` holds a non-empty run of consecutive files of the level. */
  ghost predicate IsSlice(files: seq<FileMeta>, part: seq<FileMeta>) {
    exists a: nat, b: nat :: SliceAt(files, part, a, b)
  }

  /**
   Extends a selection until no file of the level continues its largest user key.
   Together with the files beside it (`others`) it stays without gaps.
   */
  method AddBoundaryInputs(files: seq<FileMeta>, inputs: seq<FileMeta>, ghost others: seq<FileMeta>) returns (r: seq<FileMeta>)
    requires ValidFiles(files) && forall f :: f in inputs ==> f in files
    ensures inputs == [] ==> r == []
    ensures inputs <= r
    ensures forall f :: f in r ==> f in files
    ensures inputs != [] ==> exists k :: IsLargestKey(r, k) && NoBoundary(files, k)
    ensures forall k :: inputs != [] && IsLargestKey(inputs, k) && NoBoundary(files, k) ==> r == inputs
    ensures SortedDisjoint(files) && IsSlice(files, inputs) ==> IsSlice(files, r)
    ensures NoDuplicates(inputs) ==> NoDuplicates(r)
    ensures Connected(inputs + others) ==> Connected(r + others)
  {
    hide Connected, NoDuplicates, SliceAt, IsLargestKey;
    r := inputs;
    if inputs == [] {
      return;
    }
    var largest := FindLargestKey(r);
    ghost var first := largest;
    var searching := true;
    ghost var sliced := SortedDisjoint(files) && IsSlice(files, inputs);
    ghost var a: nat, b: nat := 0, 0;
    if sliced {
      a, b :| SliceAt(files, inputs, a, b);
    }
    while searching
      invariant inputs <= r
      invariant forall f :: f in r ==> f in files
      invariant IsLargestKey(r, largest)
      invariant !searching ==> NoBoundary(files, largest)
      invariant r == inputs || !NoBoundary(files, first)
      invariant sliced ==> SliceAt(files, r, a, b)
      invariant NoDuplicates(inputs) ==> NoDuplicates(r)
      invariant Connected(inputs + others) ==> Connected(r + others)
      decreases StartingAfter(files, largest), searching
    {
      var next := FindSmallestBoundaryFile(files, largest);
      if next.Some? {
        var f := next.value;
        if r == inputs { LargestKeyUnique(inputs, largest, first); }
        BoundaryStep(files, r, largest, f);
        if Connected(r + others) { BoundaryConnected(files, r, largest, f, others); }
        if sliced {
          SliceExtends(files, r, a, b, largest, f);
          b := b + 1;
        }
        r := r + [f];
        largest := f.largest;
      } else {
        searching := false;
      }
    }
    forall k | IsLargestKey(inputs, k) && NoBoundary(files, k) ensures r == inputs {
      LargestKeyUnique(inputs, k, first);
    }
  }

  ghost function InitialLargest(files: seq<FileMeta>): (k: InternalKey)
    requires files != []
    ensures IsLargestKey(files, k)
  {
    LargestKeyExists(files);
    var k :| IsLargestKey(files, k);
    k
  }

  lemma {:induction false} LargestKeyExists(files: seq<FileMeta>)
    requires files != []
    ensures exists k :: IsLargestKey(files, k)
  {
    var n := |files| - 1;
    if n == 0 {
      assert IsLargestKey(files, files[0].largest);
    } else {
      LargestKeyExists(files[..n]);
      var k :| IsLargestKey(files[..n], k);
      var m := if Less(k, files[n].largest) then files[n].largest else k;
      assert IsLargestKey(files, m);
    }
  }

  lemma LargestKeyUnique(files: seq<FileMeta>, a: InternalKey, b: InternalKey)
    requires IsLargestKey(files, a) && IsLargestKey(files, b)
    ensures a == b
  {
  }

  lemma BoundaryStep(files: seq<FileMeta>, r: seq<FileMeta>, k: InternalKey, f: FileMeta)
    requires ValidFiles(files) && f in files && IsLargestKey(r, k) && IsBoundary(f, k)
    ensures IsLargestKey(r + [f], f.largest) && (NoDuplicates(r) ==> NoDuplicates(r + [f]))
    ensures StartingAfter(files, f.largest) < StartingAfter(files, k)
  {
    FileBounds(f, f.entries[0]);
    assert f in r + [f];
    assert f in StartingAfter(files, k) && f !in StartingAfter(files, f.largest);
  }

  lemma BoundaryConnected(files: seq<FileMeta>, r: seq<FileMeta>, k: InternalKey, f: FileMeta, others: seq<FileMeta>)
    requires ValidFiles(files) && f in files && (forall g :: g in r ==> g in files) && IsLargestKey(r, k) && IsBoundary(f, k)
    requires Connected(r + others)
    ensures Connected(r + [f] + others)
  {
    var g :| g in r && g.largest == k;
    FileBounds(f, f.entries[0]);
    FileBounds(g, g.entries[0]);
    assert g in r + others;
    ConnectedGrows(r, f, others, k.user);
  }

  /** In a sorted level, the smallest boundary file of a slice is the file that follows it. */
  lemma SliceExtends(files: seq<FileMeta>, part: seq<FileMeta>, a: nat, b: nat, k: InternalKey, f: FileMeta)
    requires ValidFiles(files) && SortedDisjoint(files) && SliceAt(files, part, a, b)
    requires (forall g :: g in part ==> g in files) && IsLargestKey(part, k) && f in files && IsBoundary(f, k)
    requires forall g :: g in files && IsBoundary(g, k) ==> AtMost(f.smallest, g.smallest)
    ensures SliceAt(files, part + [f], a, b + 1)
  {
    LargestOfSlice(files, part, a, b, k);
    var i :| 0 <= i < |files| && files[i] == f;
    LargestMonotone(files, b - 1);
    FileBounds(f, f.entries[0]);
    assert i >= b;
    var g := files[b];
    assert ValidFile(g);
    FileBounds(g, g.entries[0]);
    if i > b {
      assert Less(g.largest, f.smallest);
      assert IsBoundary(g, k);
    }
    forall j | 0 <= j < |files| && j != b ensures files[j] != f {
      assert ValidFile(files[j]);
      FileBounds(files[j], files[j].entries[0]);
      assert if j < b then Less(files[j].largest, f.smallest) else Less(f.largest, files[j].smallest);
    }
  }

  lemma LargestOfSlice(files: seq<FileMeta>, part: seq<FileMeta>, a: nat, b: nat, k: InternalKey)
    requires ValidFiles(files) && SortedDisjoint(files) && SliceAt(files, part, a, b)
    requires (forall g :: g in part ==> g in files) && IsLargestKey(part, k)
    ensures k == files[b - 1].largest
  {
    LargestMonotone(files, b - 1);
    assert files[b - 1] in part;
    var f :| f in part && f.largest == k;
    var i :| 0 <= i < |files| && files[i] == f;
  }

  // ---------------------------------------------------------------------
  // SetupOtherInputs
  // ---------------------------------------------------------------------

  ghost predicate IsSmallestKey(files: seq<FileMeta>, k: InternalKey) {
    (exists f :: f in files && f.smallest == k) && forall f :: f in files ==> AtMost(k, f.smallest)
  }

  method GetRange(inputs: seq<FileMeta>) returns (smallest: InternalKey, largest: InternalKey)
    requires inputs != []
    ensures IsSmallestKey(inputs, smallest) && IsLargestKey(inputs, largest)
  {
    smallest, largest := inputs[0].smallest, inputs[0].largest;
    for i := 1 to |inputs|
      invariant exists f :: f in inputs && f.smallest == smallest
      invariant exists f :: f in inputs && f.largest == largest
      invariant forall k :: 0 <= k < i ==> AtMost(smallest, inputs[k].smallest) && AtMost(inputs[k].largest, largest)
    {
      if Less(inputs[i].smallest, smallest) {
        smallest := inputs[i].smallest;
      }
      if Less(largest, inputs[i].largest) {
        largest := inputs[i].largest;
      }
    }
  }

  function TotalFileSize(files: seq<FileMeta>): nat {
    if files == [] then 0 else files[0].size + TotalFileSize(files[1..])
  }

  /** What a caller may hand to `SetupOtherInputs` as the files of `level` to compact. */
  ghost predicate StartInputs(level: nat, files: seq<FileMeta>, start: seq<FileMeta>) {
    && start != [] && NoDuplicates(start)
    && (forall f :: f in start ==> f in files)
    && (level == 0 ==> exists lo, hi :: ClosedRange(files, lo, hi) && start == OverlappingFiles(files, lo, hi))
    && (level > 0 ==> IsSlice(files, start))
  }

  /** The files of a level left behind are newer than the chosen ones for every shared user key. */
  ghost predicate KeptAbove(files: seq<FileMeta>, chosen: seq<FileMeta>) {
    forall f, g :: f in files && f !in chosen && g in chosen ==> Above(FileEntries(f), FileEntries(g))
  }

  ghost predicate Spans(files: seq<FileMeta>, lo: UserKey, hi: UserKey) {
    forall f :: f in files ==> lo <= f.smallest.user && f.largest.user <= hi
  }

  /** `in1` is exactly the part of the next level that meets the user-key range of `in0`. */
  ghost predicate MeetsRange(next: seq<FileMeta>, in0: seq<FileMeta>, in1: seq<FileMeta>) {
    exists lo, hi :: Spans(in0, lo, hi) && in1 == OverlappingFiles(next, Some(lo), Some(hi))
  }

  /** No key within the range of `in0` escapes the files of both levels. */
  ghost predicate GapFree(next: seq<FileMeta>, in0: seq<FileMeta>, in1: seq<FileMeta>) {
    exists lo, hi :: Spans(in0, lo, hi) && in1 == OverlappingFiles(next, Some(lo), Some(hi)) && Covered(in0 + in1, lo, hi)
  }

  /** The guarantee every compaction from `files` into `next` relies on. */
  ghost predicate GoodInputs(files: seq<FileMeta>, next: seq<FileMeta>, in0: seq<FileMeta>, in1: seq<FileMeta>) {
    && in0 != [] && NoDuplicates(in0)
    && (forall f :: f in in0 ==> f in files)
    && KeptAbove(files, in0)
    && MeetsRange(next, in0, in1)
  }

  /** A level as far as input selection cares. */
  ghost predicate ValidLevel(level: nat, files: seq<FileMeta>) {
    ValidFiles(files) && (level > 0 ==> SortedDisjoint(files)) && Distinct(LevelEntries(files)) && NoDuplicates(files)
  }

  lemma OverlapConvex(files: seq<FileMeta>, lo: Option<UserKey>, hi: Option<UserKey>, i: nat, j: nat, k: nat)
    requires ValidFiles(files) && SortedDisjoint(files) && i <= j <= k < |files|
    requires Overlaps(files[i], lo, hi) && Overlaps(files[k], lo, hi)
    ensures Overlaps(files[j], lo, hi)
  {
    SmallestMonotone(files, j);
  }

  lemma {:induction false} OverlapBounds(files: seq<FileMeta>, n: nat, lo: Option<UserKey>, hi: Option<UserKey>) returns (a: nat, b: nat)
    requires ValidFiles(files) && SortedDisjoint(files) && n <= |files|
    ensures a <= b <= n && forall i :: 0 <= i < n ==> (Overlaps(files[i], lo, hi) <==> a <= i < b)
  {
    if n == 0 {
      a, b := 0, 0;
    } else {
      a, b := OverlapBounds(files, n - 1, lo, hi);
      if Overlaps(files[n - 1], lo, hi) {
        if a < b < n - 1 {
          OverlapConvex(files, lo, hi, a, b, n - 1);
        }
        a, b := if a == b then n - 1 else a, n;
      }
    }
  }

  lemma {:induction false} OverlapNoDuplicates(files: seq<FileMeta>, n: nat, lo: Option<UserKey>, hi: Option<UserKey>)
    requires n <= |files| && NoDuplicates(files)
    ensures NoDuplicates(OverlappingTo(files, n, lo, hi))
  {
    if n > 0 {
      OverlapNoDuplicates(files, n - 1, lo, hi);
      OverlappingToMembers(files, n - 1, lo, hi);
    }
  }

  /** What `GetOverlappingInputs` finds is a legal starting point. */
  lemma OverlapStarts(level: nat, files: seq<FileMeta>, lo: Option<UserKey>, hi: Option<UserKey>)
    requires ValidLevel(level, files)
    requires level == 0 ==> ClosedRange(files, lo, hi)
    requires OverlappingFiles(files, lo, hi) != []
    ensures StartInputs(level, files, OverlappingFiles(files, lo, hi))
  {
    OverlapNoDuplicates(files, |files|, lo, hi);
    if level > 0 {
      var r := OverlappingFiles(files, lo, hi);
      var a, b := OverlapBounds(files, |files|, lo, hi);
      assert r[0] in r;
      var i :| 0 <= i < |files| && files[i] == r[0];
      assert SliceAt(files, r, a, b);
    }
  }

  lemma ClosedKeptAbove(files: seq<FileMeta>, lo: Option<UserKey>, hi: Option<UserKey>, chosen: seq<FileMeta>)
    requires ValidFiles(files) && ClosedRange(files, lo, hi) && chosen == OverlappingFiles(files, lo, hi)
    ensures KeptAbove(files, chosen)
  {
    forall f, g, x, y | f in files && f !in chosen && g in chosen && x in FileEntries(f) && y in FileEntries(g)
      ensures x.key.user != y.key.user
    {
      FileBounds(f, x);
      FileBounds(g, y);
    }
  }

  lemma ClosedNoBoundary(files: seq<FileMeta>, lo: Option<UserKey>, hi: Option<UserKey>, chosen: seq<FileMeta>, k: InternalKey)
    requires ValidFiles(files) && ClosedRange(files, lo, hi) && chosen == OverlappingFiles(files, lo, hi)
    requires IsLargestKey(chosen, k)
    ensures NoBoundary(files, k)
  {
    forall f | f in files ensures !IsBoundary(f, k) {
      FileBounds(f, f.entries[0]);
      var g :| g in chosen && g.largest == k;
      FileBounds(g, g.entries[0]);
    }
  }

  lemma SliceOrder(files: seq<FileMeta>, chosen: seq<FileMeta>, k: InternalKey, f: FileMeta, g: FileMeta)
    requires ValidFiles(files) && SortedDisjoint(files) && IsSlice(files, chosen)
    requires forall x :: x in chosen ==> x in files
    requires IsLargestKey(chosen, k) && NoBoundary(files, k)
    requires f in files && f !in chosen && g in chosen
    ensures Less(f.largest, g.smallest) || g.largest.user < f.smallest.user
  {
    var a: nat, b: nat :| SliceAt(files, chosen, a, b);
    LargestOfSlice(files, chosen, a, b, k);
    var i :| 0 <= i < |files| && files[i] == f;
    var c :| 0 <= c < |files| && files[c] == g;
    if i >= b {
      assert AtMost(g.largest, k);
      assert Less(files[b - 1].largest, f.smallest);
    }
  }

  lemma OrderAbove(files: seq<FileMeta>, f: FileMeta, g: FileMeta)
    requires ValidFile(f) && ValidFile(g) && f in files && g in files && Distinct(LevelEntries(files))
    requires Less(f.largest, g.smallest) || g.largest.user < f.smallest.user
    ensures Above(FileEntries(f), FileEntries(g))
  {
    forall x, y | x in FileEntries(f) && y in FileEntries(g) && x.key.user == y.key.user
      ensures x.key.sequence > y.key.sequence
    {
      FileBounds(f, x);
      FileBounds(g, y);
      assert x in LevelEntries(files) && y in LevelEntries(files);
    }
  }

  lemma SliceKeptAbove(files: seq<FileMeta>, chosen: seq<FileMeta>, k: InternalKey)
    requires ValidFiles(files) && SortedDisjoint(files) && IsSlice(files, chosen)
    requires Distinct(LevelEntries(files)) && forall g :: g in chosen ==> g in files
    requires IsLargestKey(chosen, k) && NoBoundary(files, k)
    ensures KeptAbove(files, chosen)
  {
    forall f, g | f in files && f !in chosen && g in chosen
      ensures Above(FileEntries(f), FileEntries(g))
    {
      SliceOrder(files, chosen, k, f, g);
      OrderAbove(files, f, g);
    }
  }

  datatype Compaction = Compaction(level: nat, in0: seq<FileMeta>, in1: seq<FileMeta>, grandparents: seq<FileMeta>)

  /** A selection of one level with its boundary files added. */
  method SelectLevel(level: nat, files: seq<FileMeta>, start: seq<FileMeta>, ghost others: seq<FileMeta>) returns (in0: seq<FileMeta>)
    requires ValidLevel(level, files) && StartInputs(level, files, start)
    ensures start <= in0 && NoDuplicates(in0) && (forall f :: f in in0 ==> f in files)
    ensures KeptAbove(files, in0)
    ensures Connected(start + others) ==> Connected(in0 + others)
  {
    in0 := AddBoundaryInputs(files, start, others);
    if level == 0 {
      ghost var lo, hi :| ClosedRange(files, lo, hi) && start == OverlappingFiles(files, lo, hi);
      ClosedNoBoundary(files, lo, hi, start, InitialLargest(start));
      ClosedKeptAbove(files, lo, hi, start);
    } else {
      ghost var k :| IsLargestKey(in0, k) && NoBoundary(files, k);
      SliceKeptAbove(files, in0, k);
    }
  }

  /** The files of the next level that meet the range of `in0`; `others` are some of them that close its gaps. */
  method OverlappingNext(level: nat, next: seq<FileMeta>, in0: seq<FileMeta>, ghost others: seq<FileMeta>) returns (in1: seq<FileMeta>)
    requires ValidFiles(next) && ValidFiles(in0) && level > 0 && in0 != []
    ensures MeetsRange(next, in0, in1)
    ensures forall f :: f in in1 <==> f in next && Reaches(in0, f)
    ensures Connected(in0 + others) && (forall f :: f in others ==> f in next && Reaches(in0, f)) ==> GapFree(next, in0, in1) && Connected(in0 + in1)
  {
    var smallest, largest := GetRange(in0);
    ghost var lo, hi;
    in1, lo, hi := GetOverlappingInputs(level, next, Some(smallest.user), Some(largest.user));
    assert Spans(in0, smallest.user, largest.user);
    forall f ensures Reaches(in0, f) <==> Overlaps(f, Some(smallest.user), Some(largest.user)) {
      ReachesHull(in0, smallest, largest, f);
    }
    if Connected(in0 + others) && forall f :: f in others ==> f in next && Reaches(in0, f) {
      RangeCovered(next, in0, in1, others, smallest, largest);
    }
  }

  /** `f` meets the range of the files. */
  ghost predicate Reaches(files: seq<FileMeta>, f: FileMeta) {
    exists g, h :: g in files && h in files && g.smallest.user <= f.largest.user && f.smallest.user <= h.largest.user
  }

  lemma ReachesFromMore(files: seq<FileMeta>, more: seq<FileMeta>, f: FileMeta)
    requires Reaches(files, f) && forall g :: g in files ==> g in more
    ensures Reaches(more, f)
  {
  }

  lemma ReachesHull(files: seq<FileMeta>, smallest: InternalKey, largest: InternalKey, f: FileMeta)
    requires IsSmallestKey(files, smallest) && IsLargestKey(files, largest)
    ensures Reaches(files, f) <==> Overlaps(f, Some(smallest.user), Some(largest.user))
  {
    var g :| g in files && g.smallest == smallest;
    var h :| h in files && h.largest == largest;
    if Reaches(files, f) {
      var x, y :| x in files && y in files && x.smallest.user <= f.largest.user && f.smallest.user <= y.largest.user;
      assert AtMost(smallest, x.smallest) && AtMost(y.largest, largest);
    }
  }

  /** Without a gap at `level`, there is none between the inputs of both levels. */
  lemma RangeCovered(next: seq<FileMeta>, in0: seq<FileMeta>, in1: seq<FileMeta>, others: seq<FileMeta>, smallest: InternalKey, largest: InternalKey)
    requires IsSmallestKey(in0, smallest) && IsLargestKey(in0, largest) && Connected(in0 + others) && forall f :: f in others ==> f in in1
    requires Spans(in0, smallest.user, largest.user) && in1 == OverlappingFiles(next, Some(smallest.user), Some(largest.user))
    requires ValidFiles(in0)
    ensures GapFree(next, in0, in1) && Connected(in0 + in1)
  {
    Upright(in0);
    var f :| f in in0 && f.smallest == smallest;
    var g :| g in in0 && g.largest == largest;
    assert f in in0 + others && g in in0 + others;
    assert Covered(in0 + others, smallest.user, largest.user);
    CoveredByMore(in0 + others, in0 + in1, smallest.user, largest.user);
    forall h | h in in0 + in1 ensures Overlaps(h, Some(smallest.user), Some(largest.user)) {
      if h in in0 { InHull(in0, smallest, largest, h); }
    }
    ConnectedFrom(in0 + in1, smallest.user, largest.user);
  }

  /** Grow the `level` side if that pulls in no further files of the next level. */
  method ExpandInputs(level: nat, files: seq<FileMeta>, next: seq<FileMeta>, in0: seq<FileMeta>, in1: seq<FileMeta>, targetFileSize: nat)
    returns (out0: seq<FileMeta>, out1: seq<FileMeta>)
    requires ValidLevel(level, files) && ValidFiles(next) && GoodInputs(files, next, in0, in1)
    requires forall f :: f in in1 ==> f in next && Reaches(in0, f)
    ensures GoodInputs(files, next, out0, out1)
    ensures forall f :: f in in0 ==> f in out0
    ensures GapFree(next, in0, in1) && Connected(in0 + in1) ==> GapFree(next, out0, out1)
  {
    hide Reaches, Connected, GapFree, KeptAbove, MeetsRange, IsSmallestKey, IsLargestKey, Distinct, StartInputs, OverlappingFiles, Stretched, LeastClosed, TotalFileSize;
    out0, out1 := in0, in1;
    var allStart, allLimit := GetRange(in0 + in1);
    var part, lo, hi := GetOverlappingInputs(level, files, Some(allStart.user), Some(allLimit.user));
    CoveredStays(files, in0, in1, allStart, allLimit, lo, hi);
    assert in0[0] in part;
    OverlapStarts(level, files, lo, hi);
    if Connected(in0 + in1) {
      WidenedConnected(level, files, in0, in1, allStart, allLimit, lo, hi, part);
    }
    var expanded0 := SelectLevel(level, files, part, in1);
    if |expanded0| > |in0| && TotalFileSize(in1) + TotalFileSize(expanded0) < 25 * targetFileSize {
      forall f | f in in1 ensures Reaches(expanded0, f) {
        ReachesFromMore(in0, expanded0, f);
      }
      var expanded1 := OverlappingNext(level + 1, next, expanded0, in1);
      if |expanded1| == |in1| {
        out0, out1 := expanded0, expanded1;
      }
    }
  }

  lemma WidenedConnected(level: nat, files: seq<FileMeta>, in0: seq<FileMeta>, in1: seq<FileMeta>,
                         lowest: InternalKey, highest: InternalKey, lo: Option<UserKey>, hi: Option<UserKey>, part: seq<FileMeta>)
    requires ValidFiles(in1) && Connected(in0 + in1)
    requires IsSmallestKey(in0 + in1, lowest) && IsLargestKey(in0 + in1, highest)
    requires Contains(lo, hi, Some(lowest.user), Some(highest.user)) && Stretched(files, Some(lowest.user), Some(highest.user), lo, hi)
    requires part == OverlappingFiles(files, lo, hi) && forall f :: f in in0 ==> f in part
    ensures Connected(part + in1)
  {
    hide ValidFiles, IsSmallestKey, IsLargestKey, Connected, OverlappingFiles;
    Upright(in1);
    var all := in0 + in1;
    assert Covered(all, lowest.user, highest.user) by { HullCovered(all, lowest, highest); }
    CoveredByMore(all, part + in1, lowest.user, highest.user);
    forall u | lo.value <= u <= hi.value ensures Touched(part + in1, u) {
      if u < lowest.user || highest.user < u {
        assert Touched(files, u);
        var h :| h in files && h.smallest.user <= u <= h.largest.user;
        assert h in part;
      }
    }
    forall h | h in part + in1 ensures Overlaps(h, lo, hi) {
      if h in in1 { InHull(all, lowest, highest, h); }
    }
    ConnectedFrom(part + in1, lo.value, hi.value);
  }

  lemma InHull(files: seq<FileMeta>, lowest: InternalKey, highest: InternalKey, f: FileMeta)
    requires IsSmallestKey(files, lowest) && IsLargestKey(files, highest) && f in files
    ensures lowest.user <= f.smallest.user && f.largest.user <= highest.user
  {
    assert AtMost(lowest, f.smallest) && AtMost(f.largest, highest);
  }

  lemma HullCovered(files: seq<FileMeta>, lowest: InternalKey, highest: InternalKey)
    requires IsSmallestKey(files, lowest) && IsLargestKey(files, highest) && Connected(files)
    ensures Covered(files, lowest.user, highest.user)
  {
    var f :| f in files && f.smallest == lowest;
    var g :| g in files && g.largest == highest;
  }

  lemma CoveredStays(files: seq<FileMeta>, in0: seq<FileMeta>, in1: seq<FileMeta>,
                     lowest: InternalKey, highest: InternalKey, lo: Option<UserKey>, hi: Option<UserKey>)
    requires ValidFiles(files) && forall f :: f in in0 ==> f in files
    requires IsSmallestKey(in0 + in1, lowest) && IsLargestKey(in0 + in1, highest)
    requires Contains(lo, hi, Some(lowest.user), Some(highest.user))
    ensures forall f :: f in in0 ==> f in OverlappingFiles(files, lo, hi)
  {
    forall f | f in in0 ensures Overlaps(f, lo, hi) && f in files {
      assert f in in0 + in1;
      FileBounds(f, f.entries[0]);
    }
  }

  /** `SetupOtherInputs`; `targetFileSize` is `options->max_file_size`. */
  method SetupOtherInputs(v: Levels, level: nat, start: seq<FileMeta>, targetFileSize: nat) returns (c: Compaction)
    requires |v| == NUM_LEVELS && level + 1 < |v| && forall l :: 0 <= l < |v| ==> ValidLevel(l, v[l])
    requires StartInputs(level, v[level], start)
    ensures c.level == level && GoodInputs(v[level], v[level + 1], c.in0, c.in1)
    ensures forall f :: f in start ==> f in c.in0
    ensures Connected(start) ==> GapFree(v[level + 1], c.in0, c.in1)
  {
    hide Reaches, Connected, GapFree, KeptAbove, MeetsRange, IsSmallestKey, IsLargestKey, Distinct, OverlappingFiles, Stretched, LeastClosed;
    assert start + [] == start;
    var in0 := SelectLevel(level, v[level], start, []);
    var in1 := OverlappingNext(level + 1, v[level + 1], in0, []);
    if in1 != [] {
      in0, in1 := ExpandInputs(level, v[level], v[level + 1], in0, in1, targetFileSize);
    }
    var grandparents := [];
    if level + 2 < NUM_LEVELS {
      var allStart, allLimit := GetRange(in0 + in1);
      ghost var lo, hi;
      grandparents, lo, hi := GetOverlappingInputs(level + 2, v[level + 2], Some(allStart.user), Some(allLimit.user));
    }
    c := Compaction(level, in0, in1, grandparents);
  }

  lemma SortedNoDuplicates(files: seq<FileMeta>)
    requires ValidFiles(files) && SortedDisjoint(files)
    ensures NoDuplicates(files)
  {
    forall i, j | 0 <= i < j < |files| ensures files[i] != files[j] {
      assert ValidFile(files[i]);
      FileBounds(files[i], files[i].entries[0]);
    }
  }

  lemma ValidLevels(v: Levels)
    requires ValidVersion(v) && Distinct(Entries(v)) && NoDuplicates(v[0])
    ensures forall l :: 0 <= l < |v| ==> ValidLevel(l, v[l])
  {
    forall l | 1 <= l < |v| ensures NoDuplicates(v[l]) {
      SortedNoDuplicates(v[l]);
    }
    forall l | 0 <= l < |v| ensures Distinct(LevelEntries(v[l])) {
      assert v[l] in v;
      forall e | e in LevelEntries(v[l]) ensures e in Entries(v) {
        var f :| f in v[l] && e in f.entries;
      }
    }
  }

  // ---------------------------------------------------------------------
  // Where compactions and flushes start
  // ---------------------------------------------------------------------

  const MAX_MEM_COMPACT_LEVEL: nat := 2

  /** What keeps a flushed table with this range from going below `level`. */
  ghost predicate Blocked(v: Levels, lo: UserKey, hi: UserKey, targetFileSize: nat, level: nat)
    requires level + 2 < |v|
  {
    || (level == 0 && SomeOverlap(v[0], Some(lo), Some(hi)))
    || SomeOverlap(v[level + 1], Some(lo), Some(hi))
    || TotalFileSize(OverlappingFiles(v[level + 2], Some(lo), Some(hi))) > 10 * targetFileSize
  }

  /** The first level at which the table is blocked, but no level below the second. */
  ghost predicate IsPick(v: Levels, lo: UserKey, hi: UserKey, targetFileSize: nat, level: nat) {
    && |v| == NUM_LEVELS && level <= MAX_MEM_COMPACT_LEVEL
    && (forall l :: 0 <= l < level ==> !Blocked(v, lo, hi, targetFileSize, l))
    && (level < MAX_MEM_COMPACT_LEVEL ==> Blocked(v, lo, hi, targetFileSize, level))
  }

  lemma PickIsFree(v: Levels, lo: UserKey, hi: UserKey, targetFileSize: nat, level: nat)
    requires IsPick(v, lo, hi, targetFileSize, level) && level > 0
    ensures forall l :: 0 <= l <= level ==> !SomeOverlap(v[l], Some(lo), Some(hi))
  {
    forall l | 0 <= l <= level ensures !SomeOverlap(v[l], Some(lo), Some(hi)) {
      assert !Blocked(v, lo, hi, targetFileSize, if l == 0 then 0 else l - 1);
    }
  }

  lemma PickIsUnique(v: Levels, lo: UserKey, hi: UserKey, targetFileSize: nat, a: nat, b: nat)
    requires IsPick(v, lo, hi, targetFileSize, a) && IsPick(v, lo, hi, targetFileSize, b)
    ensures a == b
  {
    hide Blocked;
  }

  /** The level for a flushed memtable: as deep as it can go without being blocked. */
  method PickLevelForMemTableOutput(v: Levels, lo: UserKey, hi: UserKey, targetFileSize: nat) returns (level: nat)
    requires |v| == NUM_LEVELS && forall l :: 0 <= l < |v| ==> ValidFiles(v[l]) && (l > 0 ==> SortedDisjoint(v[l]))
    ensures IsPick(v, lo, hi, targetFileSize, level)
  {
    hide SomeOverlap, OverlappingFiles, TotalFileSize, LeastClosed;
    level := 0;
    var overlap := SomeFileOverlapsRange(false, v[0], Some(lo), Some(hi));
    if overlap {
      return;
    }
    while level < MAX_MEM_COMPACT_LEVEL
      invariant level <= MAX_MEM_COMPACT_LEVEL
      invariant forall l :: 0 <= l < level ==> !Blocked(v, lo, hi, targetFileSize, l)
    {
      overlap := SomeFileOverlapsRange(true, v[level + 1], Some(lo), Some(hi));
      if overlap {
        break;
      }
      if level + 2 < NUM_LEVELS {
        var overlaps, _, _ := GetOverlappingInputs(level + 2, v[level + 2], Some(lo), Some(hi));
        if TotalFileSize(overlaps) > 10 * targetFileSize {
          break;
        }
      }
      level := level + 1;
    }
  }

  /** `VersionSet::PickCompaction` once a file is chosen: level zero takes its overlap closure. */
  method PickCompaction(v: Levels, level: nat, i: nat, targetFileSize: nat) returns (c: Compaction)
    requires |v| == NUM_LEVELS && level + 1 < |v| && forall l :: 0 <= l < |v| ==> ValidLevel(l, v[l])
    requires i < |v[level]|
    ensures c.level == level && GoodInputs(v[level], v[level + 1], c.in0, c.in1) && v[level][i] in c.in0
    ensures GapFree(v[level + 1], c.in0, c.in1)
  {
    var start := [v[level][i]];
    if level == 0 {
      var f := v[0][i];
      assert f in v[0];
      FileBounds(f, f.entries[0]);
      ghost var lo, hi;
      start, lo, hi := GetOverlappingInputs(0, v[0], Some(f.smallest.user), Some(f.largest.user));
      assert f in start;
      OverlapStarts(0, v[0], lo, hi);
      ClosureConnected(v[0], f, lo, hi, start);
    } else {
      SingletonSlice(v[level], i);
    }
    assert v[level][i] in start;
    c := SetupOtherInputs(v, level, start, targetFileSize);
  }

  /** The closure of a single file's range at level 0 has no gaps. */
  lemma ClosureConnected(files: seq<FileMeta>, f: FileMeta, lo: Option<UserKey>, hi: Option<UserKey>, part: seq<FileMeta>)
    requires f in files && part == OverlappingFiles(files, lo, hi)
    requires Contains(lo, hi, Some(f.smallest.user), Some(f.largest.user)) && f.smallest.user <= f.largest.user
    requires Stretched(files, Some(f.smallest.user), Some(f.largest.user), lo, hi)
    ensures Connected(part)
  {
    forall u | lo.value <= u <= hi.value ensures Touched(part, u) {
      assert f in files;
      assert Touched(files, u);
      var g :| g in files && g.smallest.user <= u <= g.largest.user;
      assert g in part;
    }
    ConnectedFrom(part, lo.value, hi.value);
  }

  lemma SingletonSlice(files: seq<FileMeta>, i: nat)
    requires ValidFiles(files) && SortedDisjoint(files) && i < |files|
    ensures IsSlice(files, [files[i]])
  {
    forall j | 0 <= j < |files| ensures files[j] in [files[i]] <==> i <= j < i + 1 {
      assert ValidFile(files[j]);
      FileBounds(files[j], files[j].entries[0]);
    }
    assert SliceAt(files, [files[i]], i, i + 1);
  }

  lemma {:induction false} OverlapList(files: seq<FileMeta>, n: nat, lo: Option<UserKey>, hi: Option<UserKey>, a: nat, b: nat)
    requires n <= |files| && a <= b <= |files|
    requires forall i :: 0 <= i < |files| ==> (Overlaps(files[i], lo, hi) <==> a <= i < b)
    ensures |OverlappingTo(files, n, lo, hi)| == Min(b, n) - Min(a, n)
    ensures forall k :: 0 <= k < Min(b, n) - Min(a, n) ==> OverlappingTo(files, n, lo, hi)[k] == files[a + k]
  {
    if n > 0 {
      OverlapList(files, n - 1, lo, hi, a, b);
    }
  }

  lemma RunIsSlice(files: seq<FileMeta>, a: nat, b: nat)
    requires ValidFiles(files) && SortedDisjoint(files) && a < b <= |files|
    ensures IsSlice(files, files[a..b])
  {
    forall j | 0 <= j < |files| ensures files[j] in files[a..b] <==> a <= j < b {
      if a <= j < b {
        assert files[a..b][j - a] == files[j];
      }
      if files[j] in files[a..b] {
        var k :| a <= k < b && files[k] == files[j];
        assert ValidFile(files[j]);
        FileBounds(files[j], files[j].entries[0]);
        assert !(j < k) && !(k < j);
      }
    }
    assert SliceAt(files, files[a..b], a, b);
  }

  lemma PrefixStarts(level: nat, files: seq<FileMeta>, lo: Option<UserKey>, hi: Option<UserKey>, n: nat)
    requires ValidLevel(level, files) && level > 0 && 0 < n <= |OverlappingFiles(files, lo, hi)|
    ensures StartInputs(level, files, OverlappingFiles(files, lo, hi)[..n])
  {
    OverlapNoDuplicates(files, |files|, lo, hi);
    var a, b := OverlapBounds(files, |files|, lo, hi);
    PrefixIsRun(files, lo, hi, a, b, n);
    RunIsSlice(files, a, a + n);
  }

  lemma PrefixIsRun(files: seq<FileMeta>, lo: Option<UserKey>, hi: Option<UserKey>, a: nat, b: nat, n: nat)
    requires a <= b <= |files| && n <= |OverlappingFiles(files, lo, hi)|
    requires forall i :: 0 <= i < |files| ==> (Overlaps(files[i], lo, hi) <==> a <= i < b)
    ensures a + n <= b && OverlappingFiles(files, lo, hi)[..n] == files[a..a + n]
  {
    hide Overlaps;
    OverlapList(files, |files|, lo, hi, a, b);
  }

  /** How many of the overlapping files to take in one go: stop once the size limit is reached. */
  method LimitInputs(inputs: seq<FileMeta>, limit: nat) returns (n: nat)
    requires inputs != []
    ensures 0 < n <= |inputs|
    ensures n < |inputs| ==> TotalFileSize(inputs[..n]) >= limit
  {
    var total := 0;
    n := 0;
    while n < |inputs|
      invariant 0 <= n <= |inputs| && total == TotalFileSize(inputs[..n])
      decreases |inputs| - n
    {
      total := total + inputs[n].size;
      SizeGrows(inputs, n);
      n := n + 1;
      if total >= limit {
        break;
      }
    }
  }

  lemma {:induction false} SizeGrows(files: seq<FileMeta>, n: nat)
    requires n < |files|
    ensures TotalFileSize(files[..n + 1]) == TotalFileSize(files[..n]) + files[n].size
  {
    if n == 0 {
      assert files[..1] == [files[0]];
    } else {
      SizeGrows(files[1..], n - 1);
      assert files[..n + 1][1..] == files[1..][..n] && files[..n][1..] == files[1..][..n - 1];
    }
  }

  /** `VersionSet::CompactRange`: a prefix of the overlapping files, but all of them at level zero. */
  method CompactRange(v: Levels, level: nat, begin: Option<UserKey>, end: Option<UserKey>, targetFileSize: nat)
    returns (c: Option<Compaction>)
    requires |v| == NUM_LEVELS && level + 1 < |v| && forall l :: 0 <= l < |v| ==> ValidLevel(l, v[l])
    ensures c.Some? ==> c.value.level == level && GoodInputs(v[level], v[level + 1], c.value.in0, c.value.in1)
    ensures c.None? ==> !SomeOverlap(v[level], begin, end)
  {
    var inputs := RangeInputs(level, v[level], begin, end, targetFileSize);
    if inputs == [] {
      return None;
    }
    var r := SetupOtherInputs(v, level, inputs, targetFileSize);
    c := Some(r);
  }

  method RangeInputs(level: nat, files: seq<FileMeta>, begin: Option<UserKey>, end: Option<UserKey>, targetFileSize: nat)
    returns (inputs: seq<FileMeta>)
    requires ValidLevel(level, files)
    ensures inputs == [] ==> !SomeOverlap(files, begin, end)
    ensures inputs != [] ==> StartInputs(level, files, inputs)
  {
    ghost var lo, hi;
    inputs, lo, hi := GetOverlappingInputs(level, files, begin, end);
    if inputs == [] {
      EmptyOverlap(files, begin, end, lo, hi);
      return;
    }
    OverlapStarts(level, files, lo, hi);
    if level > 0 {
      var n := LimitInputs(inputs, targetFileSize);
      PrefixStarts(level, files, lo, hi, n);
      inputs := inputs[..n];
    }
  }

  lemma EmptyOverlap(files: seq<FileMeta>, begin: Option<UserKey>, end: Option<UserKey>, lo: Option<UserKey>, hi: Option<UserKey>)
    requires OverlappingFiles(files, lo, hi) == [] && Contains(lo, hi, begin, end)
    ensures !SomeOverlap(files, begin, end)
  {
    forall f | f in files ensures !Overlaps(f, begin, end) {
      assert !Overlaps(f, lo, hi);
    }
  }
}
