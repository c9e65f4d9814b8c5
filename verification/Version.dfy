/**
 A version: seven levels of table files, and how a point lookup searches them.
 */
module Version {
  import opened Basics
  import opened DbFormat

  /** File metadata together with the table's contents in key order. */
  datatype FileMeta = FileMeta(number: nat, size: nat, smallest: InternalKey, largest: InternalKey, entries: seq<Entry>)

  type Levels = seq<seq<FileMeta>>

  ghost predicate ValidFile(f: FileMeta) {
    && |f.entries| > 0
    && Sorted(f.entries)
    && f.smallest == f.entries[0].key
    && f.largest == f.entries[|f.entries| - 1].key
    && f.largest.sequence <= MAX_SEQUENCE
  }

  ghost predicate ValidFiles(files: seq<FileMeta>) {
    forall f :: f in files ==> ValidFile(f)
  }

  /** Levels above zero: key ranges increase strictly along the list. */
  ghost predicate SortedDisjoint(files: seq<FileMeta>) {
    forall i, j :: 0 <= i < j < |files| ==> Less(files[i].largest, files[j].smallest)
  }

  ghost function FileEntries(f: FileMeta): set<Entry> {
    ToSet(f.entries)
  }

  ghost function LevelEntries(files: seq<FileMeta>): set<Entry> {
    set f, e | f in files && e in f.entries :: e
  }

  ghost function Entries(v: Levels): set<Entry> {
    set files, f, e | files in v && f in files && e in f.entries :: e
  }

  /** Every entry of `A` is newer than every entry of `B` for the same user key. */
  ghost predicate Above(A: set<Entry>, B: set<Entry>) {
    forall a, b :: a in A && b in B && a.key.user == b.key.user ==> a.key.sequence > b.key.sequence
  }

  /** Level-0 files may overlap; a higher file number means newer data. */
  ghost predicate NewerByNumber(files: seq<FileMeta>) {
    && (forall f, g :: f in files && g in files && f.number == g.number ==> f == g)
    && (forall f, g :: f in files && g in files && f.number > g.number ==> Above(FileEntries(f), FileEntries(g)))
  }

  ghost predicate LevelsOrdered(v: Levels) {
    forall l, m :: 0 <= l < m < |v| ==> Above(LevelEntries(v[l]), LevelEntries(v[m]))
  }

  ghost predicate ValidVersion(v: Levels) {
    && |v| == NUM_LEVELS
    && (forall l :: 0 <= l < |v| ==> ValidFiles(v[l]))
    && (forall l :: 1 <= l < |v| ==> SortedDisjoint(v[l]))
    && NewerByNumber(v[0])
    && LevelsOrdered(v)
  }

  lemma FileBounds(f: FileMeta, e: Entry)
    requires ValidFile(f) && e in f.entries
    ensures AtMost(f.smallest, e.key) && AtMost(e.key, f.largest)
  {
    var i :| 0 <= i < |f.entries| && f.entries[i] == e;
  }

  // ---------------------------------------------------------------------
  // Searching one table
  // ---------------------------------------------------------------------

  /** Position of the first entry whose key is at or after `k`. */
  function LowerBound(es: seq<Entry>, k: InternalKey): (i: nat)
    ensures i <= |es|
    ensures forall j :: 0 <= j < i ==> Less(es[j].key, k)
    ensures i < |es| ==> !Less(es[i].key, k)
  {
    if es == [] then 0
    else if Less(es[0].key, k) then 1 + LowerBound(es[1..], k)
    else 0
  }

  /** `TableCache::Get` with the `SaveValue` callback: the entry seen, if it belongs to `u`. */
  function TableGet(es: seq<Entry>, u: UserKey, s: nat): (r: Option<Entry>)
  {
    var i := LowerBound(es, SeekKey(u, s));
    if i < |es| && es[i].key.user == u then Some(es[i]) else None
  }

  lemma TableGetIsNewest(es: seq<Entry>, u: UserKey, s: nat)
    requires Sorted(es)
    ensures match TableGet(es, u, s)
            case Some(e) => IsNewest(ToSet(es), u, s, e)
            case None => NoneVisible(ToSet(es), u, s)
  {
    var i := LowerBound(es, SeekKey(u, s));
    forall f | f in ToSet(es) && Visible(f, u, s)
      ensures i < |es| && es[i].key.user == u && f.key.sequence <= es[i].key.sequence
    {
      var j :| 0 <= j < |es| && es[j] == f;
      assert !Less(f.key, SeekKey(u, s));
      assert i <= j;
      if i < j {
        assert Less(es[i].key, es[j].key);
      }
    }
  }

  // ---------------------------------------------------------------------
  // Searching one level
  // ---------------------------------------------------------------------

  /** The search of `FindFile` between two positions, on any list of files. */
  function Bisect(files: seq<FileMeta>, key: InternalKey, left: nat, right: nat): (index: nat)
    requires left <= right <= |files|
    ensures left <= index <= right
    decreases right - left
  {
    if left == right then right
    else
      var mid := (left + right) / 2;
      if Less(files[mid].largest, key) then Bisect(files, key, mid + 1, right) else Bisect(files, key, left, mid)
  }

  /** Binary search: on a sorted level, for the first file whose largest key is at or after `key`. */
  method FindFile(files: seq<FileMeta>, key: InternalKey) returns (index: nat)
    ensures index == Bisect(files, key, 0, |files|)
    ensures ValidFiles(files) && SortedDisjoint(files) ==> SplitsAt(files, key, index)
  {
    hide ValidFiles, SortedDisjoint;
    ghost var sorted := ValidFiles(files) && SortedDisjoint(files);
    var left, right := 0, |files|;
    assert SplitsFrom(files, key, left, right);
    while left < right
      invariant 0 <= left <= right <= |files|
      invariant Bisect(files, key, left, right) == Bisect(files, key, 0, |files|)
      invariant sorted ==> SplitsFrom(files, key, left, right)
    {
      hide SplitsFrom;
      var mid := (left + right) / 2;
      if sorted { Halves(files, key, left, right, mid); }
      if Less(files[mid].largest, key) {
        left := mid + 1;
      } else {
        right := mid;
      }
    }
    index := right;
  }

  /** Files before `left` end before `key`, files from `right` on do not. */
  ghost predicate SplitsFrom(files: seq<FileMeta>, key: InternalKey, left: nat, right: nat) {
    && left <= right <= |files|
    && (forall i :: 0 <= i < left ==> Less(files[i].largest, key))
    && (forall i :: right <= i < |files| ==> !Less(files[i].largest, key))
  }

  lemma Halves(files: seq<FileMeta>, key: InternalKey, left: nat, right: nat, mid: nat)
    requires ValidFiles(files) && SortedDisjoint(files) && SplitsFrom(files, key, left, right) && left <= mid < right
    ensures if Less(files[mid].largest, key) then SplitsFrom(files, key, mid + 1, right) else SplitsFrom(files, key, left, mid)
  {
    LargestMonotone(files, mid);
  }

  /** Exactly the files before position `index` end before `key`. */
  ghost predicate SplitsAt(files: seq<FileMeta>, key: InternalKey, index: nat) {
    SplitsFrom(files, key, index, index)
  }

  lemma LargestMonotone(files: seq<FileMeta>, m: nat)
    requires ValidFiles(files) && SortedDisjoint(files) && m < |files|
    ensures forall i :: 0 <= i < m ==> Less(files[i].largest, files[m].largest)
    ensures forall i :: m < i < |files| ==> Less(files[m].largest, files[i].largest)
  {
    forall i | 0 <= i < |files| ensures AtMost(files[i].smallest, files[i].largest) {
      assert files[i] in files;
      FileBounds(files[i], files[i].entries[0]);
    }
  }

  lemma LevelHit(files: seq<FileMeta>, index: nat, u: UserKey, s: nat)
    requires ValidFiles(files) && SortedDisjoint(files)
    requires index < |files|
    requires forall i :: 0 <= i < index ==> Less(files[i].largest, SeekKey(u, s))
    requires !Less(files[index].largest, SeekKey(u, s))
    ensures match TableGet(files[index].entries, u, s)
            case Some(e) => IsNewest(LevelEntries(files), u, s, e)
            case None => NoneVisible(LevelEntries(files), u, s)
    ensures u < files[index].smallest.user ==> TableGet(files[index].entries, u, s).None?
  {
    var g := files[index];
    assert g in files;
    TableGetIsNewest(g.entries, u, s);
    var i := LowerBound(g.entries, SeekKey(u, s));
    assert i != |g.entries|;
    assert g.entries[i] in g.entries;
    FileBounds(g, g.entries[i]);
    forall e | e in LevelEntries(files) && Visible(e, u, s)
      ensures e in g.entries || (g.entries[i].key.user == u && e.key.sequence <= g.entries[i].key.sequence)
    {
      var f :| f in files && e in f.entries;
      var j :| 0 <= j < |files| && files[j] == f;
      FileBounds(f, e);
      if j > index {
        assert Less(g.largest, f.smallest);
      }
    }
    if g.entries[i].key.user == u {
      assert g.entries[i] in LevelEntries(files);
    }
  }

  /** `r` is the newest visible entry, or there is none. */
  ghost predicate Finds(S: set<Entry>, u: UserKey, s: nat, r: Option<Entry>) {
    match r
    case Some(e) => IsNewest(S, u, s, e)
    case None => NoneVisible(S, u, s)
  }

  /** The lookup in one level above zero, on any list of files. */
  function SortedGet(files: seq<FileMeta>, u: UserKey, s: nat): Option<Entry> {
    var index := Bisect(files, SeekKey(u, s), 0, |files|);
    if index == |files| || u < files[index].smallest.user then None else TableGet(files[index].entries, u, s)
  }

  method GetFromSortedLevel(files: seq<FileMeta>, u: UserKey, s: nat) returns (r: Option<Entry>)
    ensures r == SortedGet(files, u, s)
    ensures ValidFiles(files) && SortedDisjoint(files) ==> Finds(LevelEntries(files), u, s, r)
  {
    var index := FindFile(files, SeekKey(u, s));
    if index >= |files| {
      if ValidFiles(files) && SortedDisjoint(files) {
        forall e | e in LevelEntries(files) ensures !Visible(e, u, s) {
          var f :| f in files && e in f.entries;
          FileBounds(f, e);
        }
      }
      return None;
    }
    if ValidFiles(files) && SortedDisjoint(files) {
      LevelHit(files, index, u, s);
    }
    if u < files[index].smallest.user {
      r := None;
    } else {
      r := TableGet(files[index].entries, u, s);
    }
  }

  ghost predicate NewestFirst(files: seq<FileMeta>) {
    forall i, j :: 0 <= i < j < |files| ==> files[i].number >= files[j].number
  }

  method InsertNewestFirst(files: seq<FileMeta>, f: FileMeta) returns (out: seq<FileMeta>)
    requires NewestFirst(files)
    ensures NewestFirst(out) && forall g :: g in out <==> g in files || g == f
  {
    var k := 0;
    while k < |files| && files[k].number > f.number
      invariant 0 <= k <= |files|
      invariant forall i :: 0 <= i < k ==> files[i].number > f.number
    {
      k := k + 1;
    }
    out := files[..k] + [f] + files[k..];
    assert files == files[..k] + files[k..];
  }

  /** `std::sort` with the `NewestFirst` comparison. */
  method SortNewestFirst(files: seq<FileMeta>) returns (out: seq<FileMeta>)
    ensures NewestFirst(out) && forall g :: g in out <==> g in files
  {
    out := [];
    for n := 0 to |files|
      invariant NewestFirst(out) && forall g :: g in out <==> g in files[..n]
    {
      out := InsertNewestFirst(out, files[n]);
      assert files[..n + 1] == files[..n] + [files[n]];
    }
    assert files[..|files|] == files;
  }

  method GetFromLevel0(files: seq<FileMeta>, u: UserKey, s: nat) returns (r: Option<Entry>)
    requires ValidFiles(files) && NewerByNumber(files)
    ensures r.Some? ==> IsNewest(LevelEntries(files), u, s, r.value)
    ensures r.None? ==> NoneVisible(LevelEntries(files), u, s)
  {
    var tmp := [];
    for i := 0 to |files|
      invariant forall f :: f in tmp ==> f in files
      invariant forall f :: f in files[..i] && f.smallest.user <= u <= f.largest.user ==> f in tmp
    {
      if files[i].smallest.user <= u <= files[i].largest.user {
        tmp := tmp + [files[i]];
      }
      assert files[..i + 1] == files[..i] + [files[i]];
    }
    assert files[..|files|] == files;
    tmp := SortNewestFirst(tmp);
    for i := 0 to |tmp|
      invariant forall k :: 0 <= k < i ==> NoneVisible(FileEntries(tmp[k]), u, s)
    {
      assert tmp[i] in files;
      TableGetIsNewest(tmp[i].entries, u, s);
      r := TableGet(tmp[i].entries, u, s);
      if r.Some? {
        Level0Hit(files, tmp, i, u, s, r.value);
        return;
      }
    }
    forall e | e in LevelEntries(files) ensures !Visible(e, u, s) {
      var f :| f in files && e in f.entries;
      FileBounds(f, e);
      assert f in tmp ==> e in FileEntries(f);
    }
    r := None;
  }

  lemma Level0Hit(files: seq<FileMeta>, tmp: seq<FileMeta>, i: nat, u: UserKey, s: nat, e: Entry)
    requires ValidFiles(files) && NewerByNumber(files)
    requires forall f :: f in tmp ==> f in files
    requires forall f :: f in files && f.smallest.user <= u <= f.largest.user ==> f in tmp
    requires NewestFirst(tmp)
    requires i < |tmp| && IsNewest(FileEntries(tmp[i]), u, s, e)
    requires forall k :: 0 <= k < i ==> NoneVisible(FileEntries(tmp[k]), u, s)
    ensures IsNewest(LevelEntries(files), u, s, e)
  {
    forall x | x in LevelEntries(files) && Visible(x, u, s) ensures x.key.sequence <= e.key.sequence {
      var f :| f in files && x in f.entries;
      FileBounds(f, x);
      var k :| 0 <= k < |tmp| && tmp[k] == f;
      assert x in FileEntries(tmp[k]);
      assert k >= i;
      OlderFile(files, tmp[i], f, u, s, e, x);
    }
  }

  lemma OlderFile(files: seq<FileMeta>, f: FileMeta, g: FileMeta, u: UserKey, s: nat, e: Entry, x: Entry)
    requires NewerByNumber(files) && f in files && g in files && f.number >= g.number
    requires IsNewest(FileEntries(f), u, s, e) && x in FileEntries(g) && Visible(x, u, s)
    ensures x.key.sequence <= e.key.sequence
  {
    if f.number > g.number {
      assert Above(FileEntries(f), FileEntries(g));
    }
  }

  // ---------------------------------------------------------------------
  // Searching the whole version
  // ---------------------------------------------------------------------

  /** `Version::Get`: level by level, stopping at the first entry of `u`. */
  method Get(v: Levels, u: UserKey, s: nat) returns (r: Option<Entry>)
    requires ValidVersion(v)
    ensures r.Some? ==> IsNewest(Entries(v), u, s, r.value)
    ensures r.None? ==> NoneVisible(Entries(v), u, s)
  {
    for level := 0 to NUM_LEVELS
      invariant forall l :: 0 <= l < level ==> NoneVisible(LevelEntries(v[l]), u, s)
    {
      if level == 0 {
        r := GetFromLevel0(v[0], u, s);
      } else {
        r := GetFromSortedLevel(v[level], u, s);
      }
      if r.Some? {
        VersionHit(v, level, u, s, r.value);
        return;
      }
    }
    forall e | e in Entries(v) ensures !Visible(e, u, s) {
      var l := LevelOf(v, e);
    }
    r := None;
  }

  lemma LevelOf(v: Levels, e: Entry) returns (l: nat)
    requires e in Entries(v)
    ensures l < |v| && e in LevelEntries(v[l])
  {
    var files, f :| files in v && f in files && e in f.entries;
    l :| 0 <= l < |v| && v[l] == files;
  }

  lemma VersionHit(v: Levels, level: nat, u: UserKey, s: nat, e: Entry)
    requires ValidVersion(v) && level < |v|
    requires IsNewest(LevelEntries(v[level]), u, s, e)
    requires forall l :: 0 <= l < level ==> NoneVisible(LevelEntries(v[l]), u, s)
    ensures IsNewest(Entries(v), u, s, e)
  {
    forall x | x in Entries(v) && Visible(x, u, s) ensures x.key.sequence <= e.key.sequence {
      var l := LevelOf(v, x);
      if level < l {
        assert Above(LevelEntries(v[level]), LevelEntries(v[l]));
      }
    }
    assert v[level] in v;
  }
}
