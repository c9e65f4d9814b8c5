/**
 When input selection alone makes a compaction safe for readers.  `SplitKey`
 shows a store on which it does not.
 */
module EdgeClosure {
  import opened Basics
  import opened DbFormat
  import opened Version
  import opened InputSelection
  import opened DropRules
  import opened CompactionWork
  import opened CompactionEffect

  /** No file left in `level + 1` continues the last user key of a file taken from it. */
  ghost predicate UpperEdgeClosed(next: seq<FileMeta>, in1: seq<FileMeta>) {
    forall f, g :: f in next && f !in in1 && g in in1 ==> !IsBoundary(f, g.largest)
  }

  /** An entry `x` outside the inputs that is older than an input entry `d` of its key. */
  ghost predicate OlderOutside(v: Levels, level: nat, in0: seq<FileMeta>, in1: seq<FileMeta>, d: Entry, x: Entry) {
    && (d in LevelEntries(in0) || d in LevelEntries(in1)) && x in RestEntries(v, level, in0, in1)
    && x.key.user == d.key.user && x.key.sequence < d.key.sequence
  }

  lemma FindInRest(v: Levels, level: nat, in0: seq<FileMeta>, in1: seq<FileMeta>, x: Entry) returns (l: nat, f: FileMeta)
    requires x in RestEntries(v, level, in0, in1)
    ensures l < |v| && f in v[l] && !IsInput(level, in0, in1, l, f) && x in f.entries
  {
    l, f :| 0 <= l < |v| && f in v[l] && !IsInput(level, in0, in1, l, f) && x in f.entries;
  }

  lemma NotFromUpperLevels(v: Levels, level: nat, in0: seq<FileMeta>, in1: seq<FileMeta>, d: Entry, x: Entry, l: nat, f: FileMeta)
    requires ValidVersion(v) && level + 1 < |v| && GoodInputs(v[level], v[level + 1], in0, in1)
    requires l <= level && f in v[l] && (l == level ==> f !in in0) && x in f.entries
    requires (d in LevelEntries(in0) || d in LevelEntries(in1)) && x.key.user == d.key.user
    ensures x.key.sequence > d.key.sequence
  {
    hide SortedDisjoint, NewerByNumber;
    InLevel(v[l], f, x);
    if d in LevelEntries(in1) {
      var g :| g in in1 && d in g.entries;
      assert g in v[level + 1];
      InLevel(v[level + 1], g, d);
      assert Above(LevelEntries(v[l]), LevelEntries(v[level + 1]));
    } else {
      var g :| g in in0 && d in g.entries;
      InLevel(v[level], g, d);
      if l < level {
        assert Above(LevelEntries(v[l]), LevelEntries(v[level]));
      } else {
        assert Above(FileEntries(f), FileEntries(g));
        assert x in FileEntries(f) && d in FileEntries(g);
      }
    }
  }

  lemma NextMissesUpper(v: Levels, level: nat, in0: seq<FileMeta>, in1: seq<FileMeta>, d: Entry, x: Entry, f: FileMeta)
    requires ValidVersion(v) && level + 1 < |v| && GoodInputs(v[level], v[level + 1], in0, in1)
    requires f in v[level + 1] && f !in in1 && x in f.entries && d in LevelEntries(in0)
    ensures x.key.user != d.key.user
  {
    FileBounds(f, x);
    var g :| g in in0 && d in g.entries;
    assert g in v[level];
    FileBounds(g, d);
  }

  lemma NotFromNextLevel(v: Levels, level: nat, in0: seq<FileMeta>, in1: seq<FileMeta>, d: Entry, x: Entry, f: FileMeta)
    requires ValidVersion(v) && level + 1 < |v| && GoodInputs(v[level], v[level + 1], in0, in1)
    requires UpperEdgeClosed(v[level + 1], in1)
    requires f in v[level + 1] && f !in in1 && x in f.entries && d in LevelEntries(in1)
    requires x.key.user == d.key.user
    ensures x.key.sequence >= d.key.sequence
  {
    hide KeptAbove, LevelsOrdered, NewerByNumber, SortedDisjoint;
    FileBounds(f, x);
    var g :| g in in1 && d in g.entries;
    assert g in v[level + 1];
    FileBounds(g, d);
    ApartFromSorted(v[level + 1], f, g);
    assert !IsBoundary(f, g.largest);
  }

  /** With a closed upper edge, older data outside the inputs can only lie two or more levels down. */
  lemma OlderLiesDeep(v: Levels, level: nat, in0: seq<FileMeta>, in1: seq<FileMeta>, d: Entry, x: Entry)
    requires ValidVersion(v) && level + 1 < |v| && GoodInputs(v[level], v[level + 1], in0, in1)
    requires UpperEdgeClosed(v[level + 1], in1) && OlderOutside(v, level, in0, in1, d, x)
    ensures !IsBaseLevel(v, level, d.key.user)
  {
    hide GoodInputs, UpperEdgeClosed, LevelEntries;
    var l, f := FindInRest(v, level, in0, in1, x);
    if l <= level {
      NotFromUpperLevels(v, level, in0, in1, d, x, l, f);
    } else if l == level + 1 {
      if d in LevelEntries(in0) {
        NextMissesUpper(v, level, in0, in1, d, x, f);
      } else {
        NotFromNextLevel(v, level, in0, in1, d, x, f);
      }
    } else {
      FileBounds(f, x);
    }
  }

  /** A closed upper edge is enough: the compaction exposes nothing. */
  lemma EdgeClosedIsSafe(v: Levels, level: nat, in0: seq<FileMeta>, in1: seq<FileMeta>,
                         newer: set<Entry>, input: seq<Entry>, snapshot: nat, u: UserKey)
    requires ValidVersion(v) && level + 1 < |v| && GoodInputs(v[level], v[level + 1], in0, in1)
    requires UpperEdgeClosed(v[level + 1], in1)
    requires ToSet(input) == LevelEntries(in0) + LevelEntries(in1)
    requires Above(newer, ToSet(input))
    ensures !Exposed(v, level, newer + RestEntries(v, level, in0, in1), input, snapshot, u)
  {
    var rest := newer + RestEntries(v, level, in0, in1);
    forall i: nat, x | i < |input| && input[i].key.user == u ensures !ExposedAt(v, level, rest, input, snapshot, i, x) {
      if ExposedAt(v, level, rest, input, snapshot, i, x) {
        assert input[i] in ToSet(input);
        assert x in newer || OlderOutside(v, level, in0, in1, input[i], x);
        if x !in newer {
          OlderLiesDeep(v, level, in0, in1, input[i], x);
        }
      }
    }
  }
}
