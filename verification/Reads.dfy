/** The iterators that a database iterator is made of (db_impl.cc:1047-1074, version_set.cc:195-215), and what a scan
    shows. */
module Reads {
  import opened Keys
  import opened Versions
  import opened TwoLevelIterators
  import opened LevelIterators
  import opened LiveCursors
  import opened MergingIterators
  import opened DbIterators
  import Histories
  import Databases

  /** One concatenating iterator for each level from 1 up to n that has files. */
  ghost function LevelRuns(levels: Levels, n: nat, blocks: Bytes -> seq<Entry>): seq<seq<Entry>>
    requires n <= |levels|
  {
    if n <= 1 then []
    else
      LevelRuns(levels, n - 1, blocks)
      + if levels[n - 1] == [] then [] else [LevelRun(levels[n - 1], blocks)]
  }

  ghost function LevelRun(files: seq<File>, blocks: Bytes -> seq<Entry>): seq<Entry> {
    Flat(FileIndex(files), blocks, |files|)
  }

  ghost function TableRuns(files: seq<File>): seq<seq<Entry>> {
    seq(|files|, i requires 0 <= i < |files| => files[i].run)
  }

  /** The children that NewInternalIterator merges. */
  ghost function Children(mem: seq<Entry>, imm: Option<seq<Entry>>, levels: Levels,
                          blocks: Bytes -> seq<Entry>): seq<seq<Entry>>
    requires levels != []
  {
    [mem] + (if imm.Some? then [imm.value] else []) + TableRuns(levels[0]) + LevelRuns(levels, |levels|, blocks)
  }

  ghost predicate InSome(runs: seq<seq<Entry>>, e: Entry) {
    exists i :: 0 <= i < |runs| && e in runs[i]
  }

  lemma InSomeAppend(a: seq<seq<Entry>>, b: seq<seq<Entry>>, e: Entry)
    ensures InSome(a + b, e) <==> InSome(a, e) || InSome(b, e)
  {
    var both := a + b;
    if i :| 0 <= i < |a| && e in a[i] {
      assert both[i] == a[i];
    }
    if i :| 0 <= i < |b| && e in b[i] {
      assert both[|a| + i] == b[i];
    }
    if i :| 0 <= i < |both| && e in both[i] {
      assert if i < |a| then e in a[i] else e in b[i - |a|];
    }
  }

  lemma InSomeOne(run: seq<Entry>, e: Entry)
    ensures InSome([run], e) <==> e in run
    ensures !InSome([], e)
  {
    if e in run {
      assert [run][0] == run;
    }
  }

  lemma {:induction false} InLevelRuns(levels: Levels, n: nat, blocks: Bytes -> seq<Entry>, e: Entry)
    requires n <= |levels| && forall l :: 1 <= l < |levels| ==> SortedDisjoint(levels[l]) && Opens(levels[l], blocks)
    ensures InSome(LevelRuns(levels, n, blocks), e) <==> exists l :: 1 <= l < n && e in FilesEntries(levels[l])
  {
    hide SortedDisjoint, Opens, FilesEntries, LevelRun, InSome;
    if n <= 1 {
      InSomeOne([], e);
    } else {
      var files := levels[n - 1];
      InLevelRuns(levels, n - 1, blocks, e);
      InSomeAppend(LevelRuns(levels, n - 1, blocks), if files == [] then [] else [LevelRun(files, blocks)], e);
      InSomeOne(LevelRun(files, blocks), e);
      NoFiles();
      InLevelRun(files, blocks, e);
    }
  }

  lemma InLevelRun(files: seq<File>, blocks: Bytes -> seq<Entry>, e: Entry)
    requires SortedDisjoint(files) && Opens(files, blocks)
    ensures e in LevelRun(files, blocks) <==> e in FilesEntries(files)
  {
    hide SortedDisjoint, Opens, FilesEntries, Flat, Separated;
    LevelIsOneRun(files, blocks);
    assert e in Elements(LevelRun(files, blocks)) <==> e in FilesEntries(files);
  }

  lemma InTableRuns(files: seq<File>, e: Entry)
    ensures InSome(TableRuns(files), e) <==> e in FilesEntries(files)
  {
    if e in FilesEntries(files) {
      var i := FileOf(files, e);
      assert TableRuns(files)[i] == files[i].run;
    }
    if i :| 0 <= i < |TableRuns(files)| && e in TableRuns(files)[i] {
      HasEntry(files, i, e);
    }
  }

  ghost function Everything(mem: seq<Entry>, imm: Option<seq<Entry>>, levels: Levels): set<Entry> {
    Elements(mem) + (if imm.Some? then Elements(imm.value) else {}) + LevelsEntries(levels)
  }

  /** The children together have every entry of the memtables and the version. */
  lemma InChildren(mem: seq<Entry>, imm: Option<seq<Entry>>, levels: Levels, blocks: Bytes -> seq<Entry>, e: Entry)
    requires levels != [] && forall l :: 1 <= l < |levels| ==> SortedDisjoint(levels[l]) && Opens(levels[l], blocks)
    ensures InSome(Children(mem, imm, levels, blocks), e) <==> e in Everything(mem, imm, levels)
  {
    hide SortedDisjoint, Opens, FilesEntries, LevelRuns, TableRuns, InSome;
    var frozen := if imm.Some? then [imm.value] else [];
    InSomeAppend([mem] + frozen + TableRuns(levels[0]), LevelRuns(levels, |levels|, blocks), e);
    InSomeAppend([mem] + frozen, TableRuns(levels[0]), e);
    InSomeAppend([mem], frozen, e);
    InSomeOne(mem, e);
    if imm.Some? {
      InSomeOne(imm.value, e);
    } else {
      InSomeOne([], e);
    }
    InTableRuns(levels[0], e);
    InLevelRuns(levels, |levels|, blocks, e);
    PrefixMember(levels, |levels|, e);
  }

  /** A scan at a snapshot shows a user key with a value exactly if a lookup of the key at that snapshot finds the
      value. */
  lemma ScanAgreesWithGet(mem: seq<Entry>, imm: Option<seq<Entry>>, levels: Levels, blocks: Bytes -> seq<Entry>,
                          all: seq<Entry>, s: nat, k: UserKey, v: Bytes)
    requires levels != [] && forall l :: 1 <= l < |levels| ==> SortedDisjoint(levels[l]) && Opens(levels[l], blocks)
    requires Merge(Children(mem, imm, levels, blocks), all)
    ensures (exists e :: e in VisibleList(all, s) && e.key.user == k && e.value == v)
            <==> View(Newest(Everything(mem, imm, levels), k, s)) == Some(v)
  {
    hide SortedDisjoint, Opens, Children, LevelsEntries, Everything, Newest, VisibleList;
    var runs := Children(mem, imm, levels, blocks);
    forall e
      ensures e in Elements(all) <==> e in Everything(mem, imm, levels)
    {
      InChildren(mem, imm, levels, blocks, e);
      MergeMember(runs, all, e);
    }
    MergeSorted(runs, all);
    VisibleListMeaning(all, s, k, v);
    assert Elements(all) == Everything(mem, imm, levels);
  }

  /** So a scan of an open database, at a live snapshot or at the last sequence number, shows exactly the keys and
      values that a plain map has after the operations up to there. */
  lemma ScanSeesHistory(s: Databases.State, blocks: Bytes -> seq<Entry>, all: seq<Entry>, t: nat, k: UserKey, v: Bytes)
    requires Databases.Inv(s) && s.memory.Some?
    requires t in s.memory.value.snapshots || t == s.memory.value.lastSequence
    requires |s.disk.manifest.levels| == NUM_LEVELS
             && forall l :: 1 <= l < NUM_LEVELS ==> Opens(s.disk.manifest.levels[l], blocks)
    requires Merge(Children(s.memory.value.mem, s.memory.value.imm, s.disk.manifest.levels, blocks), all)
    ensures var ops := Histories.Operations(s.trace.history, s.trace.applied);
            && t <= |ops|
            && ((exists e :: e in VisibleList(all, t) && e.key.user == k && e.value == v)
                <==> k in Histories.MapAfter(ops, t) && Histories.MapAfter(ops, t)[k] == v)
  {
    hide Databases.Inv, Opens, Merge, Children, LevelsEntries, Newest, VisibleList, Histories.Operations,
         Histories.MapAfter, Layered, SortedDisjoint;
    var m, levels := s.memory.value, s.disk.manifest.levels;
    Databases.OpenShape(s);
    Databases.ReadsSeeHistory(s, k, t);
    forall l: nat | 1 <= l < NUM_LEVELS ensures SortedDisjoint(levels[l]) {
      LayeredLevel(levels, l);
    }
    ScanAgreesWithGet(m.mem, m.imm, levels, blocks, all, t, k, v);
    assert Everything(m.mem, m.imm, levels) == Databases.Data(s);
  }

  lemma MergeMember(runs: seq<seq<Entry>>, all: seq<Entry>, e: Entry)
    requires Merge(runs, all)
    ensures e in all <==> InSome(runs, e)
  {
  }

  // ----- The children have no key in common, as the merging iterator requires

  ghost predicate Apart(runs: seq<seq<Entry>>) {
    forall i, j, x, y | 0 <= i < j < |runs| && x in runs[i] && y in runs[j] :: x.key != y.key
  }

  lemma ApartAppend(a: seq<seq<Entry>>, b: seq<seq<Entry>>)
    requires Apart(a) && Apart(b) && forall x, y | InSome(a, x) && InSome(b, y) :: x.key != y.key
    ensures Apart(a + b)
  {
  }

  lemma NewerApart(a: set<Entry>, b: set<Entry>, x: Entry, y: Entry)
    requires Newer(a, b) && x in a && y in b
    ensures x.key != y.key
  {
  }

  lemma LayeredAt(levels: Levels, l: nat, m: nat)
    requires Layered(levels) && l < m < |levels|
    ensures Newer(FilesEntries(levels[l]), FilesEntries(levels[m])) && SortedDisjoint(levels[m])
  {
  }

  lemma TableRunsApart(files: seq<File>)
    requires NewerByNumber(files)
    ensures Apart(TableRuns(files))
  {
  }

  lemma {:induction false} LevelRunsApart(levels: Levels, n: nat, blocks: Bytes -> seq<Entry>)
    requires Layered(levels) && n <= |levels| && forall l :: 1 <= l < |levels| ==> Opens(levels[l], blocks)
    ensures Apart(LevelRuns(levels, n, blocks))
  {
    hide SortedDisjoint, NewerByNumber, Newer, Opens, FilesEntries, LevelRun, InSome;
    if n > 1 {
      var files := levels[n - 1];
      var last := if files == [] then [] else [LevelRun(files, blocks)];
      LevelRunsApart(levels, n - 1, blocks);
      forall x, y | InSome(LevelRuns(levels, n - 1, blocks), x) && InSome(last, y)
        ensures x.key != y.key
      {
        InLevelRuns(levels, n - 1, blocks, x);
        InSomeOne(LevelRun(files, blocks), y);
        InLevelRun(files, blocks, y);
        var l :| 1 <= l < n - 1 && x in FilesEntries(levels[l]);
        LayeredAt(levels, l, n - 1);
        NewerApart(FilesEntries(levels[l]), FilesEntries(files), x, y);
      }
      ApartAppend(LevelRuns(levels, n - 1, blocks), last);
    }
  }

  /** What the database keeps of its memtables and levels gives the merging iterator what it needs. */
  lemma ChildrenApart(mem: seq<Entry>, imm: Option<seq<Entry>>, levels: Levels, blocks: Bytes -> seq<Entry>)
    requires Layered(levels) && forall l :: 1 <= l < |levels| ==> Opens(levels[l], blocks)
    requires Newer(Elements(mem), LevelsEntries(levels))
    requires imm.Some? ==>
               Newer(Elements(mem), Elements(imm.value)) && Newer(Elements(imm.value), LevelsEntries(levels))
    ensures Apart(Children(mem, imm, levels, blocks))
  {
    hide SortedDisjoint, NewerByNumber, Newer, Opens, FilesEntries, LevelRuns, TableRuns, InSome, Elements;
    var frozen := if imm.Some? then [imm.value] else [];
    var tables, deep := TableRuns(levels[0]), LevelRuns(levels, |levels|, blocks);
    LayeredZero(levels);
    TableRunsApart(levels[0]);
    LevelRunsApart(levels, |levels|, blocks);
    forall x, y | InSome(tables, x) && InSome(deep, y)
      ensures x.key != y.key
    {
      InTableRuns(levels[0], x);
      InLevelRuns(levels, |levels|, blocks, y);
      var l :| 1 <= l < |levels| && y in FilesEntries(levels[l]);
      LayeredAt(levels, 0, l);
      NewerApart(FilesEntries(levels[0]), FilesEntries(levels[l]), x, y);
    }
    ApartAppend(tables, deep);
    forall y | InSome(tables + deep, y)
      ensures y in LevelsEntries(levels)
    {
      InSomeAppend(tables, deep, y);
      InTableRuns(levels[0], y);
      InLevelRuns(levels, |levels|, blocks, y);
      PrefixMember(levels, |levels|, y);
    }
    if imm.Some? {
      OneApart(imm.value, tables + deep, LevelsEntries(levels));
    }
    assert frozen + (tables + deep) == if imm.Some? then [imm.value] + (tables + deep) else tables + deep;
    forall y | InSome(frozen + (tables + deep), y)
      ensures y in (if imm.Some? then Elements(imm.value) else {}) + LevelsEntries(levels)
    {
      InSomeAppend(frozen, tables + deep, y);
      InFrozen(imm, y);
    }
    NewerThanBoth(Elements(mem), if imm.Some? then Elements(imm.value) else {}, LevelsEntries(levels));
    OneApart(mem, frozen + (tables + deep), (if imm.Some? then Elements(imm.value) else {}) + LevelsEntries(levels));
    assert Children(mem, imm, levels, blocks) == [mem] + (frozen + (tables + deep));
  }

  lemma LayeredZero(levels: Levels)
    requires Layered(levels)
    ensures NewerByNumber(levels[0])
  {
  }

  lemma InFrozen(imm: Option<seq<Entry>>, y: Entry)
    ensures InSome(if imm.Some? then [imm.value] else [], y) ==> imm.Some? && y in Elements(imm.value)
  {
  }

  lemma NewerThanBoth(a: set<Entry>, b: set<Entry>, c: set<Entry>)
    requires Newer(a, c) && (b == {} || Newer(a, b))
    ensures Newer(a, b + c)
  {
  }

  lemma OneApart(run: seq<Entry>, rest: seq<seq<Entry>>, below: set<Entry>)
    requires Apart(rest) && Newer(Elements(run), below) && forall y | InSome(rest, y) :: y in below
    ensures Apart([run] + rest)
  {
  }

  // ----- Merges of children without common keys

  lemma MergeFromParts(runs: seq<seq<Entry>>, all: seq<Entry>)
    requires Apart(runs) && Sorted(all) && forall i :: 0 <= i < |runs| ==> Sorted(runs[i])
    requires forall e :: InSome(runs, e) <==> e in Elements(all)
    ensures Merge(runs, all)
  {
    hide Sorted;
    forall i, j | 0 <= i < |runs| && 0 <= j < |runs[i]| ensures runs[i][j] in all {
      assert runs[i][j] in runs[i];
      assert runs[i][j] in Elements(all);
    }
    forall e | e in all ensures exists i :: 0 <= i < |runs| && e in runs[i] {
      assert e in Elements(all);
    }
  }

  lemma SortedRuns(runs: seq<seq<Entry>>, all: seq<Entry>)
    requires Merge(runs, all)
    ensures forall i :: 0 <= i < |runs| ==> Sorted(runs[i])
  {
  }

  lemma MergeApart(runs: seq<seq<Entry>>, all: seq<Entry>)
    requires Merge(runs, all)
    ensures Apart(runs)
  {
  }

  ghost function SeenRuns(runs: seq<seq<Entry>>, s: nat): seq<seq<Entry>> {
    seq(|runs|, i requires 0 <= i < |runs| => InView(runs[i], s, |runs[i]|))
  }

  lemma SeenSome(runs: seq<seq<Entry>>, s: nat, e: Entry)
    ensures InSome(SeenRuns(runs, s), e) <==> InSome(runs, e) && e.key.sequence <= s
  {
    var seen := SeenRuns(runs, s);
    forall i | 0 <= i < |runs| ensures e in seen[i] <==> e in runs[i] && e.key.sequence <= s {
      InViewMember(runs[i], s, |runs[i]|, e);
      assert runs[i][..|runs[i]|] == runs[i];
    }
  }

  lemma SeenApart(runs: seq<seq<Entry>>, s: nat)
    requires Apart(runs)
    ensures Apart(SeenRuns(runs, s))
  {
    var seen := SeenRuns(runs, s);
    forall i, j, x: Entry, y: Entry | 0 <= i < j < |seen| && x in seen[i] && y in seen[j] ensures x.key != y.key {
      InViewMember(runs[i], s, |runs[i]|, x);
      InViewMember(runs[j], s, |runs[j]|, y);
    }
  }

  /** The merge that a database iterator goes over, of the entries in view, shows what all entries would show; so what
      it shows does not depend on the moment, whatever has been written since. */
  lemma SeenMerge(runs: seq<seq<Entry>>, all: seq<Entry>, s: nat)
    requires Merge(runs, all)
    ensures Merge(SeenRuns(runs, s), InView(all, s, |all|))
    ensures VisibleList(InView(all, s, |all|), s) == VisibleList(all, s)
  {
    hide Sorted, Merge, Apart, InSome, InView, VisibleList;
    MergeSorted(runs, all);
    SortedRuns(runs, all);
    MergeApart(runs, all);
    SeenApart(runs, s);
    InViewSorted(all, s, |all|);
    AllVisible(all, s);
    forall i | 0 <= i < |runs| ensures Sorted(InView(runs[i], s, |runs[i]|)) {
      InViewSorted(runs[i], s, |runs[i]|);
    }
    forall e ensures InSome(SeenRuns(runs, s), e) <==> e in Elements(InView(all, s, |all|)) {
      SeenSome(runs, s, e);
      MergeMember(runs, all, e);
      InViewMember(all, s, |all|, e);
      assert all[..|all|] == all;
    }
    MergeFromParts(SeenRuns(runs, s), InView(all, s, |all|));
  }

  lemma AllVisible(all: seq<Entry>, s: nat)
    ensures VisibleList(InView(all, s, |all|), s) == VisibleList(all, s)
  {
    VisibleListInView(all, s, |all|);
  }
}
