/** Installing a flushed memtable or the outputs of a compaction: the level invariant is kept and readers see
    the same data. */
module Lsm {
  import opened Keys
  import opened Versions
  import opened CompactionInputs
  import opened CompactionWork

  /** The order of files within a level of a version. */
  predicate SmallerFile(f: File, g: File) {
    Before(f.Smallest(), g.Smallest()) || (f.Smallest() == g.Smallest() && f.number < g.number)
  }

  ghost predicate BySmallest(files: seq<File>) {
    forall i, j :: 0 <= i < j < |files| ==> SmallerFile(files[i], files[j])
  }

  /** all holds the files of a and b in order. */
  ghost predicate SortedUnion(all: seq<File>, a: seq<File>, b: seq<File>) {
    BySmallest(all) && forall f :: f in all <==> f in a || f in b
  }

  lemma FilesSubset(files: seq<File>, more: seq<File>, e: Entry)
    requires (forall f :: f in files ==> f in more) && e in FilesEntries(files)
    ensures e in FilesEntries(more)
  {
  }

  lemma {:induction false} RestSorted(files: seq<File>, inputs: seq<File>)
    requires SortedDisjoint(files)
    ensures SortedDisjoint(Rest(files, inputs))
  {
    hide GoodTable, Sorted, Before;
    if files != [] {
      var n := |files| - 1;
      RestSorted(files[..n], inputs);
      var r := Rest(files[..n], inputs);
      forall i | 0 <= i < |r| ensures Before(r[i].Largest(), files[n].Smallest()) {
        RestMember(files[..n], inputs, r[i]);
        var j :| 0 <= j < n && files[..n][j] == r[i];
        assert files[j] == r[i];
      }
    }
  }

  lemma {:induction false} RestBySmallest(files: seq<File>, inputs: seq<File>)
    requires BySmallest(files)
    ensures BySmallest(Rest(files, inputs))
  {
    hide GoodTable, Sorted, SmallerFile;
    if files != [] {
      var n := |files| - 1;
      RestBySmallest(files[..n], inputs);
      var r := Rest(files[..n], inputs);
      forall i | 0 <= i < |r| ensures SmallerFile(r[i], files[n]) {
        RestMember(files[..n], inputs, r[i]);
        var j :| 0 <= j < n && files[..n][j] == r[i];
        assert files[j] == r[i];
      }
    }
  }

  lemma {:induction false} RestByNumber(files: seq<File>, inputs: seq<File>)
    requires NewerByNumber(files)
    ensures NewerByNumber(Rest(files, inputs))
  {
    hide GoodTable, Sorted, Newer;
    if files != [] {
      var n := |files| - 1;
      ByNumberPrefix(files, n);
      RestByNumber(files[..n], inputs);
      var r := Rest(files[..n], inputs);
      forall i | 0 <= i < |r| ensures r[i] in files && r[i].number != files[n].number {
        RestMember(files[..n], inputs, r[i]);
        var j :| 0 <= j < n && files[..n][j] == r[i];
        assert files[j] == r[i];
      }
    }
  }

  lemma ByNumberPrefix(files: seq<File>, n: nat)
    requires NewerByNumber(files) && n <= |files|
    ensures NewerByNumber(files[..n])
  {
  }

  // ----- Installing a compaction

  ghost predicate Installed(levels: Levels, levels': Levels, level: nat, inputs0: seq<File>, inputs1: seq<File>,
                            outputs: seq<File>) {
    && level + 1 < NUM_LEVELS == |levels| == |levels'|
    && levels'[level] == Rest(levels[level], inputs0)
    && SortedUnion(levels'[level + 1], Rest(levels[level + 1], inputs1), outputs)
    && forall l :: 0 <= l < NUM_LEVELS && l != level && l != level + 1 ==> levels'[l] == levels[l]
  }

  ghost function Input(inputs0: seq<File>, inputs1: seq<File>): set<Entry> {
    FilesEntries(inputs0) + FilesEntries(inputs1)
  }

  /** Where an entry of a level after the installation was before it. */
  lemma Origin(levels: Levels, levels': Levels, level: nat, inputs0: seq<File>, inputs1: seq<File>, outputs: seq<File>,
               l: nat, e: Entry)
    requires Installed(levels, levels', level, inputs0, inputs1, outputs)
    requires FilesEntries(outputs) <= Input(inputs0, inputs1)
    requires (forall f :: f in inputs0 ==> f in levels[level]) && (forall f :: f in inputs1 ==> f in levels[level + 1])
    requires l < NUM_LEVELS && e in FilesEntries(levels'[l])
    ensures || (e in FilesEntries(levels[l]) && (l == level ==> e in FilesEntries(Rest(levels[level], inputs0))))
            || (l == level + 1 && e in FilesEntries(inputs0) && e in FilesEntries(levels[level]))
  {
    hide GoodTable, Rest, FilesEntries, BySmallest;
    if l == level {
      RestSubset(levels[l], inputs0, e);
    } else if l == level + 1 {
      var i := FileOf(levels'[l], e);
      var f := levels'[l][i];
      if f in outputs {
        var j :| 0 <= j < |outputs| && outputs[j] == f;
        HasEntry(outputs, j, e);
        if e in FilesEntries(inputs0) {
          FilesSubset(inputs0, levels[level], e);
        } else {
          FilesSubset(inputs1, levels[l], e);
        }
      } else {
        RestMember(levels[l], inputs1, f);
        var j :| 0 <= j < |levels[l]| && levels[l][j] == f;
        HasEntry(levels[l], j, e);
      }
    }
  }

  lemma RestSubset(files: seq<File>, inputs: seq<File>, e: Entry)
    requires e in FilesEntries(Rest(files, inputs))
    ensures e in FilesEntries(files)
  {
  }

  lemma InstallOrder(levels: Levels, levels': Levels, level: nat, inputs0: seq<File>, inputs1: seq<File>,
                     outputs: seq<File>, l: nat, m: nat, x: Entry, y: Entry)
    requires Layered(levels) && Installed(levels, levels', level, inputs0, inputs1, outputs)
    requires GoodInputs(levels[level], levels[level + 1], inputs0, inputs1)
    requires FilesEntries(outputs) <= Input(inputs0, inputs1)
    requires l < m < NUM_LEVELS && x in FilesEntries(levels'[l]) && y in FilesEntries(levels'[m])
             && x.key.user == y.key.user
    ensures x.key.Tag() > y.key.Tag()
  {
    hide GoodTable, Layered, FilesEntries, Rest, Installed, AllBefore, AllAfter;
    LayeredShape(levels);
    InstalledShape(levels, levels', level, inputs0, inputs1, outputs);
    Origin(levels, levels', level, inputs0, inputs1, outputs, l, x);
    Origin(levels, levels', level, inputs0, inputs1, outputs, m, y);
    if x in FilesEntries(levels[l]) {
      if y in FilesEntries(levels[m]) {
        LevelOrder(levels, l, m, x, y);
      } else if l < level {
        LevelOrder(levels, l, level, x, y);
      }
    } else if y in FilesEntries(levels[m]) {
      LevelOrder(levels, level, m, x, y);
    }
  }

  lemma InstalledShape(levels: Levels, levels': Levels, level: nat, inputs0: seq<File>, inputs1: seq<File>,
                       outputs: seq<File>)
    requires Installed(levels, levels', level, inputs0, inputs1, outputs)
    ensures level + 1 < NUM_LEVELS == |levels| == |levels'|
  {
  }

  /** Outputs of a compaction: they hold input entries only, in the order of the input. */
  ghost predicate GoodOutputs(inputs0: seq<File>, inputs1: seq<File>, outputs: seq<File>) {
    SortedDisjoint(outputs) && FilesEntries(outputs) <= Input(inputs0, inputs1)
  }

  /** An output lies within the hull of the inputs. */
  lemma OutputInHull(inputs0: seq<File>, inputs1: seq<File>, outputs: seq<File>, f: File, g: File)
    requires GoodOutputs(inputs0, inputs1, outputs) && g in outputs
    ensures AllBefore(f, inputs0 + inputs1) ==> Before(f.Largest(), g.Smallest())
    ensures AllAfter(f, inputs0 + inputs1) ==> Before(g.Largest(), f.Smallest())
  {
    hide GoodTable, Sorted, SortedDisjoint;
    var j :| 0 <= j < |outputs| && outputs[j] == g;
    var last := |g.run| - 1;
    HasEntry(outputs, j, g.run[0]);
    HasEntry(outputs, j, g.run[last]);
    var a := InputFile(inputs0, inputs1, g.run[0]);
    var b := InputFile(inputs0, inputs1, g.run[last]);
    assert a in inputs0 + inputs1 && b in inputs0 + inputs1;
  }

  lemma InputFile(inputs0: seq<File>, inputs1: seq<File>, e: Entry) returns (f: File)
    requires e in Input(inputs0, inputs1)
    ensures f in inputs0 || f in inputs1
    ensures !Before(e.key, f.Smallest()) && !Before(f.Largest(), e.key)
  {
    hide Sorted;
    if e in FilesEntries(inputs0) {
      var i := FileOf(inputs0, e);
      f := inputs0[i];
    } else {
      var i := FileOf(inputs1, e);
      f := inputs1[i];
    }
    var j :| 0 <= j < |f.run| && f.run[j] == e;
    InFile(f, j);
  }

  lemma InstallDisjoint(next: seq<File>, all: seq<File>, inputs0: seq<File>, inputs1: seq<File>, outputs: seq<File>)
    requires SortedDisjoint(next) && SortedUnion(all, Rest(next, inputs1), outputs)
             && GoodOutputs(inputs0, inputs1, outputs)
    requires forall f :: f in next && f !in inputs1 ==>
               AllBefore(f, inputs0 + inputs1) || AllAfter(f, inputs0 + inputs1)
    ensures SortedDisjoint(all)
  {
    hide GoodTable, Sorted, SortedDisjoint, Rest, AllBefore, AllAfter, FilesEntries, SmallerFile, Before;
    forall i, j | 0 <= i < j < |all| ensures Before(all[i].Largest(), all[j].Smallest()) {
      var f, g := all[i], all[j];
      assert SmallerFile(f, g);
      RestMember(next, inputs1, f);
      RestMember(next, inputs1, g);
      SmallerOrder(f, g);
      if f in outputs && g in outputs {
        SameLevel(outputs, f, g);
      } else if f in outputs {
        OutputInHull(inputs0, inputs1, outputs, g, f);
      } else if g in outputs {
        OutputInHull(inputs0, inputs1, outputs, f, g);
      } else {
        SameLevel(next, f, g);
      }
    }
    DisjointByPairs(all);
  }

  lemma DisjointByPairs(all: seq<File>)
    requires forall i, j :: 0 <= i < j < |all| ==> Before(all[i].Largest(), all[j].Smallest())
    ensures SortedDisjoint(all)
  {
  }

  lemma SmallerOrder(f: File, g: File)
    requires SmallerFile(f, g)
    ensures !Before(g.Largest(), f.Smallest())
  {
  }

  lemma SameLevel(files: seq<File>, f: File, g: File)
    requires SortedDisjoint(files) && f in files && g in files && SmallerFile(f, g)
    ensures Before(f.Largest(), g.Smallest())
  {
  }

  /** Installing a compaction keeps the level invariant. */
  lemma InstallLayered(levels: Levels, levels': Levels, level: nat, inputs0: seq<File>, inputs1: seq<File>,
                       outputs: seq<File>)
    requires Layered(levels) && Installed(levels, levels', level, inputs0, inputs1, outputs)
    requires GoodInputs(levels[level], levels[level + 1], inputs0, inputs1) && GoodOutputs(inputs0, inputs1, outputs)
    ensures Layered(levels')
  {
    hide GoodTable, Sorted, NewerByNumber, SortedDisjoint, FilesEntries, Rest, BySmallest, AllBefore, AllAfter;
    forall l, m | 0 <= l < m < |levels'| ensures Newer(FilesEntries(levels'[l]), FilesEntries(levels'[m])) {
      forall x, y | x in FilesEntries(levels'[l]) && y in FilesEntries(levels'[m]) && x.key.user == y.key.user
        ensures x.key.Tag() > y.key.Tag()
      {
        InstallOrder(levels, levels', level, inputs0, inputs1, outputs, l, m, x, y);
      }
    }
    if level == 0 {
      RestByNumber(levels[0], inputs0);
    } else {
      RestSorted(levels[level], inputs0);
    }
    InstallDisjoint(levels[level + 1], levels'[level + 1], inputs0, inputs1, outputs);
  }

  // ----- Readers do not notice a compaction

  ghost function Staying(levels: Levels, level: nat, inputs0: seq<File>, inputs1: seq<File>): Levels
    requires level + 1 < |levels|
  {
    levels[level := Rest(levels[level], inputs0)][level + 1 := Rest(levels[level + 1], inputs1)]
  }

  lemma LevelMember(levels: Levels, l: nat, e: Entry)
    requires l < |levels| && e in FilesEntries(levels[l])
    ensures e in LevelsEntries(levels)
  {
    PrefixMember(levels, |levels|, e);
  }

  lemma LevelOf(levels: Levels, e: Entry) returns (l: nat)
    requires e in LevelsEntries(levels)
    ensures l < |levels| && e in FilesEntries(levels[l])
  {
    PrefixMember(levels, |levels|, e);
    l :| 0 <= l < |levels| && e in FilesEntries(levels[l]);
  }

  lemma RestOrInput(files: seq<File>, inputs: seq<File>, e: Entry)
    requires forall f :: f in inputs ==> f in files
    ensures e in FilesEntries(files) <==> e in FilesEntries(Rest(files, inputs)) || e in FilesEntries(inputs)
  {
    hide GoodTable, Rest;
    if e in FilesEntries(files) {
      var i := FileOf(files, e);
      RestMember(files, inputs, files[i]);
      assert files[i] in files;
    }
    if e in FilesEntries(Rest(files, inputs)) {
      RestSubset(files, inputs, e);
    }
    if e in FilesEntries(inputs) {
      FilesSubset(inputs, files, e);
    }
  }

  lemma UnionMember(all: seq<File>, a: seq<File>, b: seq<File>, e: Entry)
    requires SortedUnion(all, a, b)
    ensures e in FilesEntries(all) <==> e in FilesEntries(a) || e in FilesEntries(b)
  {
  }

  lemma EntriesBefore(levels: Levels, level: nat, inputs0: seq<File>, inputs1: seq<File>)
    requires level + 1 < |levels|
    requires (forall f :: f in inputs0 ==> f in levels[level]) && (forall f :: f in inputs1 ==> f in levels[level + 1])
    ensures LevelsEntries(levels) == Input(inputs0, inputs1) + LevelsEntries(Staying(levels, level, inputs0, inputs1))
  {
    hide GoodTable, Rest, FilesEntries, LevelsEntries;
    var staying := Staying(levels, level, inputs0, inputs1);
    forall e ensures e in LevelsEntries(levels) <==> e in Input(inputs0, inputs1) + LevelsEntries(staying) {
      RestOrInput(levels[level], inputs0, e);
      RestOrInput(levels[level + 1], inputs1, e);
      if e in LevelsEntries(levels) {
        var l := LevelOf(levels, e);
        if e in FilesEntries(staying[l]) {
          LevelMember(staying, l, e);
        }
      }
      if e in LevelsEntries(staying) {
        var l := LevelOf(staying, e);
        LevelMember(levels, l, e);
      }
      if e in FilesEntries(inputs0) {
        LevelMember(levels, level, e);
      }
      if e in FilesEntries(inputs1) {
        LevelMember(levels, level + 1, e);
      }
    }
  }

  lemma EntriesAfter(levels: Levels, levels': Levels, level: nat, inputs0: seq<File>, inputs1: seq<File>,
                     outputs: seq<File>)
    requires Installed(levels, levels', level, inputs0, inputs1, outputs)
    ensures LevelsEntries(levels') == FilesEntries(outputs) + LevelsEntries(Staying(levels, level, inputs0, inputs1))
  {
    hide GoodTable, Rest, FilesEntries, LevelsEntries, BySmallest;
    var staying := Staying(levels, level, inputs0, inputs1);
    forall e ensures e in LevelsEntries(levels') <==> e in FilesEntries(outputs) + LevelsEntries(staying) {
      UnionMember(levels'[level + 1], Rest(levels[level + 1], inputs1), outputs, e);
      if e in LevelsEntries(levels') {
        var l := LevelOf(levels', e);
        if e in FilesEntries(staying[l]) {
          LevelMember(staying, l, e);
        }
      }
      if e in LevelsEntries(staying) {
        var l := LevelOf(staying, e);
        LevelMember(levels', l, e);
      }
      if e in FilesEntries(outputs) {
        LevelMember(levels', level + 1, e);
      }
    }
  }

  /** Readers at the oldest snapshot or later see the same data after the installation, exactly when no dropped
      tombstone uncovers a value in a file that stays. */
  lemma InstallMeaning(levels: Levels, levels': Levels, level: nat, inputs0: seq<File>, inputs1: seq<File>,
                       outputs: seq<File>, input: seq<Entry>, s: nat, base: UserKey -> bool)
    requires Layered(levels) && Installed(levels, levels', level, inputs0, inputs1, outputs)
    requires GoodInputs(levels[level], levels[level + 1], inputs0, inputs1)
    requires Sorted(input) && Elements(input) == Input(inputs0, inputs1)
    requires FilesEntries(outputs) == Elements(Kept(input, s, base, |input|))
    ensures SameViews(LevelsEntries(levels), LevelsEntries(levels'), s)
            <==> NothingUncovered(input, s, base, LevelsEntries(Staying(levels, level, inputs0, inputs1)))
  {
    hide GoodTable, Layered, Rest, FilesEntries, LevelsEntries, Sorted, Kept, SameViews, NothingUncovered, Newer;
    EntriesBefore(levels, level, inputs0, inputs1);
    EntriesAfter(levels, levels', level, inputs0, inputs1, outputs);
    LayeredShape(levels);
    PrefixDistinct(levels, |levels|);
    LevelsDistinct(levels);
    CompactionMeaning(input, s, base, LevelsEntries(Staying(levels, level, inputs0, inputs1)));
  }

  lemma LevelsDistinct(levels: Levels)
    requires Layered(levels)
    ensures DistinctKeys(LevelsEntries(levels))
  {
    PrefixDistinct(levels, |levels|);
  }

  /** Nothing older than an input entry stays behind at the next level either. */
  ghost predicate NextLevelClosed(next: seq<File>, inputs0: seq<File>, inputs1: seq<File>) {
    Newer(FilesEntries(Rest(next, inputs1)), Input(inputs0, inputs1))
  }

  /** That is enough: tombstones are dropped only when no deeper level covers their key. */
  lemma ClosedUncoversNothing(levels: Levels, level: nat, inputs0: seq<File>, inputs1: seq<File>, input: seq<Entry>,
                              s: nat, base: UserKey -> bool)
    requires Layered(levels) && level + 1 < NUM_LEVELS
    requires GoodInputs(levels[level], levels[level + 1], inputs0, inputs1)
    requires NextLevelClosed(levels[level + 1], inputs0, inputs1)
    requires Sorted(input) && Elements(input) == Input(inputs0, inputs1)
    requires forall k :: base(k) <==> BaseLevel(levels, level, k)
    ensures NothingUncovered(input, s, base, LevelsEntries(Staying(levels, level, inputs0, inputs1)))
  {
    hide GoodTable, Layered, Rest, FilesEntries, LevelsEntries, Sorted, Newest, AllBefore, AllAfter;
    LayeredShape(levels);
    var outside := LevelsEntries(Staying(levels, level, inputs0, inputs1));
    forall i | 0 <= i < |input| && Obsolete(base, input[i], s) ensures !Uncovers(input[i], s, outside) {
      var c := Newest(outside, input[i].key.user, s);
      if c.Some? {
        assert input[i] in Elements(input);
        StaysNewer(levels, level, inputs0, inputs1, input[i], c.value);
      }
    }
  }

  lemma NotCovered(levels: Levels, level: nat, k: UserKey, l: nat, i: nat)
    requires BaseLevel(levels, level, k) && level + 2 <= l < |levels| && i < |levels[l]|
    ensures !Covers(levels[l][i], k)
  {
  }

  lemma StaysNewer(levels: Levels, level: nat, inputs0: seq<File>, inputs1: seq<File>, t: Entry, c: Entry)
    requires Layered(levels) && level + 1 < NUM_LEVELS
    requires GoodInputs(levels[level], levels[level + 1], inputs0, inputs1)
    requires NextLevelClosed(levels[level + 1], inputs0, inputs1)
    requires t in Input(inputs0, inputs1) && BaseLevel(levels, level, t.key.user)
    requires c in LevelsEntries(Staying(levels, level, inputs0, inputs1)) && c.key.user == t.key.user
    ensures c.key.Tag() > t.key.Tag()
  {
    hide GoodTable, Layered, Rest, FilesEntries, LevelsEntries, AllBefore, AllAfter;
    LayeredShape(levels);
    var staying := Staying(levels, level, inputs0, inputs1);
    var l := LevelOf(staying, c);
    if l > level + 1 {
      var i := FileOf(levels[l], c);
      var j :| 0 <= j < |levels[l][i].run| && levels[l][i].run[j] == c;
      NotCovered(levels, level, t.key.user, l, i);
      InFile(levels[l][i], j);
    } else if l < level + 1 {
      if l == level {
        RestSubset(levels[level], inputs0, c);
      }
      if t in FilesEntries(inputs0) && l < level {
        FilesSubset(inputs0, levels[level], t);
        LevelOrder(levels, l, level, c, t);
      } else if t !in FilesEntries(inputs0) {
        FilesSubset(inputs1, levels[level + 1], t);
        LevelOrder(levels, l, level + 1, c, t);
      }
    }
  }

  /** The runs that DoCompactionWork writes, as files. */
  ghost predicate FilesOf(outputs: seq<File>, runs: seq<seq<Entry>>) {
    |outputs| == |runs| && forall i :: 0 <= i < |runs| ==> outputs[i].run == runs[i]
  }

  lemma {:induction false} OutputsGood(outputs: seq<File>, runs: seq<seq<Entry>>)
    requires FilesOf(outputs, runs) && Sorted(Flatten(runs))
    ensures SortedDisjoint(outputs) && FilesEntries(outputs) == Elements(Flatten(runs))
  {
    hide GoodTable, Before;
    if runs != [] {
      var n := |runs| - 1;
      var front, flat := Flatten(runs[..n]), Flatten(runs);
      assert forall i :: 0 <= i < |front| ==> flat[i] == front[i];
      assert forall i :: 0 <= i < |runs[n]| ==> flat[|front| + i] == runs[n][i];
      OutputsGood(outputs[..n], runs[..n]);
      forall i | 0 <= i < n ensures Before(outputs[i].Largest(), outputs[n].Smallest()) {
        var e := outputs[i].run[|outputs[i].run| - 1];
        assert outputs[..n][i] == outputs[i];
        HasEntry(outputs[..n], i, e);
        var p :| 0 <= p < |front| && front[p] == e;
        assert Before(flat[p].key, flat[|front|].key);
      }
      forall e ensures e in FilesEntries(outputs) <==> e in Elements(flat) {
        OutputMember(outputs, e);
      }
    } else {
      NoFiles();
      assert outputs == [];
    }
  }

  lemma OutputMember(outputs: seq<File>, e: Entry)
    requires outputs != []
    ensures var n := |outputs| - 1;
            e in FilesEntries(outputs) <==> e in FilesEntries(outputs[..n]) || e in outputs[n].run
  {
  }

  // ----- Adding the newest data: memtable flushes and recovered logs

  ghost predicate Added(levels: Levels, levels': Levels, level: nat, files: seq<File>) {
    && |levels| == |levels'| == NUM_LEVELS && level < NUM_LEVELS
    && SortedUnion(levels'[level], levels[level], files)
    && forall l :: 0 <= l < NUM_LEVELS && l != level ==> levels'[l] == levels[l]
  }

  /** New level-0 files are numbered in the order of their age, after all others. */
  ghost predicate NextNumbers(zero: seq<File>, files: seq<File>) {
    NewerByNumber(files) && forall f, g :: f in files && g in zero ==> f.number > g.number
  }

  /** A flushed memtable meets no file down to the level it goes to. */
  ghost predicate Clear(levels: Levels, level: nat, files: seq<File>) {
    |files| <= 1 && level < |levels| && forall l, f, g :: 0 <= l <= level && f in files && g in levels[l] ==>
                                                 !Overlaps(g, Some(f.Smallest().user), Some(f.Largest().user))
  }

  lemma ClearUsers(levels: Levels, level: nat, files: seq<File>, l: nat, x: Entry, y: Entry)
    requires Clear(levels, level, files) && l <= level && x in FilesEntries(files) && y in FilesEntries(levels[l])
    ensures x.key.user != y.key.user
  {
  }

  lemma AddedEntries(levels: Levels, levels': Levels, level: nat, files: seq<File>)
    requires Added(levels, levels', level, files)
    ensures LevelsEntries(levels') == LevelsEntries(levels) + FilesEntries(files)
  {
    hide GoodTable, FilesEntries, LevelsEntries, BySmallest;
    forall e ensures e in LevelsEntries(levels') <==> e in LevelsEntries(levels) + FilesEntries(files) {
      UnionMember(levels'[level], levels[level], files, e);
      if e in LevelsEntries(levels') {
        var l := LevelOf(levels', e);
        if e in FilesEntries(levels[l]) {
          LevelMember(levels, l, e);
        }
      }
      if e in LevelsEntries(levels) {
        var l := LevelOf(levels, e);
        LevelMember(levels', l, e);
      }
      if e in FilesEntries(files) {
        LevelMember(levels', level, e);
      }
    }
  }

  lemma AddedOrder(levels: Levels, levels': Levels, level: nat, files: seq<File>, l: nat, m: nat, x: Entry, y: Entry)
    requires Layered(levels) && Added(levels, levels', level, files)
             && Newer(FilesEntries(files), LevelsEntries(levels))
    requires level == 0 || Clear(levels, level, files)
    requires l < m < NUM_LEVELS && x in FilesEntries(levels'[l]) && y in FilesEntries(levels'[m])
             && x.key.user == y.key.user
    ensures x.key.Tag() > y.key.Tag()
  {
    hide GoodTable, Layered, FilesEntries, LevelsEntries, BySmallest, Clear;
    UnionMember(levels'[level], levels[level], files, x);
    UnionMember(levels'[level], levels[level], files, y);
    if x in FilesEntries(levels[l]) {
      if y in FilesEntries(levels[m]) {
        LevelOrder(levels, l, m, x, y);
      } else {
        ClearUsers(levels, level, files, l, y, x);
      }
    } else {
      LevelMember(levels, m, y);
    }
  }

  lemma AddedZero(zero: seq<File>, all: seq<File>, files: seq<File>)
    requires NewerByNumber(zero) && NextNumbers(zero, files) && SortedUnion(all, zero, files)
    requires Newer(FilesEntries(files), FilesEntries(zero))
    ensures NewerByNumber(all)
  {
    hide GoodTable, Sorted, FilesEntries, Before;
    forall i, j | 0 <= i < j < |all| ensures all[i].number != all[j].number {
      var f, g := all[i], all[j];
      assert SmallerFile(f, g);
      assert f in all && g in all;
      SameNumber(zero, f, g);
      SameNumber(files, f, g);
      NotSmaller(f);
    }
    forall f, g | f in all && g in all && f.number > g.number ensures Newer(Elements(f.run), Elements(g.run)) {
      if f in files && g !in files {
        var i :| 0 <= i < |files| && files[i] == f;
        var j :| 0 <= j < |zero| && zero[j] == g;
        forall x, y | x in f.run && y in g.run && x.key.user == y.key.user ensures x.key.Tag() > y.key.Tag() {
          HasEntry(files, i, x);
          HasEntry(zero, j, y);
        }
      }
    }
  }

  lemma SameNumber(files: seq<File>, f: File, g: File)
    requires NewerByNumber(files)
    ensures f in files && g in files && f.number == g.number ==> f == g
  {
  }

  lemma NotSmaller(f: File)
    ensures !SmallerFile(f, f)
  {
  }

  lemma AddedDisjoint(levels: Levels, level: nat, all: seq<File>, files: seq<File>)
    requires level < |levels| && SortedDisjoint(levels[level]) && Clear(levels, level, files)
    requires SortedUnion(all, levels[level], files)
    ensures SortedDisjoint(all)
  {
    hide GoodTable, Sorted, SortedDisjoint;
    forall i, j | 0 <= i < j < |all| ensures Before(all[i].Largest(), all[j].Smallest()) {
      var f, g := all[i], all[j];
      assert SmallerFile(f, g);
      assert f in all && g in all;
      InFile(f, 0);
      InFile(g, 0);
      if f in levels[level] && g in levels[level] {
        SameLevel(levels[level], f, g);
      } else {
        assert f in files && g in files ==> f == g;
        NotSmaller(f);
      }
    }
    DisjointByPairs(all);
  }

  /** Adding files that are newer than all data keeps the level invariant. */
  lemma AddLayered(levels: Levels, levels': Levels, level: nat, files: seq<File>)
    requires Layered(levels) && Added(levels, levels', level, files)
             && Newer(FilesEntries(files), LevelsEntries(levels))
    requires if level == 0 then NextNumbers(levels[0], files) else Clear(levels, level, files)
    ensures Layered(levels')
  {
    hide GoodTable, Sorted, NewerByNumber, SortedDisjoint, FilesEntries, LevelsEntries, BySmallest, Clear;
    forall l, m | 0 <= l < m < |levels'| ensures Newer(FilesEntries(levels'[l]), FilesEntries(levels'[m])) {
      forall x, y | x in FilesEntries(levels'[l]) && y in FilesEntries(levels'[m]) && x.key.user == y.key.user
        ensures x.key.Tag() > y.key.Tag()
      {
        AddedOrder(levels, levels', level, files, l, m, x, y);
      }
    }
    if level == 0 {
      forall x | x in FilesEntries(levels[0]) ensures x in LevelsEntries(levels) {
        LevelMember(levels, 0, x);
      }
      AddedZero(levels[0], levels'[0], files);
    } else {
      AddedDisjoint(levels, level, levels'[level], files);
    }
  }
}
