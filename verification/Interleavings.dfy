/** db_impl.cc:910-920: what happens between the choice of a compaction's inputs and the installation of its outputs,
    a memtable flush by the compaction loop itself included. */
module Interleavings {
  import opened Keys
  import opened Versions
  import opened CompactionInputs
  import opened CompactionWork
  import opened Histories
  import opened Lsm
  import opened Recovery
  import opened VersionBuilders
  import opened Databases
  import opened Compactions
  import opened UncoveredTombstone

  // ----- A flush into a version from which a compaction is under way

  /** files is newer than all of levels and goes to level l, as CompactMemTable adds it. */
  ghost predicate Flushes(levels: Levels, levels': Levels, l: nat, files: seq<File>) {
    && Layered(levels) && Added(levels, levels', l, files) && (l > 0 ==> Clear(levels, l, files))
    && Newer(FilesEntries(files), LevelsEntries(levels))
  }

  /** The flushed files are not inside the hull of the inputs. */
  ghost predicate OutsideHull(files: seq<File>, inputs: seq<File>) {
    forall f :: f in files ==> AllBefore(f, inputs) || AllAfter(f, inputs)
  }

  lemma FlushedIsNoInput(levels: Levels, level: nat, inputs: seq<File>, files: seq<File>, f: File)
    requires level < |levels| && (forall g :: g in inputs ==> g in levels[level])
    requires Newer(FilesEntries(files), LevelsEntries(levels)) && f in files
    ensures f !in inputs
  {
    hide GoodTable, LevelsEntries;
    if f in inputs {
      var i :| 0 <= i < |levels[level]| && levels[level][i] == f;
      var j :| 0 <= j < |files| && files[j] == f;
      HasEntry(levels[level], i, f.run[0]);
      LevelMember(levels, level, f.run[0]);
      HasEntry(files, j, f.run[0]);
    }
  }

  lemma StillNewer(levels: Levels, levels': Levels, l: nat, files: seq<File>, level: nat, inputs0: seq<File>)
    requires Flushes(levels, levels', l, files) && level < NUM_LEVELS
    requires (forall f :: f in inputs0 ==> f in levels[level])
    requires Newer(FilesEntries(Rest(levels[level], inputs0)), FilesEntries(inputs0))
    ensures Newer(FilesEntries(Rest(levels'[level], inputs0)), FilesEntries(inputs0))
  {
    hide GoodTable, Layered, LevelsEntries, FilesEntries, Rest, Clear, BySmallest;
    forall x, y | x in FilesEntries(Rest(levels'[level], inputs0)) && y in FilesEntries(inputs0)
        && x.key.user == y.key.user
      ensures x.key.Tag() > y.key.Tag()
    {
      var i := FileOf(Rest(levels'[level], inputs0), x);
      var f := Rest(levels'[level], inputs0)[i];
      RestMember(levels'[level], inputs0, f);
      FilesSubset(inputs0, levels[level], y);
      LevelMember(levels, level, y);
      if f in levels[level] {
        RestMember(levels[level], inputs0, f);
        var j :| 0 <= j < |Rest(levels[level], inputs0)| && Rest(levels[level], inputs0)[j] == f;
        HasEntry(Rest(levels[level], inputs0), j, x);
      } else {
        var j :| 0 <= j < |files| && files[j] == f;
        HasEntry(files, j, x);
      }
    }
  }

  /** The inputs stay legal, exactly unless the flush puts a file between them at the level that the outputs go to. */
  lemma FlushKeepsInputs(levels: Levels, levels': Levels, l: nat, files: seq<File>, level: nat, inputs0: seq<File>,
                         inputs1: seq<File>)
    requires Flushes(levels, levels', l, files) && level + 1 < NUM_LEVELS
    requires GoodInputs(levels[level], levels[level + 1], inputs0, inputs1)
    ensures GoodInputs(levels'[level], levels'[level + 1], inputs0, inputs1)
            <==> (l == level + 1 ==> OutsideHull(files, inputs0 + inputs1))
  {
    hide GoodTable, Layered, LevelsEntries, FilesEntries, Rest, Clear, BySmallest, AllBefore, AllAfter, Newer;
    StillNewer(levels, levels', l, files, level, inputs0);
    forall f | f in files ensures f !in inputs1 {
      FlushedIsNoInput(levels, level + 1, inputs1, files, f);
    }
  }

  lemma FlushKeepsBase(levels: Levels, levels': Levels, l: nat, files: seq<File>, level: nat, inputs0: seq<File>,
                       inputs1: seq<File>, e: Entry)
    requires Flushes(levels, levels', l, files) && level + 1 < NUM_LEVELS
    requires GoodInputs(levels[level], levels[level + 1], inputs0, inputs1) && e in Input(inputs0, inputs1)
    ensures BaseLevel(levels', level, e.key.user) <==> BaseLevel(levels, level, e.key.user)
  {
    hide GoodTable, Layered, LevelsEntries, FilesEntries, Rest, BySmallest, AllBefore, AllAfter, Newer;
    var k := e.key.user;
    var g := InputFile(inputs0, inputs1, e);
    forall m, f: File | level + 2 <= m < NUM_LEVELS && f in levels'[m] && f !in levels[m] ensures !Covers(f, k) {
      assert f in files && m == l && l > level + 1;
      assert if g in inputs0 then g in levels[level] else g in levels[level + 1];
    }
    BaseByFiles(levels, level, k);
    BaseByFiles(levels', level, k);
  }

  lemma BaseByFiles(levels: Levels, level: nat, k: UserKey)
    ensures BaseLevel(levels, level, k) <==> forall m, f: File :: level + 2 <= m < |levels| && f in levels[m] ==>
              !Covers(f, k)
  {
  }

  lemma {:induction false} KeptSame(input: seq<Entry>, s: nat, base: UserKey -> bool, base': UserKey -> bool, n: nat)
    requires n <= |input| && forall e :: e in input ==> (base'(e.key.user) <==> base(e.key.user))
    ensures Kept(input, s, base', n) == Kept(input, s, base, n)
  {
    if n > 0 {
      KeptSame(input, s, base, base', n - 1);
      assert input[n - 1] in input;
    }
  }

  lemma FilesStay(levels: Levels, levels': Levels, l: nat, files: seq<File>, level: nat, inputs0: seq<File>,
                  inputs1: seq<File>, m: nat)
    requires Added(levels, levels', l, files) && level + 1 < NUM_LEVELS && m < NUM_LEVELS
    ensures var old', new' := Staying(levels, level, inputs0, inputs1), Staying(levels', level, inputs0, inputs1);
            && (forall f :: f in old'[m] ==> f in new'[m])
            && (forall f :: f in new'[m] ==> f in old'[m] || f in files)
  {
    hide GoodTable, Rest, BySmallest;
    var inputs := if m == level then inputs0 else inputs1;
    forall f ensures f in Rest(levels'[m], inputs) <==> f in levels'[m] && f !in inputs {
      RestMember(levels'[m], inputs, f);
    }
    forall f ensures f in Rest(levels[m], inputs) <==> f in levels[m] && f !in inputs {
      RestMember(levels[m], inputs, f);
    }
  }

  /** What stays afterwards is what stayed before, and what was flushed. */
  lemma FlushStays(levels: Levels, levels': Levels, l: nat, files: seq<File>, level: nat, inputs0: seq<File>,
                   inputs1: seq<File>)
    requires Flushes(levels, levels', l, files) && level + 1 < NUM_LEVELS
    requires GoodInputs(levels[level], levels[level + 1], inputs0, inputs1)
    ensures var before, after := LevelsEntries(Staying(levels, level, inputs0, inputs1)),
            LevelsEntries(Staying(levels', level, inputs0, inputs1));
            before <= after <= before + FilesEntries(files)
  {
    hide GoodTable, Layered, LevelsEntries, FilesEntries, Rest, BySmallest, AllBefore, AllAfter, Newer, Clear;
    var old', new' := Staying(levels, level, inputs0, inputs1), Staying(levels', level, inputs0, inputs1);
    forall e | e in LevelsEntries(old') ensures e in LevelsEntries(new') {
      var m := LevelOf(old', e);
      FilesStay(levels, levels', l, files, level, inputs0, inputs1, m);
      FilesSubset(old'[m], new'[m], e);
      LevelMember(new', m, e);
    }
    forall e | e in LevelsEntries(new') ensures e in LevelsEntries(old') + FilesEntries(files) {
      var m := LevelOf(new', e);
      FilesStay(levels, levels', l, files, level, inputs0, inputs1, m);
      var i := FileOf(new'[m], e);
      var f := new'[m][i];
      if f in old'[m] {
        var j :| 0 <= j < |old'[m]| && old'[m][j] == f;
        HasEntry(old'[m], j, e);
        LevelMember(old', m, e);
      } else {
        var j :| 0 <= j < |files| && files[j] == f;
        HasEntry(files, j, e);
      }
    }
  }

  lemma StillCovered(input: seq<Entry>, s: nat, base: UserKey -> bool, base': UserKey -> bool, before: set<Entry>,
                     after: set<Entry>, newer: set<Entry>)
    requires forall e :: e in input ==> (base'(e.key.user) <==> base(e.key.user))
    requires before <= after <= before + newer && Newer(newer, Elements(input)) && DistinctKeys(before)
    requires NothingUncovered(input, s, base, before)
    ensures NothingUncovered(input, s, base', after)
  {
    hide Newest;
    forall i | 0 <= i < |input| && Obsolete(base', input[i], s) && !Hidden(input, s, i)
      ensures !Uncovers(input[i], s, after)
    {
      var t := input[i];
      assert t in input && t in Elements(input);
      if Uncovers(t, s, after) {
        var c := Newest(after, t.key.user, s).value;
        assert IsNewest(before, t.key.user, s, c);
        NewestIs(before, t.key.user, s, c);
      }
    }
  }

  /** A flush uncovers nothing either. */
  lemma FlushKeepsHarmless(levels: Levels, levels': Levels, l: nat, files: seq<File>, level: nat, inputs0: seq<File>,
                           inputs1: seq<File>, input: seq<Entry>, s: nat)
    requires Flushes(levels, levels', l, files) && level + 1 < NUM_LEVELS
    requires GoodInputs(levels[level], levels[level + 1], inputs0, inputs1)
             && Elements(input) == Input(inputs0, inputs1)
    ensures Kept(input, s, BaseOf(levels', level), |input|) == Kept(input, s, BaseOf(levels, level), |input|)
    ensures NothingUncovered(input, s, BaseOf(levels, level), LevelsEntries(Staying(levels, level, inputs0, inputs1)))
            ==> NothingUncovered(input, s, BaseOf(levels', level),
                                 LevelsEntries(Staying(levels', level, inputs0, inputs1)))
  {
    hide GoodTable, Layered, LevelsEntries, FilesEntries, Rest, BySmallest, AllBefore, AllAfter, Newer, Clear,
         Staying, BaseLevel, Kept, NothingUncovered;
    var base, base' := BaseOf(levels, level), BaseOf(levels', level);
    forall e | e in input ensures base'(e.key.user) <==> base(e.key.user) {
      assert e in Elements(input);
      FlushKeepsBase(levels, levels', l, files, level, inputs0, inputs1, e);
    }
    KeptSame(input, s, base, base', |input|);
    FlushStays(levels, levels', l, files, level, inputs0, inputs1);
    LevelsDistinct(levels);
    EntriesBefore(levels, level, inputs0, inputs1);
    NewerPartBelow(FilesEntries(files), LevelsEntries(levels), Elements(input));
    var before, after := LevelsEntries(Staying(levels, level, inputs0, inputs1)),
        LevelsEntries(Staying(levels', level, inputs0, inputs1));
    if NothingUncovered(input, s, base, before) {
      StillCovered(input, s, base, base', before, after, FilesEntries(files));
    }
  }

  lemma NewerPartBelow(a: set<Entry>, b: set<Entry>, part: set<Entry>)
    requires Newer(a, b) && part <= b
    ensures Newer(a, part)
  {
  }

  // ----- Steps of other threads, and of the compaction itself

  predicate Concurrent(step: Step) {
    || step.LogBatchStep? || step.ApplyBatchStep? || step.SwitchMemtableStep? || step.BuildFlushStep?
        || step.WriteOutputStep?
    || step.CommitFlushStep? || step.TakeSnapshotStep? || step.ReleaseSnapshotStep?
  }

  /** The step does not flush into the hull of the inputs at the level that the outputs go to. */
  ghost predicate AvoidsHull(s: State, step: Step, level: nat, inputs0: seq<File>, inputs1: seq<File>) {
    step.CommitFlushStep? && step.level == level + 1 && s.memory.Some? && s.memory.value.flushing.Some?
    ==> OutsideHull(s.memory.value.flushing.value, inputs0 + inputs1)
  }

  lemma FlushStep(s: State, s': State, l: nat, manifest: Manifest)
    requires Inv(s) && CommitFlush(s, s', l, manifest)
    ensures Flushes(s.disk.manifest.levels, s'.disk.manifest.levels, l, s.memory.value.flushing.value)
    ensures |s'.disk.manifest.levels| == NUM_LEVELS
  {
    hide Layered, SameViews, Sorted, LevelsEntries, Consecutive, GoodTable, LastSequence, Entries, Replay, Clear,
         FilesEntries, BySmallest, Recoverable, LogsMeaning;
    var t := s.trace;
    StretchNewer(t.history, 0, t.flushed, t.switched, LevelsEntries(s.disk.manifest.levels));
  }

  lemma QuietStep(s: State, s': State, step: Step)
    requires Next(s, s', step) && Concurrent(step) && !step.CommitFlushStep? && Inv(s)
    ensures s.memory.Some? && s'.memory.Some? && s'.disk.manifest == s.disk.manifest
    ensures s.memory.value.lastSequence <= s'.memory.value.lastSequence
    ensures forall t :: t in s'.memory.value.snapshots ==>
              t in s.memory.value.snapshots || t == s.memory.value.lastSequence
  {
    hide Inv, GoodTable, Sorted, Added, OpEntries, FilesEntries;
  }

  /** A compaction under way stays legal and harmless, and keeps the same entries, through whatever else happens:
      legal exactly unless a flush puts a file between its inputs at the level that its outputs go to. */
  lemma CompactionUndisturbed(s: State, s': State, step: Step, level: nat, inputs0: seq<File>, inputs1: seq<File>,
                              input: seq<Entry>, smallest: nat)
    requires Inv(s) && Next(s, s', step) && Concurrent(step) && Chosen(s, level, inputs0, inputs1, input, smallest)
    ensures Chosen(s', level, inputs0, inputs1, input, smallest) <==> AvoidsHull(s, step, level, inputs0, inputs1)
    ensures level + 1 < |s'.disk.manifest.levels|
    ensures Harmless(s, level, inputs0, inputs1, input, smallest) ==>
              Harmless(s', level, inputs0, inputs1, input, smallest)
    ensures Kept(input, smallest, BaseOf(s'.disk.manifest.levels, level), |input|)
            == Kept(input, smallest, BaseOf(s.disk.manifest.levels, level), |input|)
  {
    hide Inv, GoodInputs, Sorted, Kept, BaseOf, NothingUncovered, LevelsEntries, Staying, Captured, Added, Clear,
         OutsideHull, Input;
    if step.CommitFlushStep? {
      hide Elements;
      var levels, levels', files := s.disk.manifest.levels, s'.disk.manifest.levels, s.memory.value.flushing.value;
      FlushStep(s, s', step.level, step.manifest);
      FlushKeepsInputs(levels, levels', step.level, files, level, inputs0, inputs1);
      FlushKeepsHarmless(levels, levels', step.level, files, level, inputs0, inputs1, input, smallest);
    } else {
      QuietStep(s, s', step);
    }
  }

  lemma FlushedIsNoOutput(s: State, s': State, l: nat, manifest: Manifest, outputs: seq<File>)
    requires Inv(s) && CommitFlush(s, s', l, manifest) && Written(s, outputs)
    requires FilesEntries(outputs) <= LevelsEntries(s.disk.manifest.levels)
    ensures Written(s', outputs)
  {
    hide Layered, SameViews, Sorted, LevelsEntries, Consecutive, GoodTable, LastSequence, Entries, Replay, Clear,
         FilesEntries, BySmallest, Recoverable, LogsMeaning, VersionMeaning, MemoryMeaning, GoodTrace, Captured;
    var levels, levels', files := s.disk.manifest.levels, s'.disk.manifest.levels, s.memory.value.flushing.value;
    FlushStep(s, s', l, manifest);
    forall f: File | f in outputs ensures !InVersion(levels', f.number) {
      if InVersion(levels', f.number) {
        var m, i :| 0 <= m < |levels'| && 0 <= i < |levels'[m]| && levels'[m][i].number == f.number;
        var g := levels'[m][i];
        assert g in levels'[m];
        if g !in levels[m] {
          assert g == f;
          var j :| 0 <= j < |outputs| && outputs[j] == f;
          HasEntry(outputs, j, f.run[0]);
          var k :| 0 <= k < |files| && files[k] == f;
          HasEntry(files, k, f.run[0]);
        }
      }
    }
  }

  lemma WrittenStays(s: State, s': State, step: Step, outputs: seq<File>)
    requires Inv(s) && Next(s, s', step) && Concurrent(step) && Written(s, outputs)
    requires FilesEntries(outputs) <= LevelsEntries(s.disk.manifest.levels)
    ensures Written(s', outputs)
  {
    hide Layered, SameViews, Sorted, LevelsEntries, Consecutive, GoodTable, LastSequence, Entries, Replay, Clear,
         FilesEntries, BySmallest, Recoverable, LogsMeaning, VersionMeaning, MemoryMeaning, GoodTrace, Captured,
         InVersion, Added, OpEntries;
    if step.CommitFlushStep? {
      FlushedIsNoOutput(s, s', step.level, step.manifest, outputs);
    }
  }

  /** A compaction that has written its outputs and waits for its installation. */
  ghost predicate Pending(s: State, level: nat, inputs0: seq<File>, inputs1: seq<File>, input: seq<Entry>,
                          smallest: nat, outputs: seq<File>) {
    && Chosen(s, level, inputs0, inputs1, input, smallest) && Harmless(s, level, inputs0, inputs1, input, smallest)
    && Written(s, outputs)
    && FilesEntries(outputs) == Elements(Kept(input, smallest, BaseOf(s.disk.manifest.levels, level), |input|))
  }

  /** So the outputs can be installed after any number of steps of other threads, and of flushes outside the hull. */
  lemma {:induction false} PendingUndisturbed(run: seq<State>, steps: seq<Step>, level: nat, inputs0: seq<File>,
                                              inputs1: seq<File>, input: seq<Entry>, smallest: nat, outputs: seq<File>,
                                              n: nat)
    requires Path(run, steps) && n < |run| && Inv(run[0])
    requires forall i :: 0 <= i < n ==> Concurrent(steps[i]) && AvoidsHull(run[i], steps[i], level, inputs0, inputs1)
    requires Pending(run[0], level, inputs0, inputs1, input, smallest, outputs)
    ensures Inv(run[n]) && Pending(run[n], level, inputs0, inputs1, input, smallest, outputs)
  {
    hide Inv, Next, Chosen, Harmless, Written, Kept, BaseOf, FilesEntries, AvoidsHull, Elements;
    PathInv(run, steps, n);
    if n > 0 {
      PendingUndisturbed(run, steps, level, inputs0, inputs1, input, smallest, outputs, n - 1);
      PathInv(run, steps, n - 1);
      CompactionUndisturbed(run[n - 1], run[n], steps[n - 1], level, inputs0, inputs1, input, smallest);
      OutputsInVersion(run[n - 1], level, inputs0, inputs1, input, smallest, outputs);
      WrittenStays(run[n - 1], run[n], steps[n - 1], outputs);
    }
  }

  lemma OutputsInVersion(s: State, level: nat, inputs0: seq<File>, inputs1: seq<File>, input: seq<Entry>, smallest: nat,
                         outputs: seq<File>)
    requires Chosen(s, level, inputs0, inputs1, input, smallest)
    requires FilesEntries(outputs) == Elements(Kept(input, smallest, BaseOf(s.disk.manifest.levels, level), |input|))
    ensures FilesEntries(outputs) <= LevelsEntries(s.disk.manifest.levels)
  {
    hide GoodTable, FilesEntries, LevelsEntries, Kept, Staying, Newer, AllBefore, AllAfter;
    var levels := s.disk.manifest.levels;
    KeptSubset(input, smallest, BaseOf(levels, level));
    EntriesBefore(levels, level, inputs0, inputs1);
  }

  // ----- A flush into the hull

  const C: UserKey := 3.0

  const LEFT: File := Table(1, 1, [Value(A, 1)])
  const RIGHT: File := Table(2, 1, [Value(C, 2)])
  const BETWEEN: File := Table(3, 1, [Value(B, 3)])
  const WHOLE: File := Table(4, 1, [Value(A, 1), Value(C, 2)])

  const GAP: Levels := [[], [LEFT, RIGHT], [], [], [], [], []]
  const FILLED: Levels := [[], [LEFT, RIGHT], [BETWEEN], [], [], [], []]

  lemma GapLayered()
    ensures Layered(GAP) && LevelsEntries(GAP) == {Value(A, 1), Value(C, 2)}
  {
    hide FilesEntries, LevelsEntries;
    NoFiles();
    TwoFiles(LEFT, RIGHT);
    forall e ensures e in LevelsEntries(GAP) <==> e in {Value(A, 1), Value(C, 2)} {
      if e in LevelsEntries(GAP) {
        var l := LevelOf(GAP, e);
        assert l == 1;
      } else if e in FilesEntries(GAP[1]) {
        LevelMember(GAP, 1, e);
      }
    }
  }

  lemma GapInputs()
    ensures Selected(GAP[1], 2, None, None) == [LEFT, RIGHT] && StartInputs(GAP[1], 1, [LEFT, RIGHT])
    ensures GoodInputs(GAP[1], GAP[2], [LEFT, RIGHT], [])
  {
    hide FilesEntries;
    assert GAP[1] == GAP[1][0..2];
    assert Selected(GAP[1], 1, None, None) == [LEFT];
    assert [LEFT, RIGHT][..1] == [LEFT] && [LEFT][..0] == [];
    assert Rest([LEFT], [LEFT, RIGHT]) == [] && Rest([LEFT, RIGHT], [LEFT, RIGHT]) == [];
    NoFiles();
  }

  lemma GapFlush()
    ensures Added(GAP, FILLED, 2, [BETWEEN]) && Clear(GAP, 2, [BETWEEN])
    ensures !OutsideHull([BETWEEN], [LEFT, RIGHT])
  {
    assert BETWEEN in [BETWEEN] && LEFT in [LEFT, RIGHT] && RIGHT in [LEFT, RIGHT];
  }

  lemma Overlapping(levels': Levels)
    requires Installed(FILLED, levels', 1, [LEFT, RIGHT], [], [WHOLE])
    ensures !SortedDisjoint(levels'[2])
  {
    assert BETWEEN in Rest([BETWEEN], []) && WHOLE in [WHOLE];
    assert BETWEEN in levels'[2] && WHOLE in levels'[2];
  }

  /** That can happen.  A manual compaction of level 1 takes two files with a gap between them; a flush meets no file
      of levels 0 to 2 and goes into the gap at level 2; then the output of the compaction overlaps the new file. */
  lemma FlushIntoGap(levels': Levels)
    requires Installed(FILLED, levels', 1, [LEFT, RIGHT], [], [WHOLE])
    ensures Selected(GAP[1], 2, None, None) == [LEFT, RIGHT] && StartInputs(GAP[1], 1, [LEFT, RIGHT])
    ensures GoodInputs(GAP[1], GAP[2], [LEFT, RIGHT], [])
    ensures Flushes(GAP, FILLED, 2, [BETWEEN]) && !OutsideHull([BETWEEN], [LEFT, RIGHT])
    ensures !Layered(levels')
  {
    hide FilesEntries, LevelsEntries, GoodInputs, StartInputs, Selected, Added, Clear, OutsideHull, SortedDisjoint;
    GapLayered();
    GapInputs();
    GapFlush();
    OneFile(BETWEEN);
    Overlapping(levels');
  }
}
