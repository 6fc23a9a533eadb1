/** A run of the database that ends in the version of UncoveredTombstone: a key is written and deleted, with a snapshot
    in between that makes a compaction keep both entries, in two files of its output level. */
module TombstoneRun {
  import opened Keys
  import opened Versions
  import opened CompactionInputs
  import opened CompactionWork
  import opened Histories
  import opened Lsm
  import opened Recovery
  import opened UncoveredTombstone
  import opened Databases

  const FIRST: Batch := Batch(1, [Put(B, []), Put(A, [])])
  const SECOND: Batch := Batch(3, [Delete(B)])
  const THIRD: Batch := Batch(4, [Put(A, [])])

  const WRITTEN: seq<Entry> := [Value(A, 2), Value(B, 1)]
  const DELETED: seq<Entry> := [Value(A, 2), Tombstone(B, 3), Value(B, 1)]
  const FLUSHED: File := Table(4, 1, DELETED)

  const NO_FILES: Levels := [[], [], [], [], [], [], []]
  const ONE_FILE: Levels := [[], [], [FLUSHED], [], [], [], []]
  const TWO_FILES: Levels := [[], [], [], [FILE2, FILE3], [], [], []]

  /** The steps as functions of the state, where they leave no choice. */
  function Logged(s: State, b: Batch): State
    requires s.memory.Some? && s.memory.value.logNumber in s.disk.logs
  {
    var log := s.memory.value.logNumber;
    s.(disk := s.disk.(logs := s.disk.logs[log := s.disk.logs[log] + [b]]),
       trace := s.trace.(history := s.trace.history + [b]))
  }

  function Applied(s: State, run: seq<Entry>, count: nat): State
    requires s.memory.Some?
  {
    s.(memory := Some(s.memory.value.(mem := run, lastSequence := s.memory.value.lastSequence + count)),
       trace := s.trace.(applied := s.trace.applied + 1))
  }

  function Switched(s: State): State
    requires s.memory.Some?
  {
    var m := s.memory.value;
    s.(disk := s.disk.(logs := s.disk.logs[m.nextFile := []]),
       memory := Some(m.(mem := [], imm := Some(m.mem), logNumber := m.nextFile, nextFile := m.nextFile + 1)),
       trace := s.trace.(switched := s.trace.applied))
  }

  function Built(s: State, f: File): State
    requires s.memory.Some?
  {
    var m := s.memory.value;
    s.(disk := s.disk.(tables := s.disk.tables[m.nextFile := f]),
       memory := Some(m.(flushing := Some([f]), nextFile := m.nextFile + 1)))
  }

  function Committed(s: State, manifest: Manifest): State
    requires s.memory.Some?
  {
    s.(disk := s.disk.(manifest := manifest), memory := Some(s.memory.value.(imm := None, flushing := None)),
       trace := s.trace.(flushed := s.trace.switched))
  }

  function Output(s: State, f: File): State
    requires s.memory.Some?
  {
    var m := s.memory.value;
    s.(disk := s.disk.(tables := s.disk.tables[f.number := f]),
       memory := Some(m.(nextFile := m.nextFile + 1, pendingOutputs := m.pendingOutputs + {f.number})))
  }

  function Snapshots(s: State, snapshots: set<nat>): State
    requires s.memory.Some?
  {
    s.(memory := Some(s.memory.value.(snapshots := snapshots)))
  }

  const S0: State := State(Disk(map[], map[], Manifest(seq(NUM_LEVELS, i => []), 0, 2, 0)), None, Trace([], 0, 0, 0, 0))
  const S1: State := State(Disk(map[][2 := []], map[], Manifest(NO_FILES, 2, 3, 0)),
                           Some(Memory([], None, None, 2, 3, 0, {}, {})), Trace([], 0, 0, 0, 0))
  // the first batch, a snapshot, the second batch, and a flush to level 2
  const S2: State := Logged(S1, FIRST)
  const S3: State := Applied(S2, WRITTEN, 2)
  const S4: State := Snapshots(S3, S3.memory.value.snapshots + {2})
  const S5: State := Logged(S4, SECOND)
  const S6: State := Applied(S5, DELETED, 1)
  const S7: State := Switched(S6)
  const S8: State := Built(S7, FLUSHED)
  const S9: State := Committed(S8, Manifest(ONE_FILE, 3, 5, 3))
  // a compaction to level 3, into two files
  const S10: State := Output(S9, FILE2)
  const S11: State := Output(S10, FILE3)
  const S12: State := S11.(disk := S11.disk.(manifest := Manifest(TWO_FILES, 3, 7, 3)),
                           trace := S11.trace.(horizon := 2))
  // the third batch, flushed to level 2, and the snapshot is given back
  const S13: State := Logged(S12, THIRD)
  const S14: State := Applied(S13, RUN1, 1)
  const S15: State := Switched(S14)
  const S16: State := Built(S15, FILE1)
  const S17: State := Committed(S16, Manifest(LEVELS, 7, 9, 4))
  const S18: State := Snapshots(S17, S17.memory.value.snapshots - {2})

  lemma Start()
    ensures Init(S0) && Next(S0, S1, RecoverStep([], 2, 2, 0, NO_FILES))
  {
    assert NO_FILES == seq(NUM_LEVELS, i => []);
    NoFiles();
    assert Added(NO_FILES, NO_FILES, 0, []);
  }

  lemma WriteFirst()
    ensures Next(S1, S2, LogBatchStep(FIRST)) && Next(S2, S3, ApplyBatchStep(WRITTEN)) && Next(S3, S4, TakeSnapshotStep)
  {
    assert OpEntries(FIRST, 1) == {Value(B, 1)};
    assert OpEntries(FIRST, 2) == {Value(B, 1), Value(A, 2)};
  }

  lemma WriteSecond()
    ensures Next(S4, S5, LogBatchStep(SECOND)) && Next(S5, S6, ApplyBatchStep(DELETED))
            && Next(S6, S7, SwitchMemtableStep)
  {
    assert OpEntries(SECOND, 0) == {};
    assert OpEntries(SECOND, 1) == {Tombstone(B, 3)};
    assert S5.trace.history[1] == SECOND;
  }

  lemma Sequences()
    ensures LastSequence([FIRST, SECOND], 2) == 3 && LastSequence([FIRST, SECOND, THIRD], 3) == 4
  {
    var h := [FIRST, SECOND, THIRD];
    assert LastSequence(h, 1) == 2 && LastSequence(h, 2) == 3;
    EntriesStable([FIRST, SECOND], h, 2, 2);
  }

  lemma Flush()
    ensures Next(S7, S8, BuildFlushStep([FLUSHED])) && Next(S8, S9, CommitFlushStep(2, Manifest(ONE_FILE, 3, 5, 3)))
  {
    Sequences();
    assert S8.trace.history == [FIRST, SECOND];
  }

  lemma Outputs()
    ensures Next(S9, S10, WriteOutputStep(FILE2)) && Next(S10, S11, WriteOutputStep(FILE3))
  {
  }

  lemma AllLeave()
    ensures Rest([FLUSHED], [FLUSHED]) == [] && Rest([], []) == []
  {
    assert [FLUSHED][..0] == [];
  }

  /** With the snapshot at 2 alive, nothing is dropped. */
  lemma AllKept(base: UserKey -> bool)
    ensures Kept(DELETED, 2, base, 3) == DELETED && NothingUncovered(DELETED, 2, base, {})
  {
    assert Kept(DELETED, 2, base, 1) == [Value(A, 2)];
    assert Kept(DELETED, 2, base, 2) == [Value(A, 2), Tombstone(B, 3)];
  }

  lemma FlushedIsInput()
    ensures GoodInputs(ONE_FILE[2], ONE_FILE[3], [FLUSHED], []) && Elements(DELETED) == Input([FLUSHED], [])
  {
    hide FilesEntries;
    AllLeave();
    OneFile(FLUSHED);
    NoFiles();
  }

  lemma OutputsInstalled()
    ensures Installed(ONE_FILE, TWO_FILES, 2, [FLUSHED], [], [FILE2, FILE3])
    ensures SortedDisjoint([FILE2, FILE3]) && FilesEntries([FILE2, FILE3]) == Elements(DELETED)
  {
    AllLeave();
    TwoFiles(FILE2, FILE3);
  }

  lemma Compact()
    ensures Next(S11, S12, CommitCompactionStep(2, [FLUSHED], [], DELETED, [FILE2, FILE3], 2,
                                                Manifest(TWO_FILES, 3, 7, 3)))
  {
    hide LevelsEntries, FilesEntries, Kept, NothingUncovered, BaseOf, Staying, GoodInputs, Installed, SortedDisjoint;
    FlushedIsInput();
    OutputsInstalled();
    NothingStays();
    AllKept(BaseOf(ONE_FILE, 2));
  }

  lemma NothingStays()
    ensures LevelsEntries(Staying(ONE_FILE, 2, [FLUSHED], [])) == {}
  {
    hide FilesEntries;
    AllLeave();
    NoFiles();
    var staying := Staying(ONE_FILE, 2, [FLUSHED], []);
    forall e ensures e !in LevelsEntries(staying) {
      if e in LevelsEntries(staying) {
        var l := LevelOf(staying, e);
      }
    }
  }

  lemma WriteAgain()
    ensures Next(S12, S13, LogBatchStep(THIRD)) && Next(S13, S14, ApplyBatchStep(RUN1))
            && Next(S14, S15, SwitchMemtableStep)
  {
    assert OpEntries(THIRD, 0) == {};
    assert OpEntries(THIRD, 1) == {Value(A, 4)};
    assert S13.trace.history[2] == THIRD;
  }

  lemma BuildAgain()
    ensures Next(S15, S16, BuildFlushStep([FILE1])) && Next(S17, S18, ReleaseSnapshotStep(2))
  {
  }

  lemma FlushAgain()
    ensures Next(S16, S17, CommitFlushStep(2, Manifest(LEVELS, 7, 9, 4)))
  {
    Sequences();
    assert S16.trace.history == [FIRST, SECOND, THIRD];
  }

  const STEPS: seq<Step> :=
    [RecoverStep([], 2, 2, 0, NO_FILES), LogBatchStep(FIRST), ApplyBatchStep(WRITTEN), TakeSnapshotStep,
     LogBatchStep(SECOND), ApplyBatchStep(DELETED), SwitchMemtableStep, BuildFlushStep([FLUSHED]),
         CommitFlushStep(2, Manifest(ONE_FILE, 3, 5, 3)),
     WriteOutputStep(FILE2), WriteOutputStep(FILE3),
     CommitCompactionStep(2, [FLUSHED], [], DELETED, [FILE2, FILE3], 2, Manifest(TWO_FILES, 3, 7, 3)),
     LogBatchStep(THIRD), ApplyBatchStep(RUN1), SwitchMemtableStep, BuildFlushStep([FILE1]),
     CommitFlushStep(2, Manifest(LEVELS, 7, 9, 4)), ReleaseSnapshotStep(2)]

  const RUN: seq<State> := [S0, S1, S2, S3, S4, S5, S6, S7, S8, S9, S10, S11, S12, S13, S14, S15, S16, S17, S18]

  /** The version in which a compaction uncovers a deleted value arises in a run. */
  lemma VersionArises()
    ensures Run(RUN, STEPS) && RUN[18].disk.manifest.levels == LEVELS
    ensures RUN[18].memory.Some? && RUN[18].memory.value.snapshots == {} && RUN[18].memory.value.lastSequence == 4
  {
    hide Next, Init;
    Start();
    WriteFirst();
    WriteSecond();
    Flush();
    Outputs();
    Compact();
    WriteAgain();
    BuildAgain();
    FlushAgain();
  }

  /** There the compaction of level 2 is legal, with the last sequence number as its smallest snapshot, and not
      harmless: the key that was deleted last is found again. */
  lemma DeletedValueReturns()
    ensures Run(RUN, STEPS) && Chosen(RUN[18], 2, [FILE1], [FILE2], MERGED, 4)
    ensures !Harmless(RUN[18], 2, [FILE1], [FILE2], MERGED, 4)
    ensures View(Newest(LevelsEntries(RUN[18].disk.manifest.levels), B, 4)) == None
    ensures forall levels', outputs :: Installed(RUN[18].disk.manifest.levels, levels', 2, [FILE1], [FILE2], outputs)
                                       && FilesEntries(outputs) == Elements(Kept(MERGED, 4, BaseOf(LEVELS, 2), 3))
              ==> View(Newest(LevelsEntries(levels'), B, 4)) == Some([])
  {
    hide Run, GoodInputs, LevelsEntries, FilesEntries, Staying, Installed, Kept, Newest, NothingUncovered, Sorted;
    VersionArises();
    TombstoneUncoversValue();
  }
}
