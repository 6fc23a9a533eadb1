/** db_impl.cc: the database as a state machine over its durable and volatile steps, with crashes. */
module Databases {
  import opened Keys
  import opened Versions
  import opened CompactionInputs
  import opened CompactionWork
  import opened Histories
  import opened Lsm
  import opened Recovery

  /** What the manifest records: the current version and the counters that recovery starts from. */
  datatype Manifest = Manifest(levels: Levels, logNumber: nat, nextFile: nat, lastSequence: nat)

  datatype Disk = Disk(logs: map<nat, seq<Batch>>, tables: map<nat, File>, manifest: Manifest)

  /** What a crash loses.  flushing is the table built from imm, if it is built. */
  datatype Memory = Memory(mem: seq<Entry>, imm: Option<seq<Entry>>, flushing: Option<seq<File>>, logNumber: nat,
                           nextFile: nat, lastSequence: nat, pendingOutputs: set<nat>, snapshots: set<nat>)

  /** Bookkeeping: every batch ever logged, in order; how many of them are in tables, were in logs before the
      current one, are in memory; and the oldest snapshot that compactions have respected. */
  datatype Trace = Trace(history: seq<Batch>, flushed: nat, switched: nat, applied: nat, horizon: nat)

  datatype State = State(disk: Disk, memory: Option<Memory>, trace: Trace)

  // ----- Invariants

  ghost predicate GoodTrace(t: Trace) {
    && t.flushed <= t.switched <= t.applied <= |t.history| <= t.applied + 1
    && Consecutive(t.history)
    && LastSequence(t.history, |t.history|) < MAX_SEQUENCE
    && t.horizon <= LastSequence(t.history, t.applied)
  }

  /** Recovery finds what it needs: every file of the version, and the batches that are not in it, in its logs. */
  ghost predicate Recoverable(d: Disk, t: Trace)
    requires GoodTrace(t)
  {
    && (forall l, i :: 0 <= l < |d.manifest.levels| && 0 <= i < |d.manifest.levels[l]| ==>
            OnDisk(d, d.manifest.levels[l][i]))
    && (forall to :: d.manifest.logNumber <= to && (forall n :: n in d.logs ==> n < to) ==>
                       Replay(d.logs, d.manifest.logNumber, to) == t.history[t.flushed..])
  }

  ghost predicate OnDisk(d: Disk, f: File) {
    f.number < d.manifest.nextFile && f.number in d.tables && d.tables[f.number] == f
  }

  /** The version means the flushed part of the history, to readers at the horizon or later. */
  ghost predicate VersionMeaning(d: Disk, t: Trace)
    requires GoodTrace(t)
  {
    && Layered(d.manifest.levels) && BySmallest(d.manifest.levels[0])
    && LevelsEntries(d.manifest.levels) <= Entries(t.history, 0, t.flushed)
    && SameViews(Entries(t.history, 0, t.flushed), LevelsEntries(d.manifest.levels), t.horizon)
    && LastSequence(t.history, t.flushed) <= d.manifest.lastSequence <= LastSequence(t.history, t.applied)
  }

  ghost predicate MemoryMeaning(m: Memory, t: Trace)
    requires GoodTrace(t)
  {
    && Sorted(m.mem) && Elements(m.mem) == Entries(t.history, t.switched, t.applied)
    && (m.imm.None? ==> t.flushed == t.switched && m.flushing.None?)
    && (m.imm.Some? ==> Sorted(m.imm.value) && Elements(m.imm.value) == Entries(t.history, t.flushed, t.switched))
    && m.lastSequence == LastSequence(t.history, t.applied)
    && forall s :: s in m.snapshots ==> t.horizon <= s <= m.lastSequence
  }

  /** The current log holds what was logged since the last switch, and no log is newer. */
  ghost predicate LogsMeaning(d: Disk, m: Memory, t: Trace)
    requires GoodTrace(t)
  {
    && d.manifest.logNumber <= m.logNumber < m.nextFile && d.manifest.nextFile <= m.nextFile
    && m.logNumber in d.logs && d.logs[m.logNumber] == t.history[t.switched..]
    && (forall n :: n in d.logs ==> n <= m.logNumber)
    && Replay(d.logs, d.manifest.logNumber, m.logNumber) == t.history[t.flushed..t.switched]
  }

  /** The table being flushed holds imm and is newer than all of level 0; all outputs being written are on disk. */
  ghost predicate FlushMeaning(d: Disk, m: Memory)
    requires |d.manifest.levels| == NUM_LEVELS
  {
    && (forall n :: n in m.pendingOutputs ==> n in d.tables && n < m.nextFile)
    && (m.flushing.Some? ==>
      && m.imm.Some? && |m.flushing.value| <= 1
      && FilesEntries(m.flushing.value) == Elements(m.imm.value)
      && forall f :: f in m.flushing.value ==>
           && f.number < m.nextFile && f.number in d.tables && d.tables[f.number] == f
           && forall g :: g in d.manifest.levels[0] ==> f.number > g.number)
  }

  ghost predicate Inv(s: State) {
    && GoodTrace(s.trace)
    && |s.disk.manifest.levels| == NUM_LEVELS && s.disk.manifest.logNumber < s.disk.manifest.nextFile
    && Recoverable(s.disk, s.trace)
    && VersionMeaning(s.disk, s.trace)
    && (s.memory.None? ==> s.trace.switched == s.trace.applied == |s.trace.history|)
    && (s.memory.Some? ==>
          && MemoryMeaning(s.memory.value, s.trace)
          && LogsMeaning(s.disk, s.memory.value, s.trace)
          && FlushMeaning(s.disk, s.memory.value))
  }

  // ----- Steps

  /** log_->AddRecord: the batch gets the next sequence numbers and becomes durable.  The largest number is never given
      out: compactions use it to mark the first occurrence of a key. */
  ghost predicate LogBatch(s: State, s': State, b: Batch) {
    && s.memory.Some? && s.trace.applied == |s.trace.history|
    && b.sequence == s.memory.value.lastSequence + 1 && s.memory.value.lastSequence + |b.ops| < MAX_SEQUENCE
    && var log := s.memory.value.logNumber;
       log in s.disk.logs && s' == s.(disk := s.disk.(logs := s.disk.logs[log := s.disk.logs[log] + [b]]),
                                      trace := s.trace.(history := s.trace.history + [b]))
  }

  /** InsertInto and SetLastSequence. */
  ghost predicate ApplyBatch(s: State, s': State, run: seq<Entry>) {
    && s.memory.Some? && s.trace.applied < |s.trace.history|
    && var b := s.trace.history[s.trace.applied];
       && Sorted(run) && Elements(run) == Elements(s.memory.value.mem) + OpEntries(b, |b.ops|)
       && s' == s.(memory := Some(s.memory.value.(mem := run, lastSequence := s.memory.value.lastSequence + |b.ops|)),
                   trace := s.trace.(applied := s.trace.applied + 1))
  }

  /** MakeRoomForWrite switches to a new memtable and a new log. */
  ghost predicate SwitchMemtable(s: State, s': State) {
    && s.memory.Some? && s.memory.value.imm.None? && s.trace.applied == |s.trace.history|
    && var m := s.memory.value;
       s' == s.(disk := s.disk.(logs := s.disk.logs[m.nextFile := []]),
                memory := Some(m.(mem := [], imm := Some(m.mem), logNumber := m.nextFile, nextFile := m.nextFile + 1)),
                trace := s.trace.(switched := s.trace.applied))
  }

  /** BuildTable writes imm to a new table file, unless it is empty. */
  ghost predicate BuildFlush(s: State, s': State, files: seq<File>) {
    && s.memory.Some? && s.memory.value.imm.Some? && s.memory.value.flushing.None?
    && var m := s.memory.value;
       && (if m.imm.value == [] then files == []
           else |files| == 1 && files[0].run == m.imm.value && files[0].number == m.nextFile)
       && var tables := if files == [] then s.disk.tables else s.disk.tables[m.nextFile := files[0]];
          s' == s.(disk := s.disk.(tables := tables),
                   memory := Some(m.(flushing := Some(files), nextFile := m.nextFile + 1)))
  }

  /** A compaction writes an output file. */
  ghost predicate WriteOutput(s: State, s': State, f: File) {
    && s.memory.Some?
    && var m := s.memory.value;
       && f.number == m.nextFile
       && s' == s.(disk := s.disk.(tables := s.disk.tables[f.number := f]),
                   memory := Some(m.(nextFile := m.nextFile + 1, pendingOutputs := m.pendingOutputs + {f.number})))
  }

  /** The manifest counters of an edit were read at some moment before the edit is written. */
  ghost predicate Captured(s: State, manifest: Manifest) {
    && s.memory.Some?
    && s.disk.manifest.nextFile <= manifest.nextFile <= s.memory.value.nextFile
    && manifest.lastSequence <= s.memory.value.lastSequence
    && forall l, f :: 0 <= l < |manifest.levels| && f in manifest.levels[l] ==> f.number < manifest.nextFile
  }

  /** CompactMemTable installs the table at a level at which it meets no file, and drops imm and its log. */
  ghost predicate CommitFlush(s: State, s': State, level: nat, manifest: Manifest) {
    && s.memory.Some? && s.memory.value.flushing.Some? && Captured(s, manifest)
    && var m, files := s.memory.value, s.memory.value.flushing.value;
       && Added(s.disk.manifest.levels, manifest.levels, level, files)
       && (level > 0 ==> Clear(s.disk.manifest.levels, level, files))
       && manifest.logNumber == m.logNumber < manifest.nextFile
       && s.trace.switched <= |s.trace.history|
       && LastSequence(s.trace.history, s.trace.switched) <= manifest.lastSequence
       && s' == s.(disk := s.disk.(manifest := manifest),
                   memory := Some(m.(imm := None, flushing := None)),
                   trace := s.trace.(flushed := s.trace.switched))
  }

  /** A compaction under way: its input files are legal for the current version, input is their merge, and smallest
      is not above any live snapshot. */
  ghost predicate Chosen(s: State, level: nat, inputs0: seq<File>, inputs1: seq<File>, input: seq<Entry>,
                         smallest: nat) {
    && s.memory.Some? && level + 1 < NUM_LEVELS == |s.disk.manifest.levels|
    && smallest <= s.memory.value.lastSequence && (forall t :: t in s.memory.value.snapshots ==> smallest <= t)
    && GoodInputs(s.disk.manifest.levels[level], s.disk.manifest.levels[level + 1], inputs0, inputs1)
    && Sorted(input) && Elements(input) == Input(inputs0, inputs1)
  }

  /** No tombstone that the compaction drops uncovers a value in a file that stays. */
  ghost predicate Harmless(s: State, level: nat, inputs0: seq<File>, inputs1: seq<File>, input: seq<Entry>,
                           smallest: nat)
    requires level + 1 < |s.disk.manifest.levels|
  {
    var levels := s.disk.manifest.levels;
    NothingUncovered(input, smallest, BaseOf(levels, level), LevelsEntries(Staying(levels, level, inputs0, inputs1)))
  }

  /** InstallCompactionResults.  That nothing is uncovered is what SetupOtherInputs does not establish. */
  ghost predicate CommitCompaction(s: State, s': State, level: nat, inputs0: seq<File>, inputs1: seq<File>,
                                   input: seq<Entry>, outputs: seq<File>, smallest: nat, manifest: Manifest) {
    && Chosen(s, level, inputs0, inputs1, input, smallest) && Harmless(s, level, inputs0, inputs1, input, smallest)
    && Captured(s, manifest)
    && s.disk.manifest.lastSequence <= manifest.lastSequence && manifest.logNumber == s.disk.manifest.logNumber
    && var levels := s.disk.manifest.levels;
       && SortedDisjoint(outputs)
       && FilesEntries(outputs) == Elements(Kept(input, smallest, BaseOf(levels, level), |input|))
       && (forall f :: f in outputs ==> f.number in s.memory.value.pendingOutputs
                                        && (f.number in s.disk.tables ==> s.disk.tables[f.number] == f))
       && Installed(levels, manifest.levels, level, inputs0, inputs1, outputs)
       && s' == s.(disk := s.disk.(manifest := manifest),
                   trace := s.trace.(horizon := if smallest > s.trace.horizon then smallest else s.trace.horizon))
  }

  /** A trivial move: the one input file changes its level. */
  ghost predicate CommitMove(s: State, s': State, level: nat, inputs0: seq<File>, manifest: Manifest) {
    && s.memory.Some? && Captured(s, manifest) && level + 1 < NUM_LEVELS == |s.disk.manifest.levels|
    && s.disk.manifest.lastSequence <= manifest.lastSequence && manifest.logNumber == s.disk.manifest.logNumber
    && |inputs0| == 1
    && GoodInputs(s.disk.manifest.levels[level], s.disk.manifest.levels[level + 1], inputs0, [])
    && Installed(s.disk.manifest.levels, manifest.levels, level, inputs0, [], inputs0)
    && s' == s.(disk := s.disk.(manifest := manifest))
  }

  /** CleanupCompaction: outputs stop being pending. */
  ghost predicate Cleanup(s: State, s': State, numbers: set<nat>) {
    && s.memory.Some?
    && s' == s.(memory := Some(s.memory.value.(pendingOutputs := s.memory.value.pendingOutputs - numbers)))
  }

  /** DeleteObsoleteFiles, stopped at any point: only logs below the manifest's log number go, and only tables that
      are neither in the version nor pending.  The one background thread is not in the middle of a flush. */
  ghost predicate DeleteObsolete(s: State, s': State, logs: map<nat, seq<Batch>>, tables: map<nat, File>) {
    && s.memory.Some? && s.memory.value.flushing.None?
    && logs.Keys <= s.disk.logs.Keys && (forall n :: n in logs ==> logs[n] == s.disk.logs[n])
    && tables.Keys <= s.disk.tables.Keys && (forall n :: n in tables ==> tables[n] == s.disk.tables[n])
    && (forall n :: n in s.disk.logs && n >= s.disk.manifest.logNumber ==> n in logs)
    && (forall n :: n in s.disk.tables && n in s.memory.value.pendingOutputs ==> n in tables)
    && (forall n :: n in s.disk.tables && InVersion(s.disk.manifest.levels, n) ==> n in tables)
    && s' == s.(disk := s.disk.(logs := logs, tables := tables))
  }

  ghost predicate InVersion(levels: Levels, number: nat) {
    exists l, i :: 0 <= l < |levels| && 0 <= i < |levels[l]| && levels[l][i].number == number
  }

  ghost predicate TakeSnapshot(s: State, s': State) {
    && s.memory.Some?
    && var m := s.memory.value; s' == s.(memory := Some(m.(snapshots := m.snapshots + {m.lastSequence})))
  }

  ghost predicate ReleaseSnapshot(s: State, s': State, t: nat) {
    s.memory.Some? && s' == s.(memory := Some(s.memory.value.(snapshots := s.memory.value.snapshots - {t})))
  }

  /** Everything volatile is lost.  A batch that was logged counts as written. */
  ghost predicate Crash(s: State, s': State) {
    && s.memory.Some?
    && s' == s.(memory := None, trace := s.trace.(applied := |s.trace.history|, switched := |s.trace.history|))
  }

  /** A recovery that crashes itself leaves new tables, or a new empty log, that nothing refers to. */
  ghost predicate StrayTable(s: State, s': State, f: File) {
    && s.memory.None? && f.number >= s.disk.manifest.nextFile
    && s' == s.(disk := s.disk.(tables := s.disk.tables[f.number := f]))
  }

  ghost predicate StrayLog(s: State, s': State, n: nat) {
    s.memory.None? && n !in s.disk.logs && s' == s.(disk := s.disk.(logs := s.disk.logs[n := []]))
  }

  /** DB::Open: the live logs become level-0 tables, a new log is started, and one edit commits both. */
  ghost predicate Recover(s: State, s': State, files: seq<File>, end: nat, newLog: nat, maxSequence: nat,
                          levels: Levels) {
    && s.memory.None? && s.trace.flushed <= |s.trace.history|
    && Recovered(files, s.trace.history, s.trace.flushed, |s.trace.history|, s.disk.manifest.nextFile, end)
    && (forall n :: n in s.disk.logs ==> n < newLog) && end <= newLog && s.disk.manifest.logNumber <= newLog
    && maxSequence <= LastSequence(s.trace.history, |s.trace.history|)
    && (s.trace.flushed < |s.trace.history| ==> maxSequence == LastSequence(s.trace.history, |s.trace.history|))
    && Added(s.disk.manifest.levels, levels, 0, files)
    && var was := s.disk.manifest.lastSequence;
       var lastSequence := if was < maxSequence then maxSequence else was;
       && (forall f :: f in files ==> f.number in s'.disk.tables && s'.disk.tables[f.number] == f)
       && (forall n :: n in s.disk.tables && n < s.disk.manifest.nextFile ==>
               n in s'.disk.tables && s'.disk.tables[n] == s.disk.tables[n])
       && s' == State(Disk(s.disk.logs[newLog := []], s'.disk.tables,
                           Manifest(levels, newLog, newLog + 1, lastSequence)),
                      Some(Memory([], None, None, newLog, newLog + 1, lastSequence, {}, {})),
                      s.trace.(flushed := |s.trace.history|))
  }

  datatype Step =
    | LogBatchStep(b: Batch)
    | ApplyBatchStep(run: seq<Entry>)
    | SwitchMemtableStep
    | BuildFlushStep(files: seq<File>)
    | WriteOutputStep(f: File)
    | CommitFlushStep(level: nat, manifest: Manifest)
    | CommitCompactionStep(level: nat, inputs0: seq<File>, inputs1: seq<File>, input: seq<Entry>, outputs: seq<File>,
                           smallest: nat, manifest: Manifest)
    | CommitMoveStep(level: nat, inputs0: seq<File>, manifest: Manifest)
    | CleanupStep(numbers: set<nat>)
    | DeleteObsoleteStep(logs: map<nat, seq<Batch>>, tables: map<nat, File>)
    | TakeSnapshotStep
    | ReleaseSnapshotStep(t: nat)
    | CrashStep
    | StrayTableStep(f: File)
    | StrayLogStep(n: nat)
    | RecoverStep(files: seq<File>, end: nat, newLog: nat, maxSequence: nat, levels: Levels)

  ghost predicate Next(s: State, s': State, step: Step) {
    match step
    case LogBatchStep(b) => LogBatch(s, s', b)
    case ApplyBatchStep(run) => ApplyBatch(s, s', run)
    case SwitchMemtableStep => SwitchMemtable(s, s')
    case BuildFlushStep(files) => BuildFlush(s, s', files)
    case WriteOutputStep(f) => WriteOutput(s, s', f)
    case CommitFlushStep(level, manifest) => CommitFlush(s, s', level, manifest)
    case CommitCompactionStep(level, inputs0, inputs1, input, outputs, smallest, manifest) =>
      CommitCompaction(s, s', level, inputs0, inputs1, input, outputs, smallest, manifest)
    case CommitMoveStep(level, inputs0, manifest) => CommitMove(s, s', level, inputs0, manifest)
    case CleanupStep(numbers) => Cleanup(s, s', numbers)
    case DeleteObsoleteStep(logs, tables) => DeleteObsolete(s, s', logs, tables)
    case TakeSnapshotStep => TakeSnapshot(s, s')
    case ReleaseSnapshotStep(t) => ReleaseSnapshot(s, s', t)
    case CrashStep => Crash(s, s')
    case StrayTableStep(f) => StrayTable(s, s', f)
    case StrayLogStep(n) => StrayLog(s, s', n)
    case RecoverStep(files, end, newLog, maxSequence, levels) => Recover(s, s', files, end, newLog, maxSequence, levels)
  }

  // ----- Logs

  lemma {:induction false} ReplaySplit(logs: map<nat, seq<Batch>>, from: nat, mid: nat, to: nat)
    requires from <= mid <= to
    ensures Replay(logs, from, to) == Replay(logs, from, mid) + Replay(logs, mid, to)
  {
    if mid < to {
      ReplaySplit(logs, from, mid, to - 1);
    }
  }

  lemma {:induction false} ReplayNothing(logs: map<nat, seq<Batch>>, from: nat, to: nat)
    requires from <= to && forall n :: from <= n < to && n in logs ==> logs[n] == []
    ensures Replay(logs, from, to) == []
  {
    if from < to {
      ReplayNothing(logs, from, to - 1);
    }
  }

  lemma {:induction false} ReplaySame(logs: map<nat, seq<Batch>>, logs': map<nat, seq<Batch>>, from: nat, to: nat)
    requires from <= to
    requires forall n :: from <= n < to ==> (n in logs <==> n in logs') && (n in logs ==> logs'[n] == logs[n])
    ensures Replay(logs', from, to) == Replay(logs, from, to)
  {
    if from < to {
      ReplaySame(logs, logs', from, to - 1);
    }
  }

  /** The live logs hold the batches that are not in tables. */
  lemma LiveLogs(d: Disk, m: Memory, t: Trace, to: nat)
    requires GoodTrace(t) && LogsMeaning(d, m, t) && d.manifest.logNumber <= to && forall n :: n in d.logs ==> n < to
    ensures Replay(d.logs, d.manifest.logNumber, to) == t.history[t.flushed..]
  {
    hide GoodTrace, Replay;
    TraceBounds(t);
    var from, mid := d.manifest.logNumber, m.logNumber;
    assert mid < to;
    ReplaySplit(d.logs, from, mid, to);
    ReplayOne(d.logs, mid, to);
    assert t.history[t.flushed..t.switched] + t.history[t.switched..] == t.history[t.flushed..];
  }

  lemma ReplayOne(logs: map<nat, seq<Batch>>, n: nat, to: nat)
    requires n < to && n in logs && forall m :: m in logs ==> m <= n
    ensures Replay(logs, n, to) == logs[n]
  {
  }

  lemma TraceBounds(t: Trace)
    requires GoodTrace(t)
    ensures t.flushed <= t.switched <= t.applied <= |t.history| <= t.applied + 1
  {
  }

  lemma StaysRecoverable(d: Disk, m: Memory, t: Trace)
    requires GoodTrace(t) && LogsMeaning(d, m, t)
    requires forall l, i :: 0 <= l < |d.manifest.levels| && 0 <= i < |d.manifest.levels[l]| ==>
               OnDisk(d, d.manifest.levels[l][i])
    ensures Recoverable(d, t)
  {
    hide GoodTrace, LogsMeaning, Replay;
    TraceBounds(t);
    forall to | d.manifest.logNumber <= to && (forall n :: n in d.logs ==> n < to)
      ensures Replay(d.logs, d.manifest.logNumber, to) == t.history[t.flushed..]
    {
      LiveLogs(d, m, t, to);
    }
  }

  // ----- Every step keeps the invariant

  lemma TraceGrows(t: Trace, b: Batch)
    requires GoodTrace(t) && t.applied == |t.history| && b.sequence == LastSequence(t.history, |t.history|) + 1
    requires LastSequence(t.history, |t.history|) + |b.ops| < MAX_SEQUENCE
    ensures var t' := t.(history := t.history + [b]);
            && GoodTrace(t')
            && (forall i, j :: 0 <= i <= j <= |t.history| ==> Entries(t'.history, i, j) == Entries(t.history, i, j))
            && (forall i :: 0 <= i <= |t.history| ==> LastSequence(t'.history, i) == LastSequence(t.history, i))
  {
    hide Consecutive;
    var h' := t.history + [b];
    ConsecutiveAppend(t.history, b);
    forall i, j | 0 <= i <= j <= |t.history| ensures Entries(h', i, j) == Entries(t.history, i, j) {
      EntriesStable(t.history, h', i, j);
    }
    forall i | 0 <= i <= |t.history| ensures LastSequence(h', i) == LastSequence(t.history, i) {
      EntriesStable(t.history, h', i, i);
    }
  }

  lemma KeepLogBatch(s: State, s': State, b: Batch)
    requires Inv(s) && LogBatch(s, s', b)
    ensures Inv(s')
  {
    hide Layered, SameViews, Sorted, Newer, LevelsEntries, Entries, LastSequence, Consecutive, GoodTable;
    var t, t', m := s.trace, s'.trace, s.memory.value;
    TraceGrows(t, b);
    ReplaySame(s.disk.logs, s'.disk.logs, s.disk.manifest.logNumber, m.logNumber);
    assert t.history[t.flushed..t.switched] == t'.history[t.flushed..t.switched];
    assert t.history[t.switched..] + [b] == t'.history[t.switched..];
    StaysRecoverable(s'.disk, m, t');
  }

  lemma KeepApplyBatch(s: State, s': State, run: seq<Entry>)
    requires Inv(s) && ApplyBatch(s, s', run)
    ensures Inv(s')
  {
    hide Layered, SameViews, Sorted, Newer, LevelsEntries, Consecutive, GoodTable, Recoverable, LogsMeaning;
    var t, t' := s.trace, s'.trace;
    assert t.applied + 1 == |t.history|;
    SequenceMonotone(t.history, t.applied, t.applied + 1);
    SameLogs(s.disk, s.memory.value, s'.memory.value, t, t');
  }

  /** Logs and recovery do not depend on what has been applied. */
  lemma SameLogs(d: Disk, m: Memory, m': Memory, t: Trace, t': Trace)
    requires GoodTrace(t) && GoodTrace(t') && t' == t.(applied := t'.applied, horizon := t'.horizon)
    requires LogsMeaning(d, m, t) && Recoverable(d, t) && m'.logNumber == m.logNumber && m'.nextFile >= m.nextFile
    ensures LogsMeaning(d, m', t') && Recoverable(d, t')
  {
    hide GoodTrace, Replay;
    TraceBounds(t);
  }

  lemma KeepSwitchMemtable(s: State, s': State)
    requires Inv(s) && SwitchMemtable(s, s')
    ensures Inv(s')
  {
    hide Layered, SameViews, Sorted, Newer, LevelsEntries, Consecutive, GoodTable, LastSequence;
    var t, t', m, m' := s.trace, s'.trace, s.memory.value, s'.memory.value;
    var from := s.disk.manifest.logNumber;
    ReplaySame(s.disk.logs, s'.disk.logs, from, m.nextFile);
    LiveLogs(s.disk, m, t, m.nextFile);
    assert t.history[t.flushed..] == t'.history[t'.flushed..t'.switched];
    assert t'.history[t'.switched..] == [];
    SortedEmpty();
    StaysRecoverable(s'.disk, m', t');
  }

  lemma KeepBuildFlush(s: State, s': State, files: seq<File>)
    requires Inv(s) && BuildFlush(s, s', files)
    ensures Inv(s')
  {
    hide Layered, SameViews, Sorted, Newer, LevelsEntries, Consecutive, GoodTable, LastSequence, Entries,
         VersionMeaning, Replay;
    var m := s.memory.value;
    if files == [] {
      NoFiles();
    } else {
      forall e ensures e in FilesEntries(files) <==> e in m.imm.value {
        if e in FilesEntries(files) {
          var i := FileOf(files, e);
        }
        if e in m.imm.value {
          HasEntry(files, 0, e);
        }
      }
    }
    SameVersion(s, s');
    StaysRecoverable(s'.disk, s'.memory.value, s'.trace);
  }

  lemma SameVersion(s: State, s': State)
    requires GoodTrace(s.trace) && s'.trace == s.trace && s'.disk.manifest == s.disk.manifest
             && VersionMeaning(s.disk, s.trace)
    ensures VersionMeaning(s'.disk, s'.trace)
  {
  }

  lemma KeepWriteOutput(s: State, s': State, f: File)
    requires Inv(s) && WriteOutput(s, s', f)
    ensures Inv(s')
  {
    hide Layered, SameViews, Sorted, Newer, LevelsEntries, Consecutive, GoodTable, LastSequence, Entries,
         VersionMeaning, Replay;
    SameVersion(s, s');
    StaysRecoverable(s'.disk, s'.memory.value, s'.trace);
  }

  // ----- Views of layered data

  lemma ViewsAbove(below: set<Entry>, below': set<Entry>, above: set<Entry>, s: nat)
    requires SameViews(below, below', s) && below' <= below && DistinctKeys(below) && DistinctKeys(above)
             && Newer(above, below)
    ensures SameViews(below + above, below' + above, s)
  {
    hide Newest;
    assert below + above == above + below && below' + above == above + below';
    forall k, t | t >= s ensures View(Newest(above + below', k, t)) == View(Newest(above + below, k, t)) {
      NewestLayered(above, below, k, t);
      NewestLayered(above, below', k, t);
    }
  }

  lemma ViewsTransitive(a: set<Entry>, b: set<Entry>, c: set<Entry>, s: nat, s': nat)
    requires SameViews(a, b, s) && SameViews(b, c, s')
    ensures SameViews(a, c, if s' > s then s' else s)
  {
  }

  /** The new files hold the next stretch of the history: the version catches up with it. */
  lemma VersionCatchesUp(levels: Levels, levels': Levels, level: nat, files: seq<File>, h: seq<Batch>, a: nat, b: nat,
                         horizon: nat)
    requires Layered(levels) && Added(levels, levels', level, files) && Consecutive(h) && a <= b <= |h|
    requires if level == 0 then NextNumbers(levels[0], files) else Clear(levels, level, files)
    requires FilesEntries(files) == Entries(h, a, b)
    requires LevelsEntries(levels) <= Entries(h, 0, a) && SameViews(Entries(h, 0, a), LevelsEntries(levels), horizon)
    ensures Layered(levels')
    ensures LevelsEntries(levels') <= Entries(h, 0, b) && SameViews(Entries(h, 0, b), LevelsEntries(levels'), horizon)
  {
    hide Layered, Added, SameViews, Consecutive, GoodTable, FilesEntries, LevelsEntries, NextNumbers, Clear, Newer,
         Entries;
    AddedEntries(levels, levels', level, files);
    StretchNewer(h, 0, a, b, LevelsEntries(levels));
    StretchNewer(h, 0, a, b, Entries(h, 0, a));
    AddLayered(levels, levels', level, files);
    EntriesSplit(h, 0, a, b);
    EntriesDistinct(h, 0, a);
    EntriesDistinct(h, a, b);
    ViewsAbove(Entries(h, 0, a), LevelsEntries(levels), Entries(h, a, b), horizon);
  }

  lemma KeepCommitFlush(s: State, s': State, level: nat, manifest: Manifest)
    requires Inv(s) && CommitFlush(s, s', level, manifest)
    ensures Inv(s')
  {
    hide Layered, SameViews, Sorted, Newer, LevelsEntries, Consecutive, GoodTable, LastSequence, Entries, Replay,
         Clear, FilesEntries, BySmallest, Recoverable;
    var t, t', m, m' := s.trace, s'.trace, s.memory.value, s'.memory.value;
    var levels, files := s.disk.manifest.levels, m.flushing.value;
    if level == 0 {
      FlushNumbers(levels[0], files);
    }
    VersionCatchesUp(levels, manifest.levels, level, files, t.history, t.flushed, t.switched, t.horizon);
    ReplayEmpty(s'.disk.logs, m.logNumber);
    FlushOnDisk(s, s', level, manifest);
    StaysRecoverable(s'.disk, m', t');
  }

  lemma ReplayEmpty(logs: map<nat, seq<Batch>>, n: nat)
    ensures Replay(logs, n, n) == []
  {
  }

  lemma FlushNumbers(zero: seq<File>, files: seq<File>)
    requires |files| <= 1 && forall f, g :: f in files && g in zero ==> f.number > g.number
    ensures NextNumbers(zero, files)
  {
  }

  lemma FlushOnDisk(s: State, s': State, level: nat, manifest: Manifest)
    requires Inv(s) && CommitFlush(s, s', level, manifest)
    ensures forall l, i :: 0 <= l < |manifest.levels| && 0 <= i < |manifest.levels[l]| ==>
              OnDisk(s'.disk, manifest.levels[l][i])
  {
    hide Layered, SameViews, Sorted, Newer, LevelsEntries, Consecutive, GoodTable, LastSequence, Entries, Replay,
         Clear, FilesEntries, BySmallest, GoodTrace, VersionMeaning, MemoryMeaning, LogsMeaning;
    forall l, i | 0 <= l < |manifest.levels| && 0 <= i < |manifest.levels[l]| ensures OnDisk(s'.disk,
            manifest.levels[l][i]) {
      var f := manifest.levels[l][i];
      assert f in manifest.levels[l];
      if f in s.disk.manifest.levels[l] {
        var j :| 0 <= j < |s.disk.manifest.levels[l]| && s.disk.manifest.levels[l][j] == f;
        assert OnDisk(s.disk, s.disk.manifest.levels[l][j]);
      }
    }
  }

  // ----- Compactions

  lemma InstalledOnDisk(s: State, d': Disk, level: nat, inputs0: seq<File>, inputs1: seq<File>, outputs: seq<File>)
    requires |s.disk.manifest.levels| == NUM_LEVELS && GoodTrace(s.trace) && Recoverable(s.disk, s.trace)
    requires Installed(s.disk.manifest.levels, d'.manifest.levels, level, inputs0, inputs1, outputs)
    requires d'.tables == s.disk.tables && s.disk.manifest.nextFile <= d'.manifest.nextFile
    requires forall f :: f in outputs ==>
               f.number < d'.manifest.nextFile && f.number in d'.tables && d'.tables[f.number] == f
    ensures forall l, i :: 0 <= l < NUM_LEVELS && 0 <= i < |d'.manifest.levels[l]| ==>
              OnDisk(d', d'.manifest.levels[l][i])
    ensures forall f :: f in d'.manifest.levels[0] ==> f in s.disk.manifest.levels[0]
  {
    hide GoodTrace, GoodTable, Rest, BySmallest, Replay;
    var levels, levels' := s.disk.manifest.levels, d'.manifest.levels;
    forall l, f | 0 <= l < NUM_LEVELS && f in levels'[l] ensures f in levels[l] || (f in outputs && l == level + 1) {
      if l == level {
        RestMember(levels[l], inputs0, f);
      } else if l == level + 1 {
        RestMember(levels[l], inputs1, f);
      }
    }
    forall f | f in levels'[0] ensures f in levels[0] {
      if level == 0 {
        RestMember(levels[0], inputs0, f);
      }
    }
    forall l, i | 0 <= l < NUM_LEVELS && 0 <= i < |levels'[l]| ensures OnDisk(d', levels'[l][i]) {
      var f := levels'[l][i];
      assert f in levels'[l];
      if f !in outputs {
        var j :| 0 <= j < |levels[l]| && levels[l][j] == f;
        assert OnDisk(s.disk, levels[l][j]);
      }
    }
  }

  /** What an installation means for the version. */
  lemma CompactedVersion(levels: Levels, levels': Levels, level: nat, inputs0: seq<File>, inputs1: seq<File>,
                         input: seq<Entry>, outputs: seq<File>, smallest: nat, base: UserKey -> bool)
    requires Layered(levels) && Installed(levels, levels', level, inputs0, inputs1, outputs)
    requires GoodInputs(levels[level], levels[level + 1], inputs0, inputs1)
    requires NothingUncovered(input, smallest, base, LevelsEntries(Staying(levels, level, inputs0, inputs1)))
    requires Sorted(input) && Elements(input) == Input(inputs0, inputs1) && SortedDisjoint(outputs)
    requires FilesEntries(outputs) == Elements(Kept(input, smallest, base, |input|))
    ensures Layered(levels') && LevelsEntries(levels') <= LevelsEntries(levels)
    ensures SameViews(LevelsEntries(levels), LevelsEntries(levels'), smallest)
  {
    hide GoodTable, Layered, Sorted, SortedDisjoint, Rest, FilesEntries, LevelsEntries, Kept, SameViews,
         NothingUncovered, Newer, BaseLevel, AllBefore, AllAfter, BySmallest, Staying;
    KeptSubset(input, smallest, base);
    InstallLayered(levels, levels', level, inputs0, inputs1, outputs);
    EntriesBefore(levels, level, inputs0, inputs1);
    EntriesAfter(levels, levels', level, inputs0, inputs1, outputs);
    InstallMeaning(levels, levels', level, inputs0, inputs1, outputs, input, smallest, base);
  }

  lemma InstalledBySmallest(levels: Levels, levels': Levels, level: nat, inputs0: seq<File>, inputs1: seq<File>,
                            outputs: seq<File>)
    requires Installed(levels, levels', level, inputs0, inputs1, outputs) && BySmallest(levels[0])
    ensures BySmallest(levels'[0])
  {
    hide GoodTable, BySmallest, Rest;
    if level == 0 {
      RestBySmallest(levels[0], inputs0);
    }
  }

  lemma KeepCommitCompaction(s: State, s': State, level: nat, inputs0: seq<File>, inputs1: seq<File>, input: seq<Entry>,
                             outputs: seq<File>, smallest: nat, manifest: Manifest)
    requires Inv(s) && CommitCompaction(s, s', level, inputs0, inputs1, input, outputs, smallest, manifest)
    ensures Inv(s')
  {
    hide Layered, SameViews, Sorted, SortedDisjoint, Newer, LevelsEntries, Consecutive, GoodTable, LastSequence,
         Entries, Replay, FilesEntries, BySmallest, Recoverable, Rest, Kept, GoodInputs, NothingUncovered, Staying,
         BaseLevel, Installed;
    var t, t', m := s.trace, s'.trace, s.memory.value;
    var levels, levels' := s.disk.manifest.levels, manifest.levels;
    var base := BaseOf(levels, level);
    InstalledShape(levels, levels', level, inputs0, inputs1, outputs);
    InstalledBySmallest(levels, levels', level, inputs0, inputs1, outputs);
    CompactedVersion(levels, levels', level, inputs0, inputs1, input, outputs, smallest, base);
    ViewsTransitive(Entries(t.history, 0, t.flushed), LevelsEntries(levels), LevelsEntries(levels'), t.horizon,
                    smallest);
    OutputsOnDisk(levels, levels', level, inputs0, inputs1, outputs, s'.disk, m);
    InstalledOnDisk(s, s'.disk, level, inputs0, inputs1, outputs);
    StaysRecoverable(s'.disk, m, t');
  }

  lemma OutputsOnDisk(levels: Levels, levels': Levels, level: nat, inputs0: seq<File>, inputs1: seq<File>,
                      outputs: seq<File>, d': Disk, m: Memory)
    requires Installed(levels, levels', level, inputs0, inputs1, outputs) && d'.manifest.levels == levels'
    requires forall l, f :: 0 <= l < |levels'| && f in levels'[l] ==> f.number < d'.manifest.nextFile
    requires forall n :: n in m.pendingOutputs ==> n in d'.tables
    requires forall f :: f in outputs ==>
               f.number in m.pendingOutputs && (f.number in d'.tables ==> d'.tables[f.number] == f)
    ensures forall f :: f in outputs ==>
              f.number < d'.manifest.nextFile && f.number in d'.tables && d'.tables[f.number] == f
  {
  }

  lemma KeepCommitMove(s: State, s': State, level: nat, inputs0: seq<File>, manifest: Manifest)
    requires Inv(s) && CommitMove(s, s', level, inputs0, manifest)
    ensures Inv(s')
  {
    hide Layered, SameViews, Sorted, SortedDisjoint, Newer, LevelsEntries, Consecutive, GoodTable, LastSequence,
         Entries, Replay, FilesEntries, BySmallest, Rest, AllBefore, AllAfter, Installed;
    var t, m := s.trace, s.memory.value;
    var levels, levels' := s.disk.manifest.levels, manifest.levels;
    SingleOutput(inputs0);
    InstalledShape(levels, levels', level, inputs0, [], inputs0);
    InstalledBySmallest(levels, levels', level, inputs0, [], inputs0);
    InstallLayered(levels, levels', level, inputs0, [], inputs0);
    EntriesBefore(levels, level, inputs0, []);
    EntriesAfter(levels, levels', level, inputs0, [], inputs0);
    MovedOnDisk(s, s'.disk, level, inputs0);
    InstalledOnDisk(s, s'.disk, level, inputs0, [], inputs0);
    StaysRecoverable(s'.disk, m, t);
  }

  lemma SingleOutput(inputs0: seq<File>)
    requires |inputs0| == 1
    ensures GoodOutputs(inputs0, [], inputs0) && Input(inputs0, []) == FilesEntries(inputs0)
  {
  }

  lemma MovedOnDisk(s: State, d': Disk, level: nat, inputs0: seq<File>)
    requires |s.disk.manifest.levels| == NUM_LEVELS && level < NUM_LEVELS && GoodTrace(s.trace)
             && Recoverable(s.disk, s.trace)
    requires forall f :: f in inputs0 ==> f in s.disk.manifest.levels[level]
    requires d'.tables == s.disk.tables && s.disk.manifest.nextFile <= d'.manifest.nextFile
    ensures forall f :: f in inputs0 ==>
              f.number < d'.manifest.nextFile && f.number in d'.tables && d'.tables[f.number] == f
  {
  }

  // ----- The remaining steps

  lemma KeepCleanup(s: State, s': State, numbers: set<nat>)
    requires Inv(s) && Cleanup(s, s', numbers)
    ensures Inv(s')
  {
    hide Layered, SameViews, Sorted, LevelsEntries, GoodTable, Entries, Consecutive, LastSequence, BySmallest,
         FilesEntries, Replay;
  }

  lemma KeepDeleteObsolete(s: State, s': State, logs: map<nat, seq<Batch>>, tables: map<nat, File>)
    requires Inv(s) && DeleteObsolete(s, s', logs, tables)
    ensures Inv(s')
  {
    hide Layered, SameViews, Sorted, Newer, LevelsEntries, Consecutive, GoodTable, LastSequence, Entries, Replay,
         VersionMeaning, MemoryMeaning;
    var t, m := s.trace, s.memory.value;
    ReplaySame(s.disk.logs, logs, s.disk.manifest.logNumber, m.logNumber);
    SameVersion(s, s');
    var levels := s.disk.manifest.levels;
    forall l, i | 0 <= l < |levels| && 0 <= i < |levels[l]| ensures OnDisk(s'.disk, levels[l][i]) {
      assert OnDisk(s.disk, levels[l][i]);
      assert InVersion(levels, levels[l][i].number);
    }
    StaysRecoverable(s'.disk, s'.memory.value, s'.trace);
  }

  lemma KeepSnapshots(s: State, s': State, t: nat)
    requires Inv(s) && (TakeSnapshot(s, s') || ReleaseSnapshot(s, s', t))
    ensures Inv(s')
  {
    hide Layered, SameViews, Sorted, LevelsEntries, GoodTable, Entries, Consecutive, LastSequence, BySmallest,
         FilesEntries, Replay;
  }

  lemma KeepCrash(s: State, s': State)
    requires Inv(s) && Crash(s, s')
    ensures Inv(s')
  {
    hide Layered, SameViews, Sorted, LevelsEntries, GoodTable, Entries, Consecutive, LastSequence, BySmallest,
         FilesEntries, Replay;
    SequenceMonotone(s.trace.history, s.trace.applied, |s.trace.history|);
  }

  lemma KeepStray(s: State, s': State, f: File, n: nat)
    requires Inv(s) && (StrayTable(s, s', f) || StrayLog(s, s', n))
    ensures Inv(s')
  {
    hide Layered, SameViews, Sorted, LevelsEntries, GoodTable, Entries, Consecutive, LastSequence, BySmallest,
         FilesEntries, Replay;
    var t, d, d' := s.trace, s.disk, s'.disk;
    forall l, i | 0 <= l < |d.manifest.levels| && 0 <= i < |d.manifest.levels[l]|
      ensures OnDisk(d', d.manifest.levels[l][i])
    {
      assert OnDisk(d, d.manifest.levels[l][i]);
    }
    forall to | d.manifest.logNumber <= to && (forall n :: n in d'.logs ==> n < to)
      ensures Replay(d'.logs, d.manifest.logNumber, to) == t.history[t.flushed..]
    {
      assert forall n :: n in d.logs ==> n in d'.logs;
      ReplayStray(d.logs, d'.logs, d.manifest.logNumber, to);
    }
    SameVersion(s, s');
  }

  /** Empty logs change nothing. */
  lemma {:induction false} ReplayStray(logs: map<nat, seq<Batch>>, logs': map<nat, seq<Batch>>, from: nat, to: nat)
    requires from <= to
    requires forall n :: n in logs ==> n in logs' && logs'[n] == logs[n]
    requires forall n :: n in logs' && n !in logs ==> logs'[n] == []
    ensures Replay(logs', from, to) == Replay(logs, from, to)
  {
    if from < to {
      ReplayStray(logs, logs', from, to - 1);
    }
  }

  lemma RecoveredNumbers(s: State, files: seq<File>)
    requires |s.disk.manifest.levels| == NUM_LEVELS && GoodTrace(s.trace) && Recoverable(s.disk, s.trace)
             && InOrder(files)
    requires forall f :: f in files ==> s.disk.manifest.nextFile <= f.number
    ensures NextNumbers(s.disk.manifest.levels[0], files)
  {
  }

  lemma RecoveredOnDisk(s: State, s': State, files: seq<File>, end: nat, newLog: nat, maxSequence: nat, levels: Levels)
    requires Inv(s) && Recover(s, s', files, end, newLog, maxSequence, levels)
    ensures forall l, i :: 0 <= l < NUM_LEVELS && 0 <= i < |levels[l]| ==> OnDisk(s'.disk, levels[l][i])
  {
    hide Layered, SameViews, Sorted, LevelsEntries, Consecutive, GoodTable, LastSequence, Entries, Replay,
         FilesEntries, BySmallest, GoodTrace, VersionMeaning;
    forall l, i | 0 <= l < NUM_LEVELS && 0 <= i < |levels[l]| ensures OnDisk(s'.disk, levels[l][i]) {
      var f := levels[l][i];
      assert f in levels[l];
      if f in s.disk.manifest.levels[l] {
        var j :| 0 <= j < |s.disk.manifest.levels[l]| && s.disk.manifest.levels[l][j] == f;
        assert OnDisk(s.disk, s.disk.manifest.levels[l][j]);
      }
    }
  }

  lemma KeepRecover(s: State, s': State, files: seq<File>, end: nat, newLog: nat, maxSequence: nat, levels: Levels)
    requires Inv(s) && Recover(s, s', files, end, newLog, maxSequence, levels)
    ensures Inv(s')
  {
    hide Layered, SameViews, Sorted, Newer, LevelsEntries, Consecutive, GoodTable, LastSequence, Entries, Replay,
         FilesEntries, BySmallest, InOrder, NewerByNumber;
    var t, t' := s.trace, s'.trace;
    var h := t.history;
    assert t.switched == t.applied == |h|;
    RecoveredNumbers(s, files);
    VersionCatchesUp(s.disk.manifest.levels, levels, 0, files, h, t.flushed, |h|, t.horizon);
    RecoveredOnDisk(s, s', files, end, newLog, maxSequence, levels);
    ReplayEmpty(s'.disk.logs, newLog);
    SegmentEmpty(h);
    SortedEmpty();
    StaysRecoverable(s'.disk, s'.memory.value, t');
  }

  lemma KeepInv(s: State, s': State, step: Step)
    requires Inv(s) && Next(s, s', step)
    ensures Inv(s')
  {
    hide Inv, LogBatch, ApplyBatch, SwitchMemtable, BuildFlush, WriteOutput, CommitFlush, CommitCompaction,
         CommitMove, Cleanup, DeleteObsolete, TakeSnapshot, ReleaseSnapshot, Crash, StrayTable, StrayLog, Recover;
    match step
    case LogBatchStep(b) => KeepLogBatch(s, s', b);
    case ApplyBatchStep(run) => KeepApplyBatch(s, s', run);
    case SwitchMemtableStep => KeepSwitchMemtable(s, s');
    case BuildFlushStep(files) => KeepBuildFlush(s, s', files);
    case WriteOutputStep(f) => KeepWriteOutput(s, s', f);
    case CommitFlushStep(level, manifest) => KeepCommitFlush(s, s', level, manifest);
    case CommitCompactionStep(level, inputs0, inputs1, input, outputs, smallest, manifest) =>
      KeepCommitCompaction(s, s', level, inputs0, inputs1, input, outputs, smallest, manifest);
    case CommitMoveStep(level, inputs0, manifest) => KeepCommitMove(s, s', level, inputs0, manifest);
    case CleanupStep(numbers) => KeepCleanup(s, s', numbers);
    case DeleteObsoleteStep(logs, tables) => KeepDeleteObsolete(s, s', logs, tables);
    case TakeSnapshotStep => KeepSnapshots(s, s', 0);
    case ReleaseSnapshotStep(t) => KeepSnapshots(s, s', t);
    case CrashStep => KeepCrash(s, s');
    case StrayTableStep(f) => KeepStray(s, s', f, 0);
    case StrayLogStep(n) => KeepStray(s, s', SAMPLE, n);
    case RecoverStep(files, end, newLog, maxSequence, levels) =>
      KeepRecover(s, s', files, end, newLog, maxSequence, levels);
  }

  // ----- Runs

  /** DBImpl::NewDB: an empty manifest, nothing running. */
  ghost predicate Init(s: State) {
    s == State(Disk(map[], map[], Manifest(seq(NUM_LEVELS, i => []), 0, 2, 0)), None, Trace([], 0, 0, 0, 0))
  }

  ghost predicate Path(run: seq<State>, steps: seq<Step>) {
    |run| == |steps| + 1 && forall i :: 0 <= i < |steps| ==> Next(run[i], run[i + 1], steps[i])
  }

  ghost predicate Run(run: seq<State>, steps: seq<Step>) {
    Path(run, steps) && Init(run[0])
  }

  lemma InitInv(s: State)
    requires Init(s)
    ensures Inv(s)
  {
    var levels := s.disk.manifest.levels;
    NoFiles();
    forall e ensures e !in LevelsEntries(levels) {
      if e in LevelsEntries(levels) {
        var l := LevelOf(levels, e);
      }
    }
    forall to ensures Replay(map[], 0, to) == [] {
      ReplayNothing(map[], 0, to);
    }
  }

  /** The invariant holds in every state of every run, crashes included. */
  lemma RunInv(run: seq<State>, steps: seq<Step>, n: nat)
    requires Run(run, steps) && n < |run|
    ensures Inv(run[n])
  {
    hide Inv, Next;
    InitInv(run[0]);
    PathInv(run, steps, n);
  }

  lemma {:induction false} PathInv(run: seq<State>, steps: seq<Step>, n: nat)
    requires Path(run, steps) && Inv(run[0]) && n < |run|
    ensures Inv(run[n])
  {
    hide Inv, Next;
    if n > 0 {
      PathInv(run, steps, n - 1);
      KeepInv(run[n - 1], run[n], steps[n - 1]);
    }
  }

  // ----- What readers see

  /** DBImpl::Get: memtable, then immutable memtable, then the version. */
  method Get(mem: seq<Entry>, imm: Option<seq<Entry>>, levels: Levels, k: UserKey, t: nat)
    returns (value: Option<Bytes>)
    requires Sorted(mem) && (imm.Some? ==> Sorted(imm.value)) && Layered(levels)
    requires imm.Some? ==>
               Newer(Elements(mem), Elements(imm.value)) && Newer(Elements(imm.value), LevelsEntries(levels))
    requires Newer(Elements(mem), LevelsEntries(levels))
    ensures value == View(Newest(Elements(mem) + (if imm.Some? then Elements(imm.value) else {})
                                 + LevelsEntries(levels), k, t))
  {
    hide Sorted, Newest, Layered, LevelsEntries;
    ghost var frozen := if imm.Some? then Elements(imm.value) else {};
    LevelsDistinct(levels);
    SortedDistinct(mem);
    NewestInRun(mem, k, t);
    if imm.Some? {
      SortedDistinct(imm.value);
      NewestInRun(imm.value, k, t);
    } else {
      NewestNone(frozen, k, t);
    }
    NewestLayered(frozen, LevelsEntries(levels), k, t);
    NewestLayered(Elements(mem), frozen + LevelsEntries(levels), k, t);
    assert Elements(mem) + frozen + LevelsEntries(levels) == Elements(mem) + (frozen + LevelsEntries(levels));
    var hit := RunGet(mem, k, t);
    if hit.Some? {
      return View(hit);
    }
    if imm.Some? {
      hit := RunGet(imm.value, k, t);
      if hit.Some? {
        return View(hit);
      }
    }
    hit := Versions.Get(levels, k, t);
    return View(hit);
  }

  /** All data of an open database. */
  ghost function Data(s: State): set<Entry>
    requires s.memory.Some?
  {
    Elements(s.memory.value.mem) + (if s.memory.value.imm.Some? then Elements(s.memory.value.imm.value) else {})
    + LevelsEntries(s.disk.manifest.levels)
  }

  /** A read at a live snapshot, or at the last sequence number, sees the history that has been applied, whatever
      was flushed, compacted, recovered or deleted in between: what a plain map has after that many operations; and Get
      may search layer by layer. */
  lemma ReadsSeeHistory(s: State, k: UserKey, t: nat)
    requires Inv(s) && s.memory.Some? && (t in s.memory.value.snapshots || t == s.memory.value.lastSequence)
    ensures View(Newest(Data(s), k, t)) == View(Newest(Entries(s.trace.history, 0, s.trace.applied), k, t))
    ensures var ops := Operations(s.trace.history, s.trace.applied);
            t <= |ops| && View(Newest(Data(s), k, t)) == Lookup(MapAfter(ops, t), k)
    ensures var m := s.memory.value;
            && Newer(Elements(m.mem), LevelsEntries(s.disk.manifest.levels))
            && (m.imm.Some? ==> Newer(Elements(m.mem), Elements(m.imm.value))
                                && Newer(Elements(m.imm.value), LevelsEntries(s.disk.manifest.levels)))
  {
    hide Layered, SameViews, Sorted, Newer, LevelsEntries, Consecutive, GoodTable, LastSequence, Entries, Replay,
         FilesEntries, Recoverable, LogsMeaning, FlushMeaning, Newest, Operations, MapAfter, Lookup;
    HistoryIsMap(s.trace.history, s.trace.applied, k, t);
    var tr, h, levels := s.trace, s.trace.history, s.disk.manifest.levels;
    StretchNewer(h, 0, tr.flushed, tr.applied, LevelsEntries(levels));
    StretchNewer(h, 0, tr.flushed, tr.switched, LevelsEntries(levels));
    StretchNewer(h, tr.flushed, tr.switched, tr.applied, Entries(h, tr.flushed, tr.switched));
    StretchNewer(h, 0, tr.flushed, tr.applied, Entries(h, 0, tr.flushed));
    EntriesSplit(h, 0, tr.flushed, tr.applied);
    EntriesSplit(h, tr.flushed, tr.switched, tr.applied);
    EntriesDistinct(h, 0, tr.flushed);
    EntriesDistinct(h, tr.flushed, tr.applied);
    SegmentEmpty(h);
    NewerPart(Entries(h, tr.flushed, tr.applied), Entries(h, tr.switched, tr.applied), LevelsEntries(levels));
    ViewsAbove(Entries(h, 0, tr.flushed), LevelsEntries(levels), Entries(h, tr.flushed, tr.applied), tr.horizon);
    assert Data(s) == LevelsEntries(levels) + Entries(h, tr.flushed, tr.applied);
    ViewAt(Entries(h, 0, tr.applied), Data(s), tr.horizon, k, t);
  }

  /** DBImpl::Get on an open database, at a snapshot or at the last sequence number, gives what a plain map has after
      the operations up to there. */
  method Read(ghost s: State, disk: Disk, memory: Memory, k: UserKey, snapshot: Option<nat>)
    returns (value: Option<Bytes>)
    requires Inv(s) && s.disk == disk && s.memory == Some(memory)
    requires snapshot.Some? ==> snapshot.value in memory.snapshots
    ensures var ops := Operations(s.trace.history, s.trace.applied);
            var t := if snapshot.Some? then snapshot.value else memory.lastSequence;
            t <= |ops| && value == Lookup(MapAfter(ops, t), k)
  {
    hide Inv, Sorted, Newer, Layered, LevelsEntries, Newest, Operations, MapAfter, Lookup;
    var t := if snapshot.Some? then snapshot.value else memory.lastSequence;
    ReadsSeeHistory(s, k, t);
    OpenShape(s);
    value := Get(memory.mem, memory.imm, disk.manifest.levels, k, t);
  }

  lemma OpenShape(s: State)
    requires Inv(s) && s.memory.Some?
    ensures var m := s.memory.value;
            Sorted(m.mem) && (m.imm.Some? ==> Sorted(m.imm.value)) && Layered(s.disk.manifest.levels)
  {
    hide GoodTable, Layered, Recoverable, SameViews, LevelsEntries, LogsMeaning, FlushMeaning, Sorted, GoodTrace,
         LastSequence, Entries;
  }

  lemma NewerPart(all: set<Entry>, part: set<Entry>, below: set<Entry>)
    requires Newer(all, below) && part <= all
    ensures Newer(part, below)
  {
  }

  lemma ViewAt(a: set<Entry>, b: set<Entry>, s: nat, k: UserKey, t: nat)
    requires SameViews(a, b, s) && t >= s
    ensures View(Newest(b, k, t)) == View(Newest(a, k, t))
  {
  }

  /** However a run crashed, recovery gives the map and the last sequence number that applying every logged batch in
      order gives. */
  lemma RecoveryIsFaithful(run: seq<State>, steps: seq<Step>, n: nat, k: UserKey)
    requires Run(run, steps) && n < |steps| && steps[n].RecoverStep?
    ensures run[n + 1].memory.Some? && run[n + 1].trace.history == run[n].trace.history
    ensures var s, h := run[n + 1], run[n].trace.history;
            && s.memory.value.lastSequence == LastSequence(h, |h|)
            && View(Newest(Data(s), k, s.memory.value.lastSequence))
                == View(Newest(Entries(h, 0, |h|), k, LastSequence(h, |h|)))
            && View(Newest(Data(s), k, s.memory.value.lastSequence))
                == Lookup(MapAfter(Operations(h, |h|), |Operations(h, |h|)|), k)
  {
    RunInv(run, steps, n);
    RunInv(run, steps, n + 1);
    RecoveredState(run[n], run[n + 1], steps[n]);
    ReadsSeeHistory(run[n + 1], k, run[n + 1].memory.value.lastSequence);
    HistoryConsecutive(run[n]);
    EntriesAreNumbered(run[n].trace.history, |run[n].trace.history|);
  }

  lemma HistoryConsecutive(s: State)
    requires Inv(s)
    ensures Consecutive(s.trace.history)
  {
    hide GoodTable, Consecutive, Recoverable, VersionMeaning, MemoryMeaning, LogsMeaning, FlushMeaning, LastSequence;
  }

  lemma RecoveredState(s: State, s': State, step: Step)
    requires Inv(s) && Inv(s') && Next(s, s', step) && step.RecoverStep?
    ensures s'.memory.Some? && s'.trace.history == s.trace.history && s'.trace.applied == |s.trace.history|
    ensures s'.memory.value.lastSequence == LastSequence(s.trace.history, |s.trace.history|)
  {
    hide Layered, SameViews, Sorted, LevelsEntries, GoodTable, Entries, Replay, FilesEntries, InOrder, Consecutive,
         LastSequence;
  }
}
