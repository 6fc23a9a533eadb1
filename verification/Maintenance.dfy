/** db_impl.cc: opening a database and flushing a memtable, with the code that picks levels, replays logs and builds
    the next version, shown to take the steps of the state machine. */
module Maintenance {
  import opened Keys
  import opened Versions
  import opened CompactionInputs
  import opened CompactionWork
  import opened Histories
  import opened Lsm
  import opened Recovery
  import opened VersionBuilders
  import opened Databases

  lemma DisjointBySmallest(files: seq<File>)
    requires SortedDisjoint(files)
    ensures BySmallest(files)
  {
  }

  /** The new version: the files added at one level. */
  method AddFiles(levels: Levels, level: nat, added: seq<File>) returns (levels': Levels)
    requires |levels| == NUM_LEVELS && level < NUM_LEVELS && BySmallest(levels[level]) && BySmallest(added)
    requires forall f, g :: f in levels[level] && g in added ==> f.number != g.number
    ensures Added(levels, levels', level, added)
  {
    hide GoodTable, SmallerFile, BySmallest;
    var files := SaveLevel(levels[level], added, {});
    levels' := levels[level := files];
  }

  /** Sorts new level-0 files into the order of a level. */
  method SortFiles(files: seq<File>) returns (r: seq<File>)
    requires forall i, j :: 0 <= i < j < |files| ==> files[i].number != files[j].number
    ensures BySmallest(r) && forall f :: f in r <==> f in files
  {
    hide GoodTable, SmallerFile, BySmallest;
    r := InsertAll([], files);
    NothingSorted();
    InsertAllGood([], files);
    forall f ensures f in r <==> f in files {
      assert f in Members(r) <==> f in Members([]) + Members(files);
    }
  }

  lemma NothingSorted()
    ensures BySmallest([]) && Numbers([]) == {}
  {
  }

  method WriteTables(tables: map<nat, File>, files: seq<File>, nextFile: nat) returns (r: map<nat, File>)
    requires forall i, j :: 0 <= i < j < |files| ==> files[i].number != files[j].number
    requires forall i :: 0 <= i < |files| ==> nextFile <= files[i].number
    ensures forall f :: f in files ==> f.number in r && r[f.number] == f
    ensures forall n :: n in tables && n < nextFile ==> n in r && r[n] == tables[n]
  {
    hide GoodTable;
    r := tables;
    for i := 0 to |files|
      invariant forall j :: 0 <= j < i ==> files[j].number in r && r[files[j].number] == files[j]
      invariant forall n :: n in tables && n < nextFile ==> n in r && r[n] == tables[n]
    {
      r := r[files[i].number := files[i]];
    }
  }

  /** DB::Open after a crash always succeeds, and takes a Recover step. */
  method Open(ghost s: State, disk: Disk, end: nat, full: seq<Entry> -> bool, size: seq<Entry> -> nat)
    returns (disk': Disk, memory: Memory)
    requires Inv(s) && s.memory.None? && disk == s.disk
    requires disk.manifest.logNumber <= end && forall n :: n in disk.logs ==> n < end
    ensures var s' := State(disk', Some(memory), s.trace.(flushed := |s.trace.history|));
            exists step: Step :: step.RecoverStep? && Next(s, s', step)
  {
    hide GoodTable, Layered, SameViews, LevelsEntries, Consecutive, Replay, LastSequence, Entries, SmallerFile,
         FilesEntries;
    ghost var h, a := s.trace.history, s.trace.flushed;
    var manifest := disk.manifest;
    var files, nextFile, maxSequence := RecoverLogs(disk.logs, manifest.logNumber, end, manifest.nextFile, full, size,
                                                    h, a);
    RecoveredDistinct(s, files, nextFile);
    var added := SortFiles(files);
    var levels := AddFiles(manifest.levels, 0, added);
    var newLog := nextFile;
    var lastSequence := if manifest.lastSequence < maxSequence then maxSequence else manifest.lastSequence;
    var tables := WriteTables(disk.tables, files, manifest.nextFile);
    disk' := Disk(disk.logs[newLog := []], tables, Manifest(levels, newLog, newLog + 1, lastSequence));
    memory := Memory([], None, None, newLog, newLog + 1, lastSequence, {}, {});
    AddedSame(manifest.levels, levels, files, added);
    assert Recover(s, State(disk', Some(memory), s.trace.(flushed := |h|)), files, nextFile, newLog, maxSequence,
                   levels);
    assert Next(s, State(disk', Some(memory), s.trace.(flushed := |h|)),
                RecoverStep(files, nextFile, newLog, maxSequence, levels));
  }

  lemma AddedSame(levels: Levels, levels': Levels, files: seq<File>, added: seq<File>)
    requires Added(levels, levels', 0, added) && forall f :: f in added <==> f in files
    ensures Added(levels, levels', 0, files)
  {
  }

  lemma RecoveredDistinct(s: State, files: seq<File>, nextFile: nat)
    requires Inv(s) && Recovered(files, s.trace.history, s.trace.flushed, |s.trace.history|, s.disk.manifest.nextFile,
                                 nextFile)
    ensures forall i, j :: 0 <= i < j < |files| ==> files[i].number != files[j].number
    ensures forall i :: 0 <= i < |files| ==> s.disk.manifest.nextFile <= files[i].number
    ensures BySmallest(s.disk.manifest.levels[0])
    ensures forall f, g :: f in s.disk.manifest.levels[0] && g in files ==> f.number != g.number
  {
    hide GoodTable, Layered, SameViews, LevelsEntries, Consecutive, Replay, LastSequence, Entries, SmallerFile,
         FilesEntries;
    assert forall i, j :: 0 <= i < j < |files| ==> Older(files[i], files[j]);
    forall i | 0 <= i < |files| ensures s.disk.manifest.nextFile <= files[i].number {
      assert files[i] in files;
    }
    var zero := s.disk.manifest.levels[0];
    forall f, g | f in zero && g in files ensures f.number != g.number {
      var i :| 0 <= i < |zero| && zero[i] == f;
      assert OnDisk(s.disk, s.disk.manifest.levels[0][i]);
    }
  }

  /** The level that a flushed table goes to; level 0 without a table. */
  ghost predicate FlushLevel(levels: Levels, files: seq<File>, maxGrandparentOverlap: nat, level: nat)
    requires |levels| == NUM_LEVELS
  {
    if files == [] then level == 0
    else DeepestFree(levels, files[0].Smallest().user, files[0].Largest().user, maxGrandparentOverlap, level)
  }

  /** CompactMemTable, once its table is built: picks a level and commits. */
  method CompactMemTable(ghost s: State, manifest: Manifest, memory: Memory, maxGrandparentOverlap: nat)
    returns (level: nat, manifest': Manifest)
    requires Inv(s) && s.memory == Some(memory) && s.disk.manifest == manifest && memory.flushing.Some?
    ensures var s' := State(s.disk.(manifest := manifest'), Some(memory.(imm := None, flushing := None)),
                            s.trace.(flushed := s.trace.switched));
            Next(s, s', CommitFlushStep(level, manifest'))
    ensures |manifest.levels| == NUM_LEVELS
            && FlushLevel(manifest.levels, memory.flushing.value, maxGrandparentOverlap, level)
    ensures manifest' == Manifest(manifest'.levels, memory.logNumber, memory.nextFile, memory.lastSequence)
  {
    hide GoodTable, SameViews, LevelsEntries, Consecutive, Replay, LastSequence, Entries, SmallerFile, FilesEntries,
         Sorted, SortedDisjoint, NewerByNumber, Newer, BySmallest, Layered, FlushLevel, Clear, Added, Captured;
    var files := memory.flushing.value;
    level := PickFlushLevel(manifest.levels, files, maxGrandparentOverlap);
    FlushDistinct(s, level);
    var levels := AddFiles(manifest.levels, level, files);
    manifest' := Manifest(levels, memory.logNumber, memory.nextFile, memory.lastSequence);
    CapturedNow(s, manifest', level);
    SequenceMonotone(s.trace.history, s.trace.switched, s.trace.applied);
  }

  method PickFlushLevel(levels: Levels, files: seq<File>, maxGrandparentOverlap: nat) returns (level: nat)
    requires Layered(levels) && BySmallest(levels[0]) && |files| <= 1
    ensures FlushLevel(levels, files, maxGrandparentOverlap, level)
    ensures level < NUM_LEVELS && (level > 0 ==> Clear(levels, level, files))
    ensures BySmallest(levels[level]) && BySmallest(files)
  {
    hide GoodTable, BySmallest, Layered, SortedDisjoint, NewerByNumber, FilesEntries;
    LayeredShape(levels);
    level := 0;
    if files != [] {
      level := PickLevelForMemTableOutput(levels, files[0].Smallest().user, files[0].Largest().user,
                                          maxGrandparentOverlap);
    }
    if level > 0 {
      LayeredLevel(levels, level);
      DisjointBySmallest(levels[level]);
    }
    OneSorted(files);
  }

  lemma OneSorted(files: seq<File>)
    requires |files| <= 1
    ensures BySmallest(files)
  {
  }

  /** The flushed table is not in the version yet: its entries are newer than the version's. */
  lemma FlushDistinct(s: State, level: nat)
    requires Inv(s) && s.memory.Some? && s.memory.value.flushing.Some? && level < NUM_LEVELS
    ensures forall f, g :: f in s.disk.manifest.levels[level] && g in s.memory.value.flushing.value ==>
              f.number != g.number
  {
    hide GoodTable, SameViews, LevelsEntries, Consecutive, Replay, LastSequence, Entries, SmallerFile, FilesEntries,
         Sorted, Layered, Newer, BySmallest;
    var levels, files, h := s.disk.manifest.levels, s.memory.value.flushing.value, s.trace.history;
    forall f: File, g: File | f in levels[level] && g in files ensures f.number != g.number {
      var i :| 0 <= i < |levels[level]| && levels[level][i] == f;
      var j :| 0 <= j < |files| && files[j] == g;
      assert OnDisk(s.disk, levels[level][i]);
      HasEntry(levels[level], i, f.run[0]);
      LevelMember(levels, level, f.run[0]);
      EntriesRange(h, 0, s.trace.flushed, f.run[0]);
      HasEntry(files, j, g.run[0]);
      EntriesRange(h, s.trace.flushed, s.trace.switched, g.run[0]);
    }
  }

  lemma CapturedNow(s: State, manifest': Manifest, level: nat)
    requires Inv(s) && s.memory.Some? && s.memory.value.flushing.Some?
    requires Added(s.disk.manifest.levels, manifest'.levels, level, s.memory.value.flushing.value)
    requires manifest'.nextFile == s.memory.value.nextFile && manifest'.lastSequence == s.memory.value.lastSequence
    ensures Captured(s, manifest')
  {
    hide GoodTable, SameViews, LevelsEntries, Consecutive, Replay, LastSequence, Entries, SmallerFile, FilesEntries,
         Sorted, Layered, BySmallest;
    var levels, levels' := s.disk.manifest.levels, manifest'.levels;
    forall l, f: File | 0 <= l < |levels'| && f in levels'[l] ensures f.number < manifest'.nextFile {
      if f in levels[l] {
        var i :| 0 <= i < |levels[l]| && levels[l][i] == f;
        assert OnDisk(s.disk, levels[l][i]);
      }
    }
  }

  // ----- Files that nobody needs

  /** VersionSet::AddLiveFiles, with the outputs being written. */
  method LiveFiles(levels: Levels, pendingOutputs: set<nat>) returns (live: set<nat>)
    ensures forall n: nat :: n in live <==> n in pendingOutputs || InVersion(levels, n)
  {
    hide GoodTable;
    live := pendingOutputs;
    for l := 0 to |levels|
      invariant forall n: nat :: n in live <==> n in pendingOutputs || InLevels(levels, l, n)
    {
      ghost var before := live;
      for i := 0 to |levels[l]|
        invariant forall n: nat :: n in live <==> n in before || exists j :: 0 <= j < i && levels[l][j].number == n
      {
        live := live + {levels[l][i].number};
      }
    }
    forall n: nat ensures InLevels(levels, |levels|, n) <==> InVersion(levels, n) {
    }
  }

  ghost predicate InLevels(levels: Levels, count: nat, n: nat) {
    exists l, i :: 0 <= l < count && l < |levels| && 0 <= i < |levels[l]| && levels[l][i].number == n
  }

  /** DeleteObsoleteFiles: exactly the logs before the manifest's log, and the tables that are neither in the version
      nor being written, are removed. */
  method DeleteObsoleteFiles(ghost s: State, disk: Disk, memory: Memory) returns (disk': Disk)
    requires s.disk == disk && s.memory == Some(memory) && memory.flushing.None?
    ensures Next(s, s.(disk := disk'), DeleteObsoleteStep(disk'.logs, disk'.tables)) && disk'.manifest == disk.manifest
    ensures forall n: nat :: n in disk'.logs <==> n in disk.logs && n >= disk.manifest.logNumber
    ensures forall n: nat :: n in disk'.tables <==>
                             n in disk.tables && (n in memory.pendingOutputs || InVersion(disk.manifest.levels, n))
  {
    hide GoodTable, InVersion;
    var live := LiveFiles(disk.manifest.levels, memory.pendingOutputs);
    disk' := disk.(logs := map n | n in disk.logs && n >= disk.manifest.logNumber :: disk.logs[n],
                   tables := map n | n in disk.tables && n in live :: disk.tables[n]);
  }
}
