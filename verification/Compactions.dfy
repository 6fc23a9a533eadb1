/** db_impl.cc, BackgroundCompaction: from the choice of the input files to the installed version, shown to take the
    steps of the state machine. */
module Compactions {
  import opened Keys
  import opened LiveCursors
  import opened Versions
  import opened CompactionInputs
  import opened CompactionWork
  import opened Histories
  import opened Lsm
  import opened Recovery
  import opened TwoLevelIterators
  import opened LevelIterators
  import opened MergingIterators
  import opened Reads
  import opened VersionBuilders
  import opened Databases
  import opened Maintenance

  // ----- The merged input

  /** The entries of the files of a sorted level, file by file. */
  function Concat(files: seq<File>): seq<Entry> {
    if files == [] then [] else Concat(files[..|files| - 1]) + files[|files| - 1].run
  }

  /** A concatenating iterator goes over them. */
  lemma {:induction false} ConcatIsLevelRun(files: seq<File>, blocks: Bytes -> seq<Entry>, n: nat)
    requires Opens(files, blocks) && n <= |files|
    ensures Flat(FileIndex(files), blocks, n) == Concat(files[..n])
  {
    hide Opens, FileIndex;
    if n > 0 {
      ConcatIsLevelRun(files, blocks, n - 1);
      IndexValue(files, blocks, n - 1);
      assert files[..n][..n - 1] == files[..n - 1];
    }
  }

  lemma {:induction false} ConcatSorted(files: seq<File>)
    requires SortedDisjoint(files)
    ensures Sorted(Concat(files)) && Elements(Concat(files)) == FilesEntries(files)
  {
    hide GoodTable, Sorted, SortedDisjoint;
    if files == [] {
      NoFiles();
      SortedEmpty();
    } else {
      var n := |files| - 1;
      FrontDisjoint(files);
      ConcatSorted(files[..n]);
      forall x, y | x in Concat(files[..n]) && y in files[n].run ensures Before(x.key, y.key) {
        assert x in Elements(Concat(files[..n]));
        AcrossFiles(files, x, y);
      }
      LastSorted(files[n]);
      SortedJoin(Concat(files[..n]), files[n].run);
      forall e ensures e in Elements(Concat(files)) <==> e in FilesEntries(files) {
        assert e in Elements(Concat(files[..n])) <==> e in FilesEntries(files[..n]);
        OutputMember(files, e);
      }
    }
  }

  lemma FrontDisjoint(files: seq<File>)
    requires SortedDisjoint(files) && files != []
    ensures SortedDisjoint(files[..|files| - 1])
  {
  }

  lemma LastSorted(f: File)
    ensures Sorted(f.run)
  {
  }

  lemma AcrossFiles(files: seq<File>, x: Entry, y: Entry)
    requires files != [] && SortedDisjoint(files)
    requires x in FilesEntries(files[..|files| - 1]) && y in files[|files| - 1].run
    ensures Before(x.key, y.key)
  {
    hide GoodTable, Sorted;
    var n := |files| - 1;
    var i := FileOf(files[..n], x);
    assert files[..n][i] == files[i];
    var j :| 0 <= j < |files[i].run| && files[i].run[j] == x;
    var k :| 0 <= k < |files[n].run| && files[n].run[k] == y;
    InFile(files[i], j);
    InFile(files[n], k);
  }

  /** Entries with distinct keys can be put into order. */
  lemma {:induction false} SortedRunOf(es: set<Entry>) returns (run: seq<Entry>)
    requires DistinctKeys(es)
    ensures Sorted(run) && Elements(run) == es
  {
    hide Sorted, MemAdd;
    if es == {} {
      run := [];
      SortedEmpty();
    } else {
      var e :| e in es;
      run := SortedRunOf(es - {e});
      forall x | x in run ensures x.key != e.key {
        assert x in Elements(run);
      }
      MemAddGood(run, e);
      run := MemAdd(run, e);
    }
  }

  /** The children of the input iterator: level-0 files one by one, the files of another level as one run. */
  function PartRuns(level: nat, inputs: seq<File>): seq<seq<Entry>> {
    if inputs == [] then []
    else if level == 0 then seq(|inputs|, i requires 0 <= i < |inputs| => inputs[i].run)
    else [Concat(inputs)]
  }

  ghost predicate PartSorted(level: nat, inputs: seq<File>) {
    if level == 0 then NewerByNumber(inputs) else SortedDisjoint(inputs)
  }

  lemma PartGood(level: nat, inputs: seq<File>)
    requires PartSorted(level, inputs)
    ensures Apart(PartRuns(level, inputs))
    ensures forall i :: 0 <= i < |PartRuns(level, inputs)| ==> Sorted(PartRuns(level, inputs)[i])
    ensures forall e :: InSome(PartRuns(level, inputs), e) <==> e in FilesEntries(inputs)
  {
    hide GoodTable, Sorted, SortedDisjoint, NewerByNumber, InSome, Concat;
    if inputs == [] {
      NoFiles();
      forall e ensures !InSome([], e) {
        InSomeOne([], e);
      }
    } else if level == 0 {
      TableRunsApart(inputs);
      assert PartRuns(level, inputs) == TableRuns(inputs);
      forall i | 0 <= i < |inputs| ensures Sorted(inputs[i].run) {
        LastSorted(inputs[i]);
      }
      forall e ensures InSome(TableRuns(inputs), e) <==> e in FilesEntries(inputs) {
        InTableRuns(inputs, e);
      }
    } else {
      ConcatSorted(inputs);
      forall e ensures InSome([Concat(inputs)], e) <==> e in FilesEntries(inputs) {
        InSomeOne(Concat(inputs), e);
        assert e in Elements(Concat(inputs)) <==> e in FilesEntries(inputs);
      }
    }
  }

  function InputRuns(level: nat, inputs0: seq<File>, inputs1: seq<File>): seq<seq<Entry>> {
    PartRuns(level, inputs0) + PartRuns(level + 1, inputs1)
  }

  /** The input files, as the choice of inputs leaves them. */
  ghost predicate GoodParts(level: nat, inputs0: seq<File>, inputs1: seq<File>) {
    && PartSorted(level, inputs0) && SortedDisjoint(inputs1)
    && DistinctKeys(Input(inputs0, inputs1))
    && forall x, y | x in FilesEntries(inputs0) && y in FilesEntries(inputs1) :: x.key != y.key
  }

  /** The input iterator's children have a merge, and it holds exactly the input entries. */
  lemma InputMerge(level: nat, inputs0: seq<File>, inputs1: seq<File>) returns (all: seq<Entry>)
    requires GoodParts(level, inputs0, inputs1)
    ensures Merge(InputRuns(level, inputs0, inputs1), all) && Elements(all) == Input(inputs0, inputs1)
  {
    hide GoodTable, Sorted, PartSorted, PartRuns, InSome, Apart, Merge;
    all := SortedRunOf(Input(inputs0, inputs1));
    var a, b := PartRuns(level, inputs0), PartRuns(level + 1, inputs1);
    PartGood(level, inputs0);
    OtherPart(level, inputs1);
    PartGood(level + 1, inputs1);
    ApartAppend(a, b);
    forall e ensures InSome(a + b, e) <==> e in Elements(all) {
      InSomeAppend(a, b, e);
    }
    MergeFromParts(a + b, all);
  }

  lemma OtherPart(level: nat, inputs1: seq<File>)
    requires SortedDisjoint(inputs1)
    ensures PartSorted(level + 1, inputs1)
  {
  }

  /** VersionSet::MakeInputIterator.  Nothing is added to these tables, and all of their entries are read. */
  method MakeInputIterator(level: nat, inputs0: seq<File>, inputs1: seq<File>) returns (iter: MergingIterator)
    requires GoodParts(level, inputs0, inputs1)
    ensures iter.Valid() && iter.snapshot == MAX_SEQUENCE
    ensures Sorted(iter.all) && Elements(iter.all) == Input(inputs0, inputs1)
    ensures fresh(iter) && forall i :: 0 <= i < |iter.children| ==> fresh(iter.children[i])
  {
    hide GoodParts, GoodTable, Sorted, Merge, PartRuns, Input, Elements;
    ghost var all := InputMerge(level, inputs0, inputs1);
    var runs := InputRuns(level, inputs0, inputs1);
    SortedRuns(runs, all);
    MergeSorted(runs, all);
    RunSequences(runs, all, inputs0, inputs1);
    var list: seq<LiveCursor> := [];
    for i := 0 to |runs|
      invariant |list| == i && (forall j :: 0 <= j < i ==> fresh(list[j]))
      invariant forall j :: 0 <= j < i ==>
                  list[j].Valid() && list[j].snapshot == MAX_SEQUENCE && list[j].Seen() == runs[j]
      invariant forall j, k :: 0 <= j < k < i ==> list[j] != list[k]
    {
      var child := new LiveCursor(runs[i], MAX_SEQUENCE, 0);
      AllInView(runs[i], MAX_SEQUENCE, |runs[i]|);
      assert runs[i][..|runs[i]|] == runs[i];
      list := list + [child];
    }
    iter := new MergingIterator(list, MAX_SEQUENCE, runs, all);
  }

  lemma RunSequences(runs: seq<seq<Entry>>, all: seq<Entry>, inputs0: seq<File>, inputs1: seq<File>)
    requires Merge(runs, all) && Elements(all) == Input(inputs0, inputs1)
    ensures forall i, e :: 0 <= i < |runs| && e in runs[i] ==> e.key.sequence <= MAX_SEQUENCE
  {
    hide GoodTable, Sorted;
    InputSequences(inputs0, inputs1);
    forall i, e | 0 <= i < |runs| && e in runs[i] ensures e.key.sequence <= MAX_SEQUENCE {
      var j :| 0 <= j < |runs[i]| && runs[i][j] == e;
      assert e in Elements(all);
    }
  }

  /** What the loop of DoCompactionWork reads from its input iterator. */
  method ReadInput(level: nat, inputs0: seq<File>, inputs1: seq<File>) returns (input: seq<Entry>)
    requires GoodParts(level, inputs0, inputs1)
    ensures Sorted(input) && Elements(input) == Input(inputs0, inputs1)
  {
    hide GoodParts, Sorted, Merge, Input, Elements, MergingIterator.Valid, MergingIterator.Left;
    var iter := MakeInputIterator(level, inputs0, inputs1);
    iter.SeekToFirst();
    iter.Facts();
    input := [];
    while iter.OnEntry()
      invariant fresh(iter) && (forall i :: 0 <= i < |iter.children| ==> fresh(iter.children[i]))
      invariant iter.Valid() && iter.direction.Forward? && iter.at <= |iter.all| && input == iter.all[..iter.at]
      decreases iter.Left()
    {
      iter.Facts();
      iter.AllShown();
      input := input + [iter.Current()];
      iter.Next();
      iter.Facts();
    }
    iter.Facts();
    assert iter.all[..|iter.all|] == iter.all;
  }

  // ----- The files that go in

  /** Why a compaction starts.  The level and the file that PickCompaction finds in the version are given. */
  datatype Request =
    | SizeCompaction(level: nat, compactPointer: Option<IKey>)
    | SeekCompaction(level: nat, index: nat)
    | ManualCompaction(level: nat, begin: Option<UserKey>, end: Option<UserKey>, limit: nat)

  predicate GoodRequest(levels: Levels, r: Request) {
    && r.level + 1 < NUM_LEVELS == |levels|
    && (r.SizeCompaction? ==> levels[r.level] != [])
    && (r.SeekCompaction? ==> r.index < |levels[r.level]|)
  }

  /** The byte counts that end output files and forbid trivial moves, and the sizes of tables. */
  datatype Options = Options(expandedLimit: nat, maxGrandparentOverlap: nat, full: seq<Entry> -> bool,
                             size: seq<Entry> -> nat)

  /** What a request picks: the file whose turn it is, the file given, or the files of the range given. */
  ghost predicate PickedFor(levels: Levels, r: Request, picked: seq<File>)
    requires GoodRequest(levels, r)
  {
    match r
    case SizeCompaction(level, compactPointer) =>
      exists i :: NextInTurn(levels[level], compactPointer, i) && PickOf(levels[level], level, i, picked)
    case SeekCompaction(level, index) => PickOf(levels[level], level, index, picked)
    case ManualCompaction(level, begin, end, limit) =>
      if level == 0 then LeastClosed(levels[level], begin, end, picked)
      else FirstOfRange(levels[level], begin, end, limit, picked)
  }

  /** VersionSet::PickCompaction and CompactRange, up to SetupOtherInputs. */
  method Pick(levels: Levels, r: Request) returns (picked: seq<File>)
    requires Layered(levels) && GoodRequest(levels, r)
    ensures picked != [] ==> StartInputs(levels[r.level], r.level, picked)
    ensures PickedFor(levels, r, picked)
    ensures picked == [] <==> r.ManualCompaction? && forall f: File :: f in levels[r.level] ==>
                                                      !Overlaps(f, r.begin, r.end)
  {
    hide GoodTable, SortedDisjoint, NewerByNumber, StartInputs, Newer, LeastClosed, FirstOfRange, NextInTurn, Overlaps;
    LayeredLevel(levels, r.level);
    match r
    case SizeCompaction(level, compactPointer) =>
      picked := PickBySize(levels[level], level, compactPointer);
      StartNonempty(levels[level], level, picked);
    case SeekCompaction(level, index) =>
      picked := PickFile(levels[level], level, index);
    case ManualCompaction(level, begin, end, limit) =>
      picked := PickRange(levels[level], level, begin, end, limit);
  }

  lemma ChosenParts(levels: Levels, level: nat, inputs0: seq<File>, inputs1: seq<File>)
    requires Layered(levels) && level + 1 < NUM_LEVELS && GoodInputs(levels[level], levels[level + 1], inputs0, inputs1)
    requires PartSorted(level, inputs0) && SortedDisjoint(inputs1)
    ensures GoodParts(level, inputs0, inputs1)
  {
    hide GoodTable, Sorted, SortedDisjoint, NewerByNumber, Layered, FilesEntries, Staying, LevelsEntries, AllBefore,
         AllAfter, PartSorted, Newer;
    LayeredShape(levels);
    LevelsDistinct(levels);
    EntriesBefore(levels, level, inputs0, inputs1);
    forall x, y | x in FilesEntries(inputs0) && y in FilesEntries(inputs1) ensures x.key != y.key {
      FilesSubset(inputs0, levels[level], x);
      FilesSubset(inputs1, levels[level + 1], y);
      LayeredAt(levels, level, level + 1);
      NewerApart(FilesEntries(levels[level]), FilesEntries(levels[level + 1]), x, y);
    }
  }

  // ----- The runs that come out

  lemma InputSequences(inputs0: seq<File>, inputs1: seq<File>)
    ensures forall e :: e in Input(inputs0, inputs1) ==> e.key.sequence <= MAX_SEQUENCE
  {
    forall e | e in Input(inputs0, inputs1) ensures e.key.sequence <= MAX_SEQUENCE {
      var f := InputFile(inputs0, inputs1, e);
      var files := if e in FilesEntries(inputs0) then inputs0 else inputs1;
      var i := FileOf(files, e);
      assert GoodTable(files[i]);
    }
  }

  ghost function CuttingFor(levels: Levels, level: nat, grandparents: seq<File>, input: seq<Entry>, smallest: nat,
                            options: Options): Cutting {
    Cutting(input, smallest, BaseOf(levels, level), grandparents, options.maxGrandparentOverlap, options.full)
  }

  /** DoCompactionWork from its input files on. */
  method CompactionRuns(levels: Levels, level: nat, inputs0: seq<File>, inputs1: seq<File>, grandparents: seq<File>,
                        smallest: nat, options: Options)
    returns (runs: seq<seq<Entry>>, ghost input: seq<Entry>, ghost ends: seq<nat>)
    requires Layered(levels) && level + 1 < NUM_LEVELS && GoodParts(level, inputs0, inputs1) && smallest < MAX_SEQUENCE
    ensures Sorted(input) && Elements(input) == Input(inputs0, inputs1)
    ensures Flatten(runs) == Kept(input, smallest, BaseOf(levels, level), |input|)
    ensures forall i :: 0 <= i < |runs| ==> GoodRun(runs[i])
    ensures WellCut(CuttingFor(levels, level, grandparents, input, smallest, options), runs, ends)
  {
    hide Layered, Sorted, Kept, WellCut, NoDeeperFile, GoodParts, Input, BaseOf, GoodRun, Flatten;
    var merged := ReadInput(level, inputs0, inputs1);
    input := merged;
    InputSequences(inputs0, inputs1);
    forall e | e in input ensures e.key.sequence <= MAX_SEQUENCE {
      assert e in Elements(input);
    }
    var compaction := new Compaction(levels, level, grandparents, options.maxGrandparentOverlap);
    runs, ends := compaction.DoCompactionWork(merged, smallest, options.full);
    KeptSorted(input, smallest, BaseOf(levels, level), |input|);
    KeptSubset(input, smallest, BaseOf(levels, level));
    RunsGood(runs, input);
  }

  ghost predicate GoodRun(run: seq<Entry>) {
    run != [] && Sorted(run) && forall e :: e in run ==> e.key.sequence <= MAX_SEQUENCE
  }

  lemma ElementsOfBoth(a: seq<Entry>, b: seq<Entry>)
    ensures Elements(a + b) == Elements(a) + Elements(b)
  {
  }

  lemma GoodRunOf(run: seq<Entry>, input: seq<Entry>)
    requires run != [] && Sorted(run) && Elements(run) <= Elements(input)
    requires forall e :: e in input ==> e.key.sequence <= MAX_SEQUENCE
    ensures GoodRun(run)
  {
    forall e | e in run ensures e.key.sequence <= MAX_SEQUENCE {
      assert e in Elements(run);
    }
  }

  lemma {:induction false} RunsGood(runs: seq<seq<Entry>>, input: seq<Entry>)
    requires Sorted(Flatten(runs)) && Elements(Flatten(runs)) <= Elements(input)
    requires forall i :: 0 <= i < |runs| ==> runs[i] != []
    requires forall e :: e in input ==> e.key.sequence <= MAX_SEQUENCE
    ensures forall i :: 0 <= i < |runs| ==> GoodRun(runs[i])
  {
    hide Sorted, Elements, GoodRun;
    if runs != [] {
      var n := |runs| - 1;
      SortedParts(Flatten(runs[..n]), runs[n]);
      ElementsOfBoth(Flatten(runs[..n]), runs[n]);
      GoodRunOf(runs[n], input);
      RunsGood(runs[..n], input);
      forall i | 0 <= i < n ensures GoodRun(runs[i]) {
        assert runs[..n][i] == runs[i];
      }
    }
  }

  // ----- Writing the outputs

  /** Outputs that are on disk, protected from deletion, and not yet in the version. */
  ghost predicate Written(s: State, outputs: seq<File>) {
    && s.memory.Some? && DistinctNumbers(outputs)
    && forall f: File :: f in outputs ==>
         && f.number in s.memory.value.pendingOutputs && f.number in s.disk.tables && s.disk.tables[f.number] == f
         && !InVersion(s.disk.manifest.levels, f.number)
  }

  lemma VersionNumbers(s: State)
    requires Inv(s)
    ensures forall n: nat :: InVersion(s.disk.manifest.levels, n) ==> n < s.disk.manifest.nextFile
  {
    hide GoodTable, VersionMeaning, MemoryMeaning, LogsMeaning, FlushMeaning, GoodTrace;
    var levels := s.disk.manifest.levels;
    forall n: nat | InVersion(levels, n) ensures n < s.disk.manifest.nextFile {
      var l, i :| 0 <= l < |levels| && 0 <= i < |levels[l]| && levels[l][i].number == n;
      assert OnDisk(s.disk, levels[l][i]);
    }
  }

  lemma CounterAboveVersion(s: State)
    requires Inv(s) && s.memory.Some?
    ensures s.disk.manifest.nextFile <= s.memory.value.nextFile
  {
    hide GoodTable, VersionMeaning, MemoryMeaning, FlushMeaning, GoodTrace, Recoverable;
  }

  /** OpenCompactionOutputFile and FinishCompactionOutputFile for every run. */
  method WriteOutputs(ghost s: State, disk: Disk, memory: Memory, runs: seq<seq<Entry>>, size: seq<Entry> -> nat)
    returns (disk': Disk, memory': Memory, outputs: seq<File>, ghost run: seq<State>, ghost steps: seq<Step>)
    requires Inv(s) && s.disk == disk && s.memory == Some(memory) && forall i :: 0 <= i < |runs| ==> GoodRun(runs[i])
    ensures |run| == |steps| + 1 && Path(run, steps) && run[0] == s
            && run[|steps|] == State(disk', Some(memory'), s.trace)
    ensures |steps| == |outputs| && forall i :: 0 <= i < |steps| ==> steps[i] == WriteOutputStep(outputs[i])
    ensures FilesOf(outputs, runs) && Written(run[|steps|], outputs)
    ensures forall i :: 0 <= i < |runs| ==> outputs[i] == Table(memory.nextFile + i, size(runs[i]), runs[i])
    ensures disk'.manifest == disk.manifest && disk'.logs == disk.logs
    ensures memory' == memory.(nextFile := memory.nextFile + |runs|,
                               pendingOutputs := memory.pendingOutputs + Numbers(outputs))
  {
    hide Inv, GoodRun, GoodTable, Path, Next, Numbers, InVersion, Written;
    disk', memory', outputs, run, steps := disk, memory, [], [s], [];
    NoOutputs(s);
    VersionNumbers(s);
    CounterAboveVersion(s);
    for i := 0 to |runs|
      invariant |outputs| == i && |steps| == i && |run| == i + 1 && Path(run, steps) && run[0] == s
                && run[i] == State(disk', Some(memory'), s.trace)
      invariant forall j :: 0 <= j < i ==> steps[j] == WriteOutputStep(outputs[j]) && outputs[j].run == runs[j]
      invariant Written(run[i], outputs) && memory'.nextFile == memory.nextFile + i
      invariant forall j :: 0 <= j < i ==> outputs[j] == Table(memory.nextFile + j, size(runs[j]), runs[j])
      invariant forall f: File :: f in outputs ==> f.number < memory'.nextFile
      invariant disk'.manifest == disk.manifest && disk'.logs == disk.logs
      invariant memory' == memory.(nextFile := memory'.nextFile,
                                   pendingOutputs := memory.pendingOutputs + Numbers(outputs))
    {
      RunIsTable(memory'.nextFile, size(runs[i]), runs[i]);
      var f: File := Table(memory'.nextFile, size(runs[i]), runs[i]);
      disk' := disk'.(tables := disk'.tables[f.number := f]);
      memory' := memory'.(nextFile := memory'.nextFile + 1, pendingOutputs := memory'.pendingOutputs + {f.number});
      ghost var next := State(disk', Some(memory'), s.trace);
      WriteIsStep(run[i], next, f);
      WrittenStep(run[i], next, outputs, f);
      PathStep(run, steps, next, WriteOutputStep(f));
      OneMoreNumber(outputs, f);
      outputs := outputs + [f];
      run, steps := run + [next], steps + [WriteOutputStep(f)];
    }
  }

  lemma NoOutputs(s: State)
    ensures Path([s], []) && Numbers([]) == {} && (s.memory.Some? ==> Written(s, []))
  {
  }

  lemma WriteIsStep(s: State, s': State, f: File)
    requires WriteOutput(s, s', f)
    ensures Next(s, s', WriteOutputStep(f))
  {
  }

  lemma OneMoreNumber(files: seq<File>, f: File)
    ensures Numbers(files + [f]) == Numbers(files) + {f.number}
  {
    hide GoodTable;
    assert f in files + [f];
  }

  lemma RunIsTable(number: nat, size: nat, run: seq<Entry>)
    requires GoodRun(run)
    ensures run != [] && GoodTable(Table(number, size, run))
  {
  }

  lemma PathStep(run: seq<State>, steps: seq<Step>, next: State, step: Step)
    requires Path(run, steps) && Next(run[|steps|], next, step)
    ensures Path(run + [next], steps + [step])
  {
    hide Next;
  }

  lemma WrittenTables(s: State, outputs: seq<File>)
    requires Written(s, outputs)
    ensures forall f: File :: f in outputs ==> f.number in s.disk.tables && s.disk.tables[f.number] == f
  {
    hide GoodTable;
  }

  lemma WrittenStep(s: State, s': State, outputs: seq<File>, f: File)
    requires Written(s, outputs) && WriteOutput(s, s', f) && !InVersion(s.disk.manifest.levels, f.number)
    requires forall g: File :: g in outputs ==> g.number < f.number
    ensures Written(s', outputs + [f])
  {
    hide GoodTable, InVersion;
  }

  // ----- Installing the outputs

  function Moves(level: nat, files: seq<File>): seq<(nat, File)> {
    seq(|files|, i requires 0 <= i < |files| => (level, files[i]))
  }

  lemma {:induction false} MovesAt(level: nat, files: seq<File>, l: nat)
    ensures AddsAt(Moves(level, files), l) == if l == level then files else []
  {
    hide GoodTable;
    if files != [] {
      var n := |files| - 1;
      MovesAt(level, files[..n], l);
      assert Moves(level, files)[..n] == Moves(level, files[..n]);
    } else {
      assert Moves(level, files) == [];
    }
  }

  /** AddInputDeletions and the additions of InstallCompactionResults, or of a trivial move. */
  method CompactionEdit(level: nat, inputs0: seq<File>, inputs1: seq<File>, outputs: seq<File>) returns (edit: Edit)
    ensures edit == EditOf(level, inputs0, inputs1, outputs)
  {
    hide GoodTable;
    var deleted: set<(nat, nat)> := {};
    for i := 0 to |inputs0|
      invariant deleted == set f: File | f in inputs0[..i] :: (level, f.number)
    {
      assert inputs0[..i + 1] == inputs0[..i] + [inputs0[i]];
      deleted := deleted + {(level, inputs0[i].number)};
    }
    assert inputs0[..|inputs0|] == inputs0;
    for i := 0 to |inputs1|
      invariant deleted == (set f: File | f in inputs0 :: (level, f.number))
                  + (set f: File | f in inputs1[..i] :: (level + 1, f.number))
    {
      assert inputs1[..i + 1] == inputs1[..i] + [inputs1[i]];
      deleted := deleted + {(level + 1, inputs1[i].number)};
    }
    assert inputs1[..|inputs1|] == inputs1;
    edit := Edit(deleted, Moves(level + 1, outputs));
  }

  ghost function EditOf(level: nat, inputs0: seq<File>, inputs1: seq<File>, outputs: seq<File>): Edit {
    Edit((set f: File | f in inputs0 :: (level, f.number)) + (set f: File | f in inputs1 :: (level + 1, f.number)),
         Moves(level + 1, outputs))
  }

  /** Files of a version with the same number are the same file. */
  ghost predicate NumbersIdentify(levels: Levels) {
    forall l, m, f: File, g: File ::
      (0 <= l < |levels| && 0 <= m < |levels| && f in levels[l] && g in levels[m] && f.number == g.number) ==> f == g
  }

  lemma DiskIdentifies(s: State)
    requires Inv(s)
    ensures NumbersIdentify(s.disk.manifest.levels)
  {
    hide GoodTable, VersionMeaning, MemoryMeaning, LogsMeaning, FlushMeaning, GoodTrace;
    var levels := s.disk.manifest.levels;
    forall l, m, f: File, g: File | 0 <= l < |levels| && 0 <= m < |levels| && f in levels[l] && g in levels[m]
        && f.number == g.number
      ensures f == g
    {
      var i :| 0 <= i < |levels[l]| && levels[l][i] == f;
      var j :| 0 <= j < |levels[m]| && levels[m][j] == g;
      assert OnDisk(s.disk, levels[l][i]) && OnDisk(s.disk, levels[m][j]);
    }
  }

  /** The edit of a compaction installs its outputs: the number of an added file is not in use at its level. */
  lemma EditInstalls(levels: Levels, levels': Levels, level: nat, inputs0: seq<File>, inputs1: seq<File>,
                     outputs: seq<File>)
    requires level + 1 < NUM_LEVELS == |levels| == |levels'| && NumbersIdentify(levels)
    requires forall l :: 0 <= l < NUM_LEVELS ==> BySmallest(levels[l]) && BySmallest(levels'[l])
    requires (forall f :: f in inputs0 ==> f in levels[level]) && (forall f :: f in inputs1 ==> f in levels[level + 1])
    requires forall l :: 0 <= l < NUM_LEVELS ==>
               Members(levels'[l]) == ApplyAll(Members(levels[l]), [EditOf(level, inputs0, inputs1, outputs)], l)
    ensures Installed(levels, levels', level, inputs0, inputs1, outputs)
  {
    hide GoodTable, BySmallest, Rest, ApplyAll, EditOf, NumbersIdentify;
    forall l: nat | l < NUM_LEVELS
      ensures forall f :: f in levels'[l] <==>
                          (f in levels[l] && !(l == level && f in inputs0) && !(l == level + 1 && f in inputs1))
                          || (l == level + 1 && f in outputs)
    {
      OneEdit(levels, level, inputs0, inputs1, outputs, l);
      var edit := EditOf(level, inputs0, inputs1, outputs);
      forall f ensures f in levels'[l] <==> f in ApplyAll(Members(levels[l]), [edit], l) {
        assert f in levels'[l] <==> f in Members(levels'[l]);
      }
    }
    RestBySmallest(levels[level], inputs0);
    forall f ensures f in levels'[level] <==> f in Rest(levels[level], inputs0) {
      RestMember(levels[level], inputs0, f);
    }
    SameFilesSameOrder(levels'[level], Rest(levels[level], inputs0));
    forall f ensures f in levels'[level + 1] <==> f in Rest(levels[level + 1], inputs1) || f in outputs {
      RestMember(levels[level + 1], inputs1, f);
    }
    forall l | 0 <= l < NUM_LEVELS && l != level && l != level + 1 ensures levels'[l] == levels[l] {
      SameFilesSameOrder(levels'[l], levels[l]);
    }
  }

  lemma OneEdit(levels: Levels, level: nat, inputs0: seq<File>, inputs1: seq<File>, outputs: seq<File>, l: nat)
    requires l < |levels| && level + 1 < |levels| && NumbersIdentify(levels)
    requires (forall f :: f in inputs0 ==> f in levels[level]) && (forall f :: f in inputs1 ==> f in levels[level + 1])
    ensures forall f :: f in ApplyAll(Members(levels[l]), [EditOf(level, inputs0, inputs1, outputs)], l)
                        <==> (f in levels[l] && !(l == level && f in inputs0) && !(l == level + 1 && f in inputs1))
                             || (l == level + 1 && f in outputs)
  {
    hide GoodTable, EditOf, NumbersIdentify, ApplyAll;
    var e := EditOf(level, inputs0, inputs1, outputs);
    EditAdds(level, inputs0, inputs1, outputs, l);
    NoEdits(Members(levels[l]), l);
    ApplyAllStep(Members(levels[l]), [], e, l);
    assert [] + [e] == [e];
    forall f | f in levels[l]
      ensures (l, f.number) in e.deleted <==> (l == level && f in inputs0) || (l == level + 1 && f in inputs1)
    {
      DeletedByEdit(levels, level, inputs0, inputs1, outputs, l, f);
    }
  }

  lemma NoEdits(files: set<File>, l: nat)
    ensures ApplyAll(files, [], l) == files
  {
  }

  lemma EditAdds(level: nat, inputs0: seq<File>, inputs1: seq<File>, outputs: seq<File>, l: nat)
    ensures AddedAt(EditOf(level, inputs0, inputs1, outputs), l) == if l == level + 1 then Members(outputs) else {}
  {
    hide GoodTable;
    MovesAt(level + 1, outputs, l);
  }

  lemma DeletedByEdit(levels: Levels, level: nat, inputs0: seq<File>, inputs1: seq<File>, outputs: seq<File>, l: nat,
                      f: File)
    requires l < |levels| && level + 1 < |levels| && NumbersIdentify(levels) && f in levels[l]
    requires (forall g :: g in inputs0 ==> g in levels[level]) && (forall g :: g in inputs1 ==> g in levels[level + 1])
    ensures (l, f.number) in EditOf(level, inputs0, inputs1, outputs).deleted
            <==> (l == level && f in inputs0) || (l == level + 1 && f in inputs1)
  {
    hide GoodTable;
    if (l, f.number) in EditOf(level, inputs0, inputs1, outputs).deleted {
      if g: File :| g in inputs0 && (l, f.number) == (level, g.number) {
        assert f == g;
      } else {
        var h: File :| h in inputs1 && (l, f.number) == (level + 1, h.number);
        assert f == h;
      }
    }
  }

  /** The numbers of the added files are new at their level. */
  ghost predicate NewAt(levels: Levels, level: nat, outputs: seq<File>)
    requires level + 1 < |levels|
  {
    DistinctNumbers(outputs) && forall f, g: File :: f in outputs && g in levels[level + 1] ==> f.number != g.number
  }

  lemma EditFits(levels: Levels, level: nat, inputs0: seq<File>, inputs1: seq<File>, outputs: seq<File>)
    requires level + 1 < NUM_LEVELS == |levels| && NewAt(levels, level, outputs) && NumbersIdentify(levels)
    ensures GoodEdit(EditOf(level, inputs0, inputs1, outputs))
    ensures forall l :: 0 <= l < NUM_LEVELS ==>
              var edits := [EditOf(level, inputs0, inputs1, outputs)];
              NumbersMean(levels[l], edits, l) && NotTwice(levels[l], edits, l)
  {
    hide GoodTable, AddsAt, NumbersMean, NotTwice, NumbersIdentify;
    var e := EditOf(level, inputs0, inputs1, outputs);
    forall l | 0 <= l < NUM_LEVELS ensures NumbersMean(levels[l], [e], l) && NotTwice(levels[l], [e], l) {
      MovesAt(level + 1, outputs, l);
      LevelIdentifies(levels, l);
      NewFiles(levels[l], e, l);
    }
  }

  lemma LevelIdentifies(levels: Levels, l: nat)
    requires NumbersIdentify(levels) && l < |levels|
    ensures forall f: File, g: File :: f in levels[l] && g in levels[l] && f.number == g.number ==> f == g
  {
  }

  lemma NewFiles(base: seq<File>, e: Edit, level: nat)
    requires DistinctNumbers(AddsAt(e.added, level))
    requires forall f: File, g: File :: f in base && g in base && f.number == g.number ==> f == g
    requires forall f: File, g: File :: f in AddsAt(e.added, level) && g in base ==> f.number != g.number
    ensures NumbersMean(base, [e], level) && NotTwice(base, [e], level)
  {
    hide GoodTable, AddsAt, ApplyAll;
    forall f: File ensures AddedBy([e], level, f) <==> f in AddsAt(e.added, level) {
      assert [] + [e] == [e];
      AddedByStep([], e, level, f);
    }
  }

  lemma VersionShape(s: State)
    requires Inv(s)
    ensures var levels := s.disk.manifest.levels;
            Layered(levels) && |levels| == NUM_LEVELS && forall l :: 0 <= l < NUM_LEVELS ==> BySmallest(levels[l])
  {
    hide GoodTable, Layered, Recoverable, MemoryMeaning, LogsMeaning, FlushMeaning, GoodTrace, LevelsEntries,
         SameViews, SmallerFile, BySmallest, SortedDisjoint, LastSequence, Entries;
    var levels := s.disk.manifest.levels;
    forall l: nat | 0 < l < NUM_LEVELS ensures BySmallest(levels[l]) {
      LayeredLevel(levels, l);
      DisjointBySmallest(levels[l]);
    }
  }

  /** LogAndApply with the edit of a compaction: the next version, with the counters as they are now. */
  method InstallCompactionResults(ghost s: State, manifest: Manifest, memory: Memory, level: nat, inputs0: seq<File>,
                                  inputs1: seq<File>, outputs: seq<File>) returns (manifest': Manifest)
    requires Inv(s) && s.memory == Some(memory) && s.disk.manifest == manifest && level + 1 < NUM_LEVELS
    requires (forall f :: f in inputs0 ==> f in manifest.levels[level])
             && (forall f :: f in inputs1 ==> f in manifest.levels[level + 1])
    requires NewAt(manifest.levels, level, outputs) && forall f :: f in outputs ==> f.number < memory.nextFile
    ensures Installed(manifest.levels, manifest'.levels, level, inputs0, inputs1, outputs)
    ensures manifest' == Manifest(manifest'.levels, manifest.logNumber, memory.nextFile, memory.lastSequence)
    ensures Captured(s, manifest') && manifest.lastSequence <= manifest'.lastSequence
  {
    hide GoodTable, Inv, BySmallest, NoneSmaller, NumbersMean, NotTwice, ApplyAll, EditOf, NewAt, NumbersIdentify,
         Installed, Captured;
    VersionShape(s);
    DiskIdentifies(s);
    EditFits(manifest.levels, level, inputs0, inputs1, outputs);
    var edit := CompactionEdit(level, inputs0, inputs1, outputs);
    var levels := BuildVersion(manifest.levels, [edit]);
    EditInstalls(manifest.levels, levels, level, inputs0, inputs1, outputs);
    manifest' := Manifest(levels, manifest.logNumber, memory.nextFile, memory.lastSequence);
    InstallCaptured(s, manifest', level, inputs0, inputs1, outputs);
  }

  lemma InstallCaptured(s: State, manifest': Manifest, level: nat, inputs0: seq<File>, inputs1: seq<File>,
                        outputs: seq<File>)
    requires Inv(s) && s.memory.Some? && level + 1 < NUM_LEVELS
    requires Installed(s.disk.manifest.levels, manifest'.levels, level, inputs0, inputs1, outputs)
    requires forall f :: f in outputs ==> f.number < s.memory.value.nextFile
    requires manifest'.nextFile == s.memory.value.nextFile && manifest'.lastSequence == s.memory.value.lastSequence
    ensures Captured(s, manifest') && s.disk.manifest.lastSequence <= manifest'.lastSequence
  {
    hide GoodTable, Layered, SameViews, LevelsEntries, Consecutive, Replay, LastSequence, Entries, FilesEntries,
         BySmallest, Rest, FlushMeaning;
    var levels, levels' := s.disk.manifest.levels, manifest'.levels;
    forall l, f: File | 0 <= l < |levels'| && f in levels'[l] ensures f.number < manifest'.nextFile {
      if l == level {
        RestMember(levels[l], inputs0, f);
      } else if l == level + 1 {
        RestMember(levels[l], inputs1, f);
      }
      if f in levels[l] {
        var i :| 0 <= i < |levels[l]| && levels[l][i] == f;
        assert OnDisk(s.disk, levels[l][i]);
      }
    }
  }

  // ----- A compaction as a whole

  lemma MoveIsNew(s: State, level: nat, inputs0: seq<File>)
    requires Inv(s) && s.memory.Some? && level + 1 < NUM_LEVELS && |inputs0| == 1
             && inputs0[0] in s.disk.manifest.levels[level]
    ensures NewAt(s.disk.manifest.levels, level, inputs0) && inputs0[0].number < s.memory.value.nextFile
  {
    hide GoodTable, Inv, Layered, FilesEntries, SortedDisjoint, NumbersIdentify;
    var levels, f := s.disk.manifest.levels, inputs0[0];
    VersionShape(s);
    DiskIdentifies(s);
    VersionNumbers(s);
    CounterAboveVersion(s);
    var i :| 0 <= i < |levels[level]| && levels[level][i] == f;
    assert InVersion(levels, f.number);
    forall g: File | g in levels[level + 1] ensures f.number != g.number {
      if f.number == g.number {
        SameNumber(levels, level, f, g);
        var j :| 0 <= j < |levels[level + 1]| && levels[level + 1][j] == g;
        HasEntry(levels[level], i, f.run[0]);
        HasEntry(levels[level + 1], j, f.run[0]);
        LayeredAt(levels, level, level + 1);
      }
    }
  }

  lemma SameNumber(levels: Levels, level: nat, f: File, g: File)
    requires NumbersIdentify(levels) && level + 1 < |levels| && f in levels[level] && g in levels[level + 1]
             && f.number == g.number
    ensures f == g
  {
  }

  /** The one input file goes to the next level. */
  method MoveFile(ghost s: State, disk: Disk, memory: Memory, level: nat, inputs0: seq<File>) returns (disk': Disk)
    requires Inv(s) && s.disk == disk && s.memory == Some(memory) && level + 1 < NUM_LEVELS && |inputs0| == 1
    requires GoodInputs(disk.manifest.levels[level], disk.manifest.levels[level + 1], inputs0, [])
    ensures disk' == disk.(manifest := Manifest(disk'.manifest.levels, disk.manifest.logNumber, memory.nextFile,
                                                memory.lastSequence))
    ensures Next(s, State(disk', s.memory, s.trace), CommitMoveStep(level, inputs0, disk'.manifest))
  {
    hide GoodTable, Inv, Installed, Captured, NewAt, AllBefore, AllAfter, Newer;
    MoveIsNew(s, level, inputs0);
    VersionShape(s);
    var manifest := InstallCompactionResults(s, disk.manifest, memory, level, inputs0, [], inputs0);
    disk' := disk.(manifest := manifest);
  }

  lemma OutputsAreNew(s: State, level: nat, outputs: seq<File>)
    requires Inv(s) && Written(s, outputs) && level + 1 < NUM_LEVELS
    ensures NewAt(s.disk.manifest.levels, level, outputs)
    ensures forall f :: f in outputs ==> f.number < s.memory.value.nextFile
  {
    hide GoodTable, VersionMeaning, MemoryMeaning, LogsMeaning, GoodTrace, Recoverable;
    var next := s.disk.manifest.levels[level + 1];
    forall f, g: File | f in outputs && g in next ensures f.number != g.number {
      var i :| 0 <= i < |next| && next[i] == g;
      assert s.disk.manifest.levels[level + 1][i].number == g.number;
    }
  }

  /** The installation after the work: a step of the database, exactly if readers at the smallest snapshot or later do
      not notice, and that is exactly if no dropped tombstone uncovers a value. */
  method CommitOutputs(ghost s: State, disk: Disk, memory: Memory, level: nat, inputs0: seq<File>, inputs1: seq<File>,
                       ghost input: seq<Entry>, outputs: seq<File>, ghost smallest: nat)
    returns (disk': Disk)
    requires Inv(s) && s.disk == disk && s.memory == Some(memory) && Chosen(s, level, inputs0, inputs1, input, smallest)
    requires Written(s, outputs) && SortedDisjoint(outputs)
    requires FilesEntries(outputs) == Elements(Kept(input, smallest, BaseOf(disk.manifest.levels, level), |input|))
    ensures disk' == disk.(manifest := Manifest(disk'.manifest.levels, disk.manifest.logNumber, memory.nextFile,
                                                memory.lastSequence))
    ensures Installed(disk.manifest.levels, disk'.manifest.levels, level, inputs0, inputs1, outputs)
    ensures SameViews(LevelsEntries(disk.manifest.levels), LevelsEntries(disk'.manifest.levels), smallest)
            <==> Harmless(s, level, inputs0, inputs1, input, smallest)
    ensures Harmless(s, level, inputs0, inputs1, input, smallest) ==>
              Next(s, State(disk', Some(memory), Respected(s.trace, smallest)),
                   CommitCompactionStep(level, inputs0, inputs1, input, outputs, smallest, disk'.manifest))
  {
    hide GoodTable, Inv, Installed, Captured, NewAt, AllBefore, AllAfter, Newer, Kept, BaseOf, NothingUncovered,
         SortedDisjoint, Layered, SameViews, LevelsEntries, FilesEntries, Sorted, Staying, InVersion;
    OutputsAreNew(s, level, outputs);
    VersionShape(s);
    var manifest := InstallCompactionResults(s, disk.manifest, memory, level, inputs0, inputs1, outputs);
    disk' := disk.(manifest := manifest);
    InstallMeaning(disk.manifest.levels, manifest.levels, level, inputs0, inputs1, outputs, input, smallest,
                   BaseOf(disk.manifest.levels, level));
  }

  /** Compactions have respected snapshots from here on. */
  ghost function Respected(t: Trace, smallest: nat): Trace {
    t.(horizon := if smallest > t.horizon then smallest else t.horizon)
  }

  ghost predicate OldestInUse(snapshots: set<nat>, lastSequence: nat, smallest: nat) {
    && (if snapshots == {} then smallest == lastSequence else smallest in snapshots)
    && forall t :: t in snapshots ==> smallest <= t
  }

  /** The oldest snapshot, or the last sequence number without any. */
  method SmallestSnapshot(snapshots: set<nat>, lastSequence: nat) returns (smallest: nat)
    requires forall t :: t in snapshots ==> t <= lastSequence
    ensures smallest <= lastSequence && OldestInUse(snapshots, lastSequence, smallest)
  {
    if snapshots == {} {
      smallest := lastSequence;
    } else {
      ghost var oldest := Oldest(snapshots);
      smallest :| smallest in snapshots && forall t :: t in snapshots ==> smallest <= t;
    }
  }

  lemma {:induction false} Oldest(snapshots: set<nat>) returns (s: nat)
    requires snapshots != {}
    ensures s in snapshots && forall t :: t in snapshots ==> s <= t
  {
    s :| s in snapshots;
    var rest := snapshots - {s};
    forall t | t in snapshots ensures t == s || t in rest {
    }
    if rest != {} {
      var r := Oldest(rest);
      s := if r < s then r else s;
    }
  }

  lemma MemoryBounds(s: State)
    requires Inv(s) && s.memory.Some?
    ensures s.memory.value.lastSequence < MAX_SEQUENCE
    ensures forall t :: t in s.memory.value.snapshots ==> t <= s.memory.value.lastSequence
  {
    hide GoodTable, VersionMeaning, LogsMeaning, FlushMeaning, Recoverable, Consecutive, LastSequence, Entries, Sorted;
    SequenceMonotone(s.trace.history, s.trace.applied, |s.trace.history|);
  }

  /** DoCompactionWork with the installation and CleanupCompaction behind it. */
  method RunCompaction(ghost s: State, disk: Disk, memory: Memory, level: nat, inputs0: seq<File>, inputs1: seq<File>,
                       grandparents: seq<File>, options: Options)
    returns (disk': Disk, memory': Memory, ghost run: seq<State>, ghost steps: seq<Step>, ghost job: Job)
    requires Inv(s) && s.disk == disk && s.memory == Some(memory) && level + 1 < NUM_LEVELS
    requires GoodInputs(disk.manifest.levels[level], disk.manifest.levels[level + 1], inputs0, inputs1)
    requires PartSorted(level, inputs0) && SortedDisjoint(inputs1)
    ensures job.Compacted? && job.level == level && job.inputs0 == inputs0 && job.inputs1 == inputs1
            && job.grandparents == grandparents
    ensures CompactionDone(s, disk', memory', run, steps, job)
    ensures CutInto(disk.manifest.levels, options, job) && NumberedFrom(memory.nextFile, options, job.outputs)
  {
    hide GoodTable, Inv, GoodRun, Sorted, SortedDisjoint, PartSorted, GoodParts, Layered, Kept, Flatten, BaseOf,
         Installed, Next, GoodInputs, SameViews, LevelsEntries, FilesEntries, NothingUncovered, Staying, Written,
         Elements, Path, CutInto, NumberedFrom, WellCut, CuttingFor, DistinctNumbers;
    VersionShape(s);
    ChosenParts(disk.manifest.levels, level, inputs0, inputs1);
    MemoryBounds(s);
    var smallest := SmallestSnapshot(memory.snapshots, memory.lastSequence);
    var runs, input, ends := CompactionRuns(disk.manifest.levels, level, inputs0, inputs1, grandparents, smallest,
                                            options);
    var outputs;
    disk', memory', outputs, run, steps := WriteOutputs(s, disk, memory, runs, options.size);
    KeptSorted(input, smallest, BaseOf(disk.manifest.levels, level), |input|);
    OutputsGood(outputs, runs);
    ghost var written := run[|steps|];
    PathInv(run, steps, |steps|);
    disk' := CommitOutputs(written, disk', memory', level, inputs0, inputs1, input, outputs, smallest);
    ghost var commit := CommitCompactionStep(level, inputs0, inputs1, input, outputs, smallest, disk'.manifest);
    ghost var committed := State(disk', Some(memory'), Respected(s.trace, smallest));
    var numbers := set f | f in outputs :: f.number;
    assert numbers == Numbers(outputs);
    assert memory.pendingOutputs + numbers - numbers == memory.pendingOutputs - numbers;
    WrittenTables(written, outputs);
    memory' := memory'.(pendingOutputs := memory'.pendingOutputs - numbers);
    ghost var cleaned := State(disk', Some(memory'), Respected(s.trace, smallest));
    CleanupIsStep(committed, cleaned, numbers);
    if Harmless(s, level, inputs0, inputs1, input, smallest) {
      PathStep(run, steps, committed, commit);
      PathStep(run + [committed], steps + [commit], cleaned, CleanupStep(numbers));
    }
    run, steps := run + [committed] + [cleaned], steps + [commit] + [CleanupStep(numbers)];
    job := Compacted(level, inputs0, inputs1, grandparents, input, outputs, smallest);
    OutputsAsCut(disk.manifest.levels, memory.nextFile, options, runs, ends, job);
  }

  lemma OutputsAsCut(levels: Levels, nextFile: nat, options: Options, runs: seq<seq<Entry>>, ends: seq<nat>, job: Job)
    requires job.Compacted? && FilesOf(job.outputs, runs)
    requires forall i :: 0 <= i < |runs| ==> job.outputs[i] == Table(nextFile + i, options.size(runs[i]), runs[i])
    requires WellCut(CuttingFor(levels, job.level, job.grandparents, job.input, job.smallest, options), runs, ends)
    ensures CutInto(levels, options, job) && NumberedFrom(nextFile, options, job.outputs)
  {
    hide GoodTable, WellCut, CuttingFor;
    assert TableRuns(job.outputs) == runs;
  }

  /** The outputs end where the grandparents passed or their own size end them. */
  ghost predicate CutInto(levels: Levels, options: Options, job: Job)
    requires job.Compacted?
  {
    exists ends :: WellCut(CuttingFor(levels, job.level, job.grandparents, job.input, job.smallest, options),
                           TableRuns(job.outputs), ends)
  }

  ghost predicate NumberedFrom(nextFile: nat, options: Options, outputs: seq<File>) {
    forall i :: 0 <= i < |outputs| ==>
                  outputs[i].number == nextFile + i && outputs[i].size == options.size(outputs[i].run)
  }

  lemma CleanupIsStep(s: State, s': State, numbers: set<nat>)
    requires s.memory.Some?
             && s' == s.(memory := Some(s.memory.value.(pendingOutputs := s.memory.value.pendingOutputs - numbers)))
    ensures Next(s, s', CleanupStep(numbers))
  {
  }

  datatype Job =
    | Nothing
    | Flushed
    | Moved(level: nat, inputs0: seq<File>, inputs1: seq<File>, grandparents: seq<File>)
    | Compacted(level: nat, inputs0: seq<File>, inputs1: seq<File>, grandparents: seq<File>, input: seq<Entry>,
                outputs: seq<File>, smallest: nat)

  /** A compaction of legal inputs has replaced them by its outputs; readers at its smallest snapshot or later see the
      same data exactly if no dropped tombstone uncovers a value, and then it took steps of the database. */
  ghost predicate CompactionDone(s: State, disk': Disk, memory': Memory, run: seq<State>, steps: seq<Step>, job: Job)
    requires job.Compacted?
  {
    && Chosen(s, job.level, job.inputs0, job.inputs1, job.input, job.smallest)
    && Installed(s.disk.manifest.levels, disk'.manifest.levels, job.level, job.inputs0, job.inputs1, job.outputs)
    && (SameViews(LevelsEntries(s.disk.manifest.levels), LevelsEntries(disk'.manifest.levels), job.smallest)
        <==> Harmless(s, job.level, job.inputs0, job.inputs1, job.input, job.smallest))
    && |run| == |steps| + 1 && run[0] == s
    && run[|steps|] == State(disk', Some(memory'), Respected(s.trace, job.smallest))
    && OldestInUse(s.memory.value.snapshots, s.memory.value.lastSequence, job.smallest)
    && memory' == s.memory.value.(nextFile := s.memory.value.nextFile + |job.outputs|,
                                  pendingOutputs := s.memory.value.pendingOutputs - Numbers(job.outputs))
    && disk' == s.disk.(manifest := Manifest(disk'.manifest.levels, s.disk.manifest.logNumber, memory'.nextFile,
                                             memory'.lastSequence),
                        tables := disk'.tables)
    && (forall f: File :: f in job.outputs ==> f.number in disk'.tables && disk'.tables[f.number] == f)
    && |steps| == |job.outputs| + 2 && steps[|steps| - 1] == CleanupStep(Numbers(job.outputs))
    && (forall i :: 0 <= i < |job.outputs| ==> steps[i] == WriteOutputStep(job.outputs[i]))
    && steps[|steps| - 2] == CommitCompactionStep(job.level, job.inputs0, job.inputs1, job.input, job.outputs,
                                                  job.smallest, disk'.manifest)
    && (Harmless(s, job.level, job.inputs0, job.inputs1, job.input, job.smallest) ==> Path(run, steps))
  }

  // ----- The immutable memtable comes first

  lemma ImmIsTable(s: State, size: nat)
    requires Inv(s) && s.memory.Some? && s.memory.value.imm.Some? && s.memory.value.imm.value != []
    ensures GoodTable(Table(s.memory.value.nextFile, size, s.memory.value.imm.value))
  {
    hide VersionMeaning, LogsMeaning, FlushMeaning, Recoverable, Consecutive, LastSequence, Entries, Sorted;
    var t, imm := s.trace, s.memory.value.imm.value;
    SequenceMonotone(t.history, t.switched, |t.history|);
    forall e | e in imm ensures e.key.sequence <= MAX_SEQUENCE {
      assert e in Elements(imm);
      EntriesRange(t.history, t.flushed, t.switched, e);
    }
  }

  /** The immutable memtable becomes one table, unless it is empty, that goes as deep as it may. */
  ghost predicate FlushSteps(s: State, options: Options, steps: seq<Step>) {
    && s.memory.Some? && s.memory.value.imm.Some? && |s.disk.manifest.levels| == NUM_LEVELS
    && |steps| == 2 && steps[0].BuildFlushStep? && steps[1].CommitFlushStep?
    && var imm, files := s.memory.value.imm.value, steps[0].files;
       && (if imm == [] then files == []
           else |files| == 1 && files[0] == Table(s.memory.value.nextFile, options.size(imm), imm))
       && FlushLevel(s.disk.manifest.levels, files, options.maxGrandparentOverlap, steps[1].level)
       && steps[1].manifest == Manifest(steps[1].manifest.levels, s.memory.value.logNumber, s.memory.value.nextFile + 1,
                                        s.memory.value.lastSequence)
  }

  /** CompactMemTable: builds the table and commits it. */
  method FlushImm(ghost s: State, disk: Disk, memory: Memory, options: Options)
    returns (disk': Disk, memory': Memory, ghost run: seq<State>, ghost steps: seq<Step>)
    requires Inv(s) && s.disk == disk && s.memory == Some(memory) && memory.imm.Some? && memory.flushing.None?
    ensures Path(run, steps) && |run| == 3 && FlushSteps(s, options, steps)
    ensures run[0] == s && run[2] == State(disk', Some(memory'), s.trace.(flushed := s.trace.switched))
    ensures memory'.imm == None
  {
    hide GoodTable, Inv, CommitFlush, FlushLevel;
    var imm := memory.imm.value;
    var files: seq<File> := [];
    var tables := disk.tables;
    if imm != [] {
      ImmIsTable(s, options.size(imm));
      var f: File := Table(memory.nextFile, options.size(imm), imm);
      files := [f];
      tables := tables[memory.nextFile := f];
    }
    var built := memory.(flushing := Some(files), nextFile := memory.nextFile + 1);
    disk' := disk.(tables := tables);
    ghost var middle := State(disk', Some(built), s.trace);
    assert Next(s, middle, BuildFlushStep(files));
    KeepInv(s, middle, BuildFlushStep(files));
    var level, manifest := CompactMemTable(middle, disk.manifest, built, options.maxGrandparentOverlap);
    disk' := disk'.(manifest := manifest);
    memory' := built.(imm := None, flushing := None);
    ghost var last := State(disk', Some(memory'), s.trace.(flushed := s.trace.switched));
    run, steps := [s, middle, last], [BuildFlushStep(files), CommitFlushStep(level, manifest)];
  }

  /** What a background job leaves: it took steps of the database, except that a compaction need not be harmless. */
  ghost predicate JobDone(s: State, disk': Disk, memory': Memory, run: seq<State>, steps: seq<Step>, job: Job) {
    && |run| == |steps| + 1 && run[0] == s && run[|steps|] == State(disk', Some(memory'), run[|steps|].trace)
    && (job.Compacted? ==> CompactionDone(s, disk', memory', run, steps, job))
    && (!job.Compacted? ==> Path(run, steps))
    && (job.Nothing? ==> steps == [])
    && (job.Flushed? ==> |steps| == 2 && steps[0].BuildFlushStep? && steps[1].CommitFlushStep?)
    && (job.Moved? ==> steps == [CommitMoveStep(job.level, job.inputs0, disk'.manifest)])
  }

  /** What the job has to do with the files picked: it takes their completion, as a trivial move exactly when that is
      one file, without files of the next level and with few grandparents, and nobody asked for its rewriting. */
  ghost predicate JobFits(levels: Levels, level: nat, picked: seq<File>, isManual: bool, nextFile: nat,
                          options: Options, job: Job) {
    && (job.Moved? || job.Compacted?) && job.level == level
    && (exists start0, e :: SetUp(levels, level, picked, options.expandedLimit, start0, e, job.inputs0, job.inputs1,
                                  job.grandparents))
    && (job.Moved? <==> !isManual && |job.inputs0| == 1 && job.inputs1 == []
                        && TotalFileSize(job.grandparents) <= options.maxGrandparentOverlap)
    && (job.Compacted? ==> CutInto(levels, options, job) && NumberedFrom(nextFile, options, job.outputs))
  }

  /** The job that a request leads to: none if it picks no file. */
  ghost predicate Answers(levels: Levels, r: Request, nextFile: nat, options: Options, job: Job)
    requires GoodRequest(levels, r)
  {
    exists picked: seq<File> ::
      PickedFor(levels, r, picked)
      && if picked == [] then job.Nothing?
         else JobFits(levels, r.level, picked, r.ManualCompaction?, nextFile, options, job)
  }

  /** A compaction of the picked files, or a trivial move. */
  method CompactPicked(ghost s: State, disk: Disk, memory: Memory, level: nat, picked: seq<File>, isManual: bool,
                       options: Options)
    returns (disk': Disk, memory': Memory, ghost run: seq<State>, ghost steps: seq<Step>, ghost job: Job)
    requires Inv(s) && s.disk == disk && s.memory == Some(memory) && level + 1 < NUM_LEVELS == |disk.manifest.levels|
    requires StartInputs(disk.manifest.levels[level], level, picked)
    ensures JobDone(s, disk', memory', run, steps, job)
    ensures JobFits(disk.manifest.levels, level, picked, isManual, memory.nextFile, options, job)
    ensures (job.Moved? || job.Compacted?) && forall f :: f in picked ==> f in job.inputs0
  {
    hide GoodTable, Inv, Next, Layered, GoodInputs, SortedDisjoint, NewerByNumber, StartInputs, CompactionDone, SetUp,
         CutInto, NumberedFrom;
    VersionShape(s);
    memory' := memory;
    var inputs0, inputs1, grandparents, pointer, start0, e
      := SetupOtherInputs(disk.manifest.levels, level, picked, options.expandedLimit);
    if !isManual && |inputs0| == 1 && inputs1 == [] && TotalFileSize(grandparents) <= options.maxGrandparentOverlap {
      job := Moved(level, inputs0, inputs1, grandparents);
      disk' := MoveFile(s, disk, memory, level, inputs0);
      run, steps := [s, State(disk', Some(memory), s.trace)], [CommitMoveStep(level, inputs0, disk'.manifest)];
    } else {
      disk', memory', run, steps, job := RunCompaction(s, disk, memory, level, inputs0, inputs1, grandparents,
                                                        options);
      DoneShape(s, disk', memory', run, steps, job);
    }
  }

  /** DBImpl::BackgroundCompaction. */
  method BackgroundCompaction(ghost s: State, disk: Disk, memory: Memory, request: Option<Request>, options: Options)
    returns (disk': Disk, memory': Memory, ghost run: seq<State>, ghost steps: seq<Step>, ghost job: Job)
    requires Inv(s) && s.disk == disk && s.memory == Some(memory) && memory.flushing.None?
    requires request.Some? ==> GoodRequest(disk.manifest.levels, request.value)
    ensures JobDone(s, disk', memory', run, steps, job) && (job.Flushed? <==> memory.imm.Some?)
    ensures job.Flushed? ==> FlushSteps(s, options, steps)
    ensures memory.imm.None? ==>
              if request.None? then job.Nothing?
              else Answers(disk.manifest.levels, request.value, memory.nextFile, options, job)
    ensures job.Nothing? ==> disk' == disk && memory' == memory
    ensures job.Nothing? && request.Some? ==>
              request.value.ManualCompaction?
              && forall f: File :: f in disk.manifest.levels[request.value.level] ==>
                    !Overlaps(f, request.value.begin, request.value.end)
  {
    hide GoodTable, Inv, Next, Layered, StartInputs, CompactionDone, PickedFor, JobFits, FlushLevel;
    disk', memory', run, steps, job := disk, memory, [s], [], Nothing;
    if memory.imm.Some? {
      job := Flushed;
      disk', memory', run, steps := FlushImm(s, disk, memory, options);
    } else if request.Some? {
      VersionShape(s);
      var picked := Pick(disk.manifest.levels, request.value);
      if picked != [] {
        disk', memory', run, steps, job
          := CompactPicked(s, disk, memory, request.value.level, picked, request.value.ManualCompaction?, options);
      }
    }
  }

  /** So a background job keeps the invariant in every state it passes through, with a harmless compaction as its only
      condition. */
  lemma JobKeepsInv(s: State, disk': Disk, memory': Memory, run: seq<State>, steps: seq<Step>, job: Job, n: nat)
    requires Inv(s) && JobDone(s, disk', memory', run, steps, job) && n < |run|
    requires job.Compacted? && CompactionDone(s, disk', memory', run, steps, job) ==>
               Harmless(s, job.level, job.inputs0, job.inputs1, job.input, job.smallest)
    ensures Path(run, steps) && Inv(run[n])
  {
    hide Inv, Next, Harmless;
    PathInv(run, steps, n);
  }

  lemma DoneShape(s: State, disk': Disk, memory': Memory, run: seq<State>, steps: seq<Step>, job: Job)
    requires job.Compacted? && CompactionDone(s, disk', memory', run, steps, job)
    ensures |run| == |steps| + 1 && run[0] == s && run[|steps|] == State(disk', Some(memory'), run[|steps|].trace)
    ensures s.memory.Some? && job.level + 1 < |s.disk.manifest.levels|
    ensures Harmless(s, job.level, job.inputs0, job.inputs1, job.input, job.smallest) ==> Path(run, steps)
  {
    hide Path, Harmless;
  }
}
