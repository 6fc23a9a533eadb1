/** db_impl.cc, Recover and RecoverLogFile: turning the live logs into level-0 tables. */
module Recovery {
  import opened Keys
  import opened Versions
  import opened Histories
  import opened Lsm

  ghost predicate Older(f: File, g: File) {
    f.number < g.number && forall x, y :: x in f.run && y in g.run ==> x.key.sequence < y.key.sequence
  }

  /** Files in the order of their age: numbers and sequence numbers grow together. */
  ghost predicate InOrder(files: seq<File>) {
    forall i, j :: 0 <= i < j < |files| ==> Older(files[i], files[j])
  }

  /** The files hold batches a up to b of the history and have numbers from lo up to hi. */
  ghost predicate Recovered(files: seq<File>, h: seq<Batch>, a: nat, b: nat, lo: nat, hi: nat) {
    && a <= b <= |h| && lo <= hi
    && InOrder(files) && FilesEntries(files) == Entries(h, a, b)
    && forall f :: f in files ==> lo <= f.number < hi
  }

  lemma RecoveredAppend(files: seq<File>, h: seq<Batch>, a: nat, b: nat, c: nat, lo: nat, hi: nat, f: File)
    requires Consecutive(h) && Recovered(files, h, a, b, lo, hi) && b <= c <= |h|
    requires f.number == hi && Elements(f.run) == Entries(h, b, c)
    ensures Recovered(files + [f], h, a, c, lo, hi + 1)
  {
    hide GoodTable, Consecutive, InOrder, FilesEntries, Entries, LastSequence;
    var all := files + [f];
    EntriesSplit(h, a, b, c);
    forall e ensures e in FilesEntries(all) <==> e in FilesEntries(files) || e in f.run {
      OutputMember(all, e);
      assert all[..|files|] == files;
    }
    forall x, y | x in FilesEntries(files) && y in f.run ensures x.key.sequence < y.key.sequence {
      EntriesRange(h, a, b, x);
      assert y in Elements(f.run);
      EntriesRange(h, b, c, y);
    }
    InOrderAppend(files, f);
  }

  lemma InOrderAppend(files: seq<File>, f: File)
    requires InOrder(files) && forall g :: g in files ==> g.number < f.number
    requires forall x, y :: x in FilesEntries(files) && y in f.run ==> x.key.sequence < y.key.sequence
    ensures InOrder(files + [f])
  {
  }

  lemma RecoveredSame(files: seq<File>, h: seq<Batch>, a: nat, b: nat, c: nat, lo: nat, hi: nat)
    requires Recovered(files, h, a, b, lo, hi) && b <= c <= |h| && Entries(h, b, c) == {}
    ensures Recovered(files, h, a, c, lo, hi + 1)
  {
  }

  function TableOf(run: seq<Entry>, number: nat, size: seq<Entry> -> nat): seq<Table> {
    if run == [] then [] else [Table(number, size(run), run)]
  }

  function CutBefore(b: nat, cuts: seq<nat>, i: nat): nat {
    if 0 < i <= |cuts| then cuts[i - 1] else b
  }

  /** Where the memtable was written out while batches b up to c were replayed into it: each time it was full, and at
      the end if there was anything in it. */
  ghost predicate CutsWhenFull(h: seq<Batch>, b: nat, c: nat, full: seq<Entry> -> bool, cuts: seq<nat>) {
    forall i :: 0 <= i < |cuts| ==> FullAt(h, CutBefore(b, cuts, i), cuts[i], c, full)
  }

  ghost predicate FullAt(h: seq<Batch>, from: nat, to: nat, c: nat, full: seq<Entry> -> bool) {
    && from < to <= c <= |h|
    && (to == c || full(MemOf(h, from, to)))
    && forall mid :: from < mid < to ==> !full(MemOf(h, from, mid))
  }

  /** The tables written there, one number for each time. */
  function TablesAt(h: seq<Batch>, b: nat, cuts: seq<nat>, nextFile: nat, size: seq<Entry> -> nat): seq<Table> {
    if cuts == [] then []
    else
      var n := |cuts| - 1;
      var from, to := CutBefore(b, cuts, n), cuts[n];
      TablesAt(h, b, cuts[..n], nextFile, size)
      + if from <= to <= |h| then TableOf(MemOf(h, from, to), nextFile + n, size) else []
  }

  lemma CutMore(h: seq<Batch>, b: nat, c: nat, full: seq<Entry> -> bool, cuts: seq<nat>, to: nat, nextFile: nat,
                size: seq<Entry> -> nat)
    requires CutsWhenFull(h, b, c, full, cuts) && FullAt(h, CutBefore(b, cuts, |cuts|), to, c, full)
    ensures CutsWhenFull(h, b, c, full, cuts + [to])
    ensures TablesAt(h, b, cuts + [to], nextFile, size)
            == TablesAt(h, b, cuts, nextFile, size)
               + TableOf(MemOf(h, CutBefore(b, cuts, |cuts|), to), nextFile + |cuts|, size)
  {
    hide FullAt, TableOf, MemOf;
    var more := cuts + [to];
    assert more[..|cuts|] == cuts;
    forall i | 0 <= i <= |cuts| ensures CutBefore(b, more, i) == CutBefore(b, cuts, i) {
    }
    assert FullAt(h, CutBefore(b, cuts, |cuts|), to, c, full) ==> CutBefore(b, cuts, |cuts|) <= to <= |h| by {
      FullBounds(h, CutBefore(b, cuts, |cuts|), to, c, full);
    }
  }

  lemma FullBounds(h: seq<Batch>, from: nat, to: nat, c: nat, full: seq<Entry> -> bool)
    requires FullAt(h, from, to, c, full)
    ensures from < to <= c <= |h|
  {
  }

  /** DBImpl::WriteLevel0Table without a base version: a level-0 file, unless there is nothing to write. */
  method WriteLevel0Table(run: seq<Entry>, files: seq<File>, nextFile: nat, size: seq<Entry> -> nat,
                          ghost h: seq<Batch>, ghost a: nat, ghost b: nat, ghost c: nat, ghost lo: nat)
    returns (files': seq<File>, nextFile': nat)
    requires Consecutive(h) && Recovered(files, h, a, b, lo, nextFile) && b <= c <= |h|
    requires Sorted(run) && Elements(run) == Entries(h, b, c) && LastSequence(h, c) <= MAX_SEQUENCE
    ensures nextFile' == nextFile + 1 && Recovered(files', h, a, c, lo, nextFile')
    ensures files' == files + TableOf(run, nextFile, size)
  {
    nextFile' := nextFile + 1;
    if run == [] {
      RecoveredSame(files, h, a, b, c, lo, nextFile);
      files' := files + [];
    } else {
      forall i | 0 <= i < |run| ensures run[i].key.sequence <= MAX_SEQUENCE {
        assert run[i] in Elements(run);
        EntriesRange(h, b, c, run[i]);
      }
      var f: File := Table(nextFile, size(run), run);
      RecoveredAppend(files, h, a, b, c, lo, nextFile, f);
      files' := files + [f];
    }
  }

  /** The memtable holds the batches from `done` up to j; there is none if there are no such batches. */
  ghost predicate MemHolds(mem: Option<seq<Entry>>, h: seq<Batch>, done: nat, j: nat) {
    && done <= j <= |h| && (mem.Some? <==> done < j)
    && (mem.Some? ==>
          mem.value == MemOf(h, done, j) && Sorted(mem.value) && Elements(mem.value) == Entries(h, done, j))
  }

  method ReplayBatch(batch: Batch, mem: Option<seq<Entry>>, ghost h: seq<Batch>, ghost done: nat, ghost j: nat)
    returns (run: seq<Entry>)
    requires Consecutive(h) && j < |h| && batch == h[j] && MemHolds(mem, h, done, j)
    ensures MemHolds(Some(run), h, done, j + 1)
  {
    hide Consecutive, MemOf, MemInsert, Entries, LastSequence, Sorted;
    MemStep(h, done, j);
    SegmentStep(h, done, j);
    SegmentEmpty(h);
    SortedEmpty();
    ConsecutiveAt(h, j);
    run := if mem.Some? then mem.value else [];
    forall x | x in run ensures x.key.sequence < batch.sequence {
      assert x in Elements(run);
      EntriesRange(h, done, j, x);
    }
    run := InsertInto(batch, run);
  }

  /** Replays one log, writing a table whenever the memtable is full and at the end. */
  method RecoverLogFile(batches: seq<Batch>, files: seq<File>, nextFile: nat, maxSequence: nat,
                        full: seq<Entry> -> bool, size: seq<Entry> -> nat,
                        ghost h: seq<Batch>, ghost a: nat, ghost b: nat, ghost lo: nat)
    returns (files': seq<File>, nextFile': nat, maxSequence': nat, ghost cuts: seq<nat>)
    requires Consecutive(h) && Recovered(files, h, a, b, lo, nextFile)
    requires b + |batches| <= |h| && batches == h[b..b + |batches|] && LastSequence(h, |h|) <= MAX_SEQUENCE
    requires maxSequence <= LastSequence(h, b) && (a < b ==> maxSequence == LastSequence(h, b))
    ensures Recovered(files', h, a, b + |batches|, lo, nextFile') && nextFile <= nextFile'
    ensures maxSequence' <= LastSequence(h, b + |batches|)
    ensures a < b + |batches| ==> maxSequence' == LastSequence(h, b + |batches|)
    ensures CutsWhenFull(h, b, b + |batches|, full, cuts) && CutBefore(b, cuts, |cuts|) == b + |batches|
    ensures files' == files + TablesAt(h, b, cuts, nextFile, size) && nextFile' == nextFile + |cuts|
  {
    hide MemHolds, Replayed, CutsWhenFull, TablesAt, Consecutive, Recovered, GoodTable, Sorted, Entries, LastSequence,
         MemOf;
    files', nextFile', maxSequence' := files, nextFile, maxSequence;
    var mem: Option<seq<Entry>> := None;
    ghost var done: nat, c: nat := b, b + |batches|;
    cuts := [];
    RecoveredBounds(files, h, a, b, lo, nextFile);
    ReplayStart(h, a, b, c, lo, full, nextFile, size, files);
    for i := 0 to |batches|
      invariant MemHolds(mem, h, done, b + i)
      invariant Replayed(h, a, b, c, lo, full, size, files, nextFile, cuts, done, files', nextFile')
      invariant NeverFull(h, done, b + i, full)
      invariant maxSequence' <= LastSequence(h, b + i) && (a < b + i ==> maxSequence' == LastSequence(h, b + i))
    {
      var batch := batches[i];
      assert batch == h[b + i];
      SequenceStep(h, b + i);
      var run := ReplayBatch(batch, mem, h, done, b + i);
      var lastSeq := batch.sequence + |batch.ops| - 1;
      if lastSeq > maxSequence' {
        maxSequence' := lastSeq;
      }
      mem := Some(run);
      MemIs(mem, h, done, b + i + 1);
      if full(run) {
        files', nextFile', cuts := WriteOut(run, files', nextFile', size, h, a, b, c, lo, full, files, nextFile, cuts,
                                            done, b + i + 1);
        mem := None;
        done := b + i + 1;
        MemEmpty(h, done, full);
      }
    }
    if mem.Some? {
      MemIs(mem, h, done, c);
      files', nextFile', cuts := WriteOut(mem.value, files', nextFile', size, h, a, b, c, lo, full, files, nextFile,
                                          cuts, done, c);
      done := c;
    }
    MemNone(mem, h, done, c);
    ReplayedAll(h, a, b, c, lo, full, size, files, nextFile, cuts, done, files', nextFile');
  }

  ghost predicate NeverFull(h: seq<Batch>, done: nat, j: nat, full: seq<Entry> -> bool) {
    j <= |h| && forall mid :: done < mid <= j ==> !full(MemOf(h, done, mid))
  }

  /** The tables written so far, for the batches up to `done`. */
  ghost predicate Replayed(h: seq<Batch>, a: nat, b: nat, c: nat, lo: nat, full: seq<Entry> -> bool,
                           size: seq<Entry> -> nat, files: seq<File>, nextFile: nat, cuts: seq<nat>, done: nat,
                           files': seq<File>, nextFile': nat) {
    && c <= |h| && Recovered(files', h, a, done, lo, nextFile')
    && CutsWhenFull(h, b, c, full, cuts) && CutBefore(b, cuts, |cuts|) == done
    && files' == files + TablesAt(h, b, cuts, nextFile, size) && nextFile' == nextFile + |cuts|
  }

  method WriteOut(run: seq<Entry>, files': seq<File>, nextFile': nat, size: seq<Entry> -> nat, ghost h: seq<Batch>,
                  ghost a: nat, ghost b: nat, ghost c: nat, ghost lo: nat, ghost full: seq<Entry> -> bool,
                  ghost files: seq<File>, ghost nextFile: nat, ghost cuts: seq<nat>, ghost done: nat, ghost to: nat)
    returns (files'': seq<File>, nextFile'': nat, ghost cuts': seq<nat>)
    requires Consecutive(h) && LastSequence(h, |h|) <= MAX_SEQUENCE
    requires Replayed(h, a, b, c, lo, full, size, files, nextFile, cuts, done, files', nextFile')
    requires done < to <= c && run == MemOf(h, done, to) && Sorted(run) && Elements(run) == Entries(h, done, to)
    requires NeverFull(h, done, to - 1, full) && (to == c || full(run))
    ensures Replayed(h, a, b, c, lo, full, size, files, nextFile, cuts', to, files'', nextFile'')
  {
    hide MemOf, TablesAt, TableOf, CutsWhenFull, FullAt, Consecutive, Recovered, GoodTable, Sorted, Entries,
         LastSequence;
    FullNow(h, done, to, c, full);
    CutMore(h, b, c, full, cuts, to, nextFile, size);
    SequenceMonotone(h, to, |h|);
    cuts' := cuts + [to];
    files'', nextFile'' := WriteLevel0Table(run, files', nextFile', size, h, a, done, to, lo);
  }

  lemma ReplayStart(h: seq<Batch>, a: nat, b: nat, c: nat, lo: nat, full: seq<Entry> -> bool, nextFile: nat,
                    size: seq<Entry> -> nat, files: seq<File>)
    requires b <= c <= |h| && Recovered(files, h, a, b, lo, nextFile)
    ensures Replayed(h, a, b, c, lo, full, size, files, nextFile, [], b, files, nextFile)
    ensures MemHolds(None, h, b, b) && NeverFull(h, b, b, full)
  {
    hide Recovered;
  }

  lemma ReplayedAll(h: seq<Batch>, a: nat, b: nat, c: nat, lo: nat, full: seq<Entry> -> bool, size: seq<Entry> -> nat,
                    files: seq<File>, nextFile: nat, cuts: seq<nat>, done: nat, files': seq<File>, nextFile': nat)
    requires Replayed(h, a, b, c, lo, full, size, files, nextFile, cuts, done, files', nextFile') && done == c
    ensures Recovered(files', h, a, c, lo, nextFile') && nextFile <= nextFile'
    ensures CutsWhenFull(h, b, c, full, cuts) && CutBefore(b, cuts, |cuts|) == c
    ensures files' == files + TablesAt(h, b, cuts, nextFile, size) && nextFile' == nextFile + |cuts|
  {
    hide Recovered, CutsWhenFull, TablesAt;
  }

  lemma MemIs(mem: Option<seq<Entry>>, h: seq<Batch>, done: nat, j: nat)
    requires MemHolds(mem, h, done, j) && mem.Some?
    ensures done < j <= |h| && mem.value == MemOf(h, done, j)
    ensures Sorted(mem.value) && Elements(mem.value) == Entries(h, done, j)
  {
  }

  lemma MemEmpty(h: seq<Batch>, done: nat, full: seq<Entry> -> bool)
    requires done <= |h|
    ensures MemHolds(None, h, done, done) && NeverFull(h, done, done, full)
  {
  }

  lemma MemNone(mem: Option<seq<Entry>>, h: seq<Batch>, done: nat, j: nat)
    requires done == j || MemHolds(mem, h, done, j)
    ensures mem.None? ==> done == j
  {
  }

  lemma SequenceStep(h: seq<Batch>, j: nat)
    requires Consecutive(h) && j < |h|
    ensures h[j].sequence == LastSequence(h, j) + 1 && LastSequence(h, j + 1) == LastSequence(h, j) + |h[j].ops|
  {
  }

  lemma MemStep(h: seq<Batch>, a: nat, b: nat)
    requires a <= b < |h|
    ensures MemOf(h, a, a) == [] && MemOf(h, a, b + 1) == MemInsert(h[b], |h[b].ops|, MemOf(h, a, b))
  {
  }

  lemma FullNow(h: seq<Batch>, from: nat, to: nat, c: nat, full: seq<Entry> -> bool)
    requires from < to <= c <= |h| && (to == c || full(MemOf(h, from, to)))
    requires forall mid :: from < mid < to ==> !full(MemOf(h, from, mid))
    ensures FullAt(h, from, to, c, full)
  {
  }

  lemma SegmentStep(h: seq<Batch>, a: nat, b: nat)
    requires a <= b < |h|
    ensures LastSequence(h, b + 1) == LastSequence(h, b) + |h[b].ops|
    ensures Entries(h, a, b + 1) == Entries(h, a, b) + OpEntries(h[b], |h[b].ops|)
  {
  }

  lemma SegmentEmpty(h: seq<Batch>)
    ensures forall a :: 0 <= a <= |h| ==> Entries(h, a, a) == {}
  {
  }

  lemma RecoveredBounds(files: seq<File>, h: seq<Batch>, a: nat, b: nat, lo: nat, hi: nat)
    requires Recovered(files, h, a, b, lo, hi)
    ensures a <= b <= |h| && lo <= hi
  {
  }

  /** The batches of the logs numbered from `from` up to `to`, in ascending order of log numbers. */
  function Replay(logs: map<nat, seq<Batch>>, from: nat, to: nat): seq<Batch>
    requires from <= to
  {
    if from == to then [] else Replay(logs, from, to - 1) + if to - 1 in logs then logs[to - 1] else []
  }

  /** Replays the live logs in the order in which they were generated. */
  method RecoverLogs(logs: map<nat, seq<Batch>>, minLog: nat, end: nat, nextFile: nat,
                     full: seq<Entry> -> bool, size: seq<Entry> -> nat, ghost h: seq<Batch>, ghost a: nat)
    returns (files: seq<File>, nextFile': nat, maxSequence: nat)
    requires Consecutive(h) && a <= |h| && LastSequence(h, |h|) <= MAX_SEQUENCE
    requires minLog <= end && (forall n :: n in logs ==> n < end) && Replay(logs, minLog, end) == h[a..]
    ensures Recovered(files, h, a, |h|, nextFile, nextFile')
    ensures forall n :: n in logs && n >= minLog ==> n < nextFile'
    ensures maxSequence <= LastSequence(h, |h|) && (a < |h| ==> maxSequence == LastSequence(h, |h|))
  {
    hide Consecutive, Recovered, GoodTable, LastSequence, Entries, Replay, CutsWhenFull, TablesAt, CutBefore;
    files, nextFile', maxSequence := [], nextFile, 0;
    ReplayNone(logs, minLog);
    ghost var b := a;
    SequenceStart(h);
    RecoveredNone(h, a, nextFile);
    for n := minLog to end
      invariant a <= b <= |h| && Replay(logs, minLog, n) == h[a..b]
      invariant Recovered(files, h, a, b, nextFile, nextFile')
      invariant forall m :: m in logs && minLog <= m < n ==> m < nextFile'
      invariant maxSequence <= LastSequence(h, b) && (a < b ==> maxSequence == LastSequence(h, b))
    {
      if n in logs {
        ReplaySlice(logs, minLog, n, end, h, a, b);
        ghost var cuts;
        files, nextFile', maxSequence, cuts := RecoverLogFile(logs[n], files, nextFile', maxSequence, full, size, h, a,
                                                              b, nextFile);
        b := b + |logs[n]|;
        // The manifest may not know of this log yet.
        if nextFile' <= n {
          RecoveredWider(files, h, a, b, nextFile, nextFile', n + 1);
          nextFile' := n + 1;
        }
      } else {
        ReplayMissing(logs, minLog, n);
      }
    }
    assert |h[a..b]| == |h[a..]|;
  }

  lemma ReplayNone(logs: map<nat, seq<Batch>>, from: nat)
    ensures Replay(logs, from, from) == []
  {
  }

  lemma ReplayMissing(logs: map<nat, seq<Batch>>, from: nat, n: nat)
    requires from <= n && n !in logs
    ensures Replay(logs, from, n + 1) == Replay(logs, from, n)
  {
  }

  lemma ReplaySlice(logs: map<nat, seq<Batch>>, from: nat, n: nat, to: nat, h: seq<Batch>, a: nat, b: nat)
    requires from <= n < to && a <= b <= |h| && n in logs
    requires Replay(logs, from, n) == h[a..b] && Replay(logs, from, to) == h[a..]
    ensures b + |logs[n]| <= |h| && logs[n] == h[b..b + |logs[n]|] && Replay(logs, from, n + 1) == h[a..b + |logs[n]|]
  {
    ReplayPrefix(logs, from, n + 1, to);
    assert h[a..b] + logs[n] <= h[a..];
    var m := b - a + |logs[n]|;
    assert h[a..][..m] == h[a..b] + logs[n];
    assert h[a..][..m] == h[a..b + |logs[n]|];
    assert h[a..][b - a..m] == h[b..b + |logs[n]|];
  }

  lemma SequenceStart(h: seq<Batch>)
    ensures LastSequence(h, 0) == 0
  {
  }

  lemma RecoveredNone(h: seq<Batch>, a: nat, lo: nat)
    requires a <= |h|
    ensures Recovered([], h, a, a, lo, lo)
  {
  }

  lemma RecoveredWider(files: seq<File>, h: seq<Batch>, a: nat, b: nat, lo: nat, hi: nat, hi': nat)
    requires Recovered(files, h, a, b, lo, hi) && hi <= hi'
    ensures Recovered(files, h, a, b, lo, hi')
  {
  }

  lemma {:induction false} ReplayPrefix(logs: map<nat, seq<Batch>>, from: nat, mid: nat, to: nat)
    requires from <= mid <= to
    ensures Replay(logs, from, mid) <= Replay(logs, from, to)
  {
    if mid < to {
      ReplayPrefix(logs, from, mid, to - 1);
    }
  }
}
