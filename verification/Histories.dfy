/** Batches of writes, the history they form, and memtables filled from them. */
module Histories {
  import opened Keys

  datatype Op = Put(key: UserKey, value: Bytes) | Delete(key: UserKey)

  /** A batch as logged: its first sequence number, and its operations (write_batch.cc:5-14). */
  datatype Batch = Batch(sequence: nat, ops: seq<Op>)

  function OpEntry(op: Op, sequence: nat): Entry {
    match op
    case Put(k, v) => Entry(IKey(k, sequence, TypeValue), v)
    case Delete(k) => Entry(IKey(k, sequence, TypeDeletion), [])
  }

  /** The entries of the first n operations of a batch. */
  ghost function OpEntries(b: Batch, n: nat): set<Entry>
    requires n <= |b.ops|
  {
    if n == 0 then {} else OpEntries(b, n - 1) + {OpEntry(b.ops[n - 1], b.sequence + n - 1)}
  }

  /** The entries of batches a up to b of a history. */
  ghost function Entries(h: seq<Batch>, a: nat, b: nat): set<Entry>
    requires a <= b <= |h|
  {
    if a == b then {} else Entries(h, a, b - 1) + OpEntries(h[b - 1], |h[b - 1].ops|)
  }

  /** The sequence number of the last operation of the first n batches. */
  function LastSequence(h: seq<Batch>, n: nat): nat
    requires n <= |h|
  {
    if n == 0 then 0 else LastSequence(h, n - 1) + |h[n - 1].ops|
  }

  /** Sequence numbers are handed out without gaps. */
  ghost predicate Consecutive(h: seq<Batch>) {
    forall i :: 0 <= i < |h| ==> h[i].sequence == LastSequence(h, i) + 1
  }

  lemma ConsecutiveAt(h: seq<Batch>, i: nat)
    requires Consecutive(h) && i < |h|
    ensures h[i].sequence == LastSequence(h, i) + 1
  {
  }

  lemma {:induction false} OpRange(b: Batch, n: nat, e: Entry)
    requires n <= |b.ops| && e in OpEntries(b, n)
    ensures b.sequence <= e.key.sequence < b.sequence + n
  {
    if e in OpEntries(b, n - 1) {
      OpRange(b, n - 1, e);
    }
  }

  lemma {:induction false} OpDistinct(b: Batch, n: nat, x: Entry, y: Entry)
    requires n <= |b.ops| && x in OpEntries(b, n) && y in OpEntries(b, n) && x.key.sequence == y.key.sequence
    ensures x == y
  {
    if x in OpEntries(b, n - 1) {
      OpRange(b, n - 1, x);
    }
    if y in OpEntries(b, n - 1) {
      OpRange(b, n - 1, y);
    }
    if x in OpEntries(b, n - 1) && y in OpEntries(b, n - 1) {
      OpDistinct(b, n - 1, x, y);
    }
  }

  lemma {:induction false} SequenceMonotone(h: seq<Batch>, a: nat, b: nat)
    requires a <= b <= |h|
    ensures LastSequence(h, a) <= LastSequence(h, b)
  {
    if a < b {
      SequenceMonotone(h, a, b - 1);
    }
  }

  /** The entries of a stretch of history lie in its stretch of sequence numbers. */
  lemma {:induction false} EntriesRange(h: seq<Batch>, a: nat, b: nat, e: Entry)
    requires Consecutive(h) && a <= b <= |h| && e in Entries(h, a, b)
    ensures LastSequence(h, a) < e.key.sequence <= LastSequence(h, b)
  {
    hide Consecutive;
    if a < b {
      SequenceMonotone(h, a, b - 1);
      ConsecutiveAt(h, b - 1);
      if e in Entries(h, a, b - 1) {
        EntriesRange(h, a, b - 1, e);
      } else {
        OpRange(h[b - 1], |h[b - 1].ops|, e);
      }
    }
  }

  lemma {:induction false} EntriesDistinct(h: seq<Batch>, a: nat, b: nat)
    requires Consecutive(h) && a <= b <= |h|
    ensures DistinctKeys(Entries(h, a, b))
  {
    hide Consecutive;
    if a < b {
      ConsecutiveAt(h, b - 1);
      EntriesDistinct(h, a, b - 1);
      forall x, y | x in Entries(h, a, b) && y in Entries(h, a, b) && x.key == y.key ensures x == y {
        var last := OpEntries(h[b - 1], |h[b - 1].ops|);
        if x in last && y in last {
          OpDistinct(h[b - 1], |h[b - 1].ops|, x, y);
        } else if x in last {
          OpRange(h[b - 1], |h[b - 1].ops|, x);
          EntriesRange(h, a, b - 1, y);
        } else if y in last {
          OpRange(h[b - 1], |h[b - 1].ops|, y);
          EntriesRange(h, a, b - 1, x);
        }
      }
    }
  }

  lemma {:induction false} EntriesSplit(h: seq<Batch>, a: nat, b: nat, c: nat)
    requires a <= b <= c <= |h|
    ensures Entries(h, a, c) == Entries(h, a, b) + Entries(h, b, c)
  {
    if b < c {
      EntriesSplit(h, a, b, c - 1);
    }
  }

  /** More history does not change what was. */
  lemma {:induction false} EntriesStable(h: seq<Batch>, more: seq<Batch>, a: nat, b: nat)
    requires a <= b <= |h| && h <= more
    ensures Entries(more, a, b) == Entries(h, a, b) && LastSequence(more, b) == LastSequence(h, b)
    decreases b
  {
    if b > 0 {
      if a < b {
        EntriesStable(h, more, a, b - 1);
      } else {
        EntriesStable(h, more, b - 1, b - 1);
      }
    }
  }

  lemma ConsecutiveAppend(h: seq<Batch>, b: Batch)
    requires Consecutive(h) && b.sequence == LastSequence(h, |h|) + 1
    ensures Consecutive(h + [b])
  {
    hide LastSequence;
    forall i | 0 <= i <= |h| ensures (h + [b])[i].sequence == LastSequence(h + [b], i) + 1 {
      EntriesStable(h, h + [b], i, i);
    }
  }

  /** A later stretch of history is newer than any part of an earlier one. */
  lemma StretchNewer(h: seq<Batch>, a: nat, b: nat, c: nat, earlier: set<Entry>)
    requires Consecutive(h) && a <= b <= c <= |h| && earlier <= Entries(h, a, b)
    ensures Newer(Entries(h, b, c), earlier)
  {
    forall x, y | x in Entries(h, b, c) && y in earlier && x.key.user == y.key.user ensures x.key.Tag() > y.key.Tag() {
      EntriesRange(h, b, c, x);
      EntriesRange(h, a, b, y);
    }
  }

  // ----- What a history means

  /** The operations of the first n batches, one after the other. */
  function Operations(h: seq<Batch>, n: nat): seq<Op>
    requires n <= |h|
  {
    if n == 0 then [] else Operations(h, n - 1) + h[n - 1].ops
  }

  /** A plain map after the first m operations. */
  function MapAfter(ops: seq<Op>, m: nat): map<UserKey, Bytes>
    requires m <= |ops|
  {
    if m == 0 then map[]
    else
      match ops[m - 1]
      case Put(k, v) => MapAfter(ops, m - 1)[k := v]
      case Delete(k) => MapAfter(ops, m - 1) - {k}
  }

  function Lookup(m: map<UserKey, Bytes>, k: UserKey): Option<Bytes> {
    if k in m then Some(m[k]) else None
  }

  /** The entries of the first m operations, numbered from 1 on. */
  ghost function NumberedEntries(ops: seq<Op>, m: nat): set<Entry>
    requires m <= |ops|
  {
    if m == 0 then {} else NumberedEntries(ops, m - 1) + {OpEntry(ops[m - 1], m)}
  }

  lemma {:induction false} NumberedRange(ops: seq<Op>, m: nat, e: Entry)
    requires m <= |ops| && e in NumberedEntries(ops, m)
    ensures 1 <= e.key.sequence <= m
  {
    if e in NumberedEntries(ops, m - 1) {
      NumberedRange(ops, m - 1, e);
    }
  }

  lemma {:induction false} NumberedDistinct(ops: seq<Op>, m: nat)
    requires m <= |ops|
    ensures DistinctKeys(NumberedEntries(ops, m))
  {
    if m > 0 {
      NumberedDistinct(ops, m - 1);
      forall x | x in NumberedEntries(ops, m - 1) ensures x.key.sequence != m {
        NumberedRange(ops, m - 1, x);
      }
    }
  }

  lemma {:induction false} NumberedPrefix(ops: seq<Op>, more: seq<Op>, m: nat)
    requires m <= |ops| && ops <= more
    ensures NumberedEntries(ops, m) == NumberedEntries(more, m)
  {
    if m > 0 {
      NumberedPrefix(ops, more, m - 1);
    }
  }

  lemma {:induction false} NumberedBatch(ops: seq<Op>, b: Batch, n: nat)
    requires n <= |b.ops| && b.sequence == |ops| + 1
    ensures NumberedEntries(ops + b.ops, |ops| + n) == NumberedEntries(ops, |ops|) + OpEntries(b, n)
  {
    if n > 0 {
      NumberedBatch(ops, b, n - 1);
    } else {
      NumberedPrefix(ops, ops + b.ops, |ops|);
    }
  }

  lemma {:induction false} EntriesAreNumbered(h: seq<Batch>, n: nat)
    requires Consecutive(h) && n <= |h|
    ensures |Operations(h, n)| == LastSequence(h, n)
    ensures Entries(h, 0, n) == NumberedEntries(Operations(h, n), |Operations(h, n)|)
  {
    hide Consecutive;
    if n > 0 {
      EntriesAreNumbered(h, n - 1);
      ConsecutiveAt(h, n - 1);
      NumberedBatch(Operations(h, n - 1), h[n - 1], |h[n - 1].ops|);
    }
  }

  /** One more entry, of the next number. */
  lemma NewestAfter(es: set<Entry>, e: Entry, k: UserKey, t: nat)
    requires DistinctKeys(es + {e}) && forall x :: x in es ==> x.key.sequence < e.key.sequence
    ensures Newest(es + {e}, k, t) == if Candidate(e, k, t) then Some(e) else Newest(es, k, t)
  {
    hide Newest;
    var all := es + {e};
    NewestNone(es, k, t);
    NewestNone(all, k, t);
    if Candidate(e, k, t) {
      assert IsNewest(all, k, t, e);
      NewestIs(all, k, t, e);
    } else if Newest(es, k, t).Some? {
      var x := Newest(es, k, t).value;
      assert IsNewest(all, k, t, x);
      NewestIs(all, k, t, x);
    }
  }

  lemma {:induction false} ViewOfNumbered(ops: seq<Op>, m: nat, k: UserKey, t: nat)
    requires m <= |ops|
    ensures View(Newest(NumberedEntries(ops, m), k, t)) == Lookup(MapAfter(ops, if t < m then t else m), k)
  {
    hide Newest;
    if m == 0 {
      NewestNone({}, k, t);
    } else {
      ViewOfNumbered(ops, m - 1, k, t);
      NumberedDistinct(ops, m);
      forall x | x in NumberedEntries(ops, m - 1) ensures x.key.sequence < m {
        NumberedRange(ops, m - 1, x);
      }
      NewestAfter(NumberedEntries(ops, m - 1), OpEntry(ops[m - 1], m), k, t);
    }
  }

  /** What a reader at sequence number t finds in the entries of a history is what a plain map has after t operations.
      */
  lemma HistoryIsMap(h: seq<Batch>, n: nat, k: UserKey, t: nat)
    requires Consecutive(h) && n <= |h| && t <= LastSequence(h, n)
    ensures t <= |Operations(h, n)|
    ensures View(Newest(Entries(h, 0, n), k, t)) == Lookup(MapAfter(Operations(h, n), t), k)
  {
    hide Consecutive, Newest, Entries, Operations, MapAfter;
    EntriesAreNumbered(h, n);
    ViewOfNumbered(Operations(h, n), |Operations(h, n)|, k, t);
  }

  // ----- Memtables

  /** Inserts an entry at its place. */
  function MemAdd(run: seq<Entry>, e: Entry): seq<Entry> {
    if run == [] || Before(e.key, run[0].key) then [e] + run else [run[0]] + MemAdd(run[1..], e)
  }

  lemma PrependSorted(e: Entry, run: seq<Entry>)
    requires Sorted(run) && forall x :: x in Elements(run) ==> Before(e.key, x.key)
    ensures Sorted([e] + run) && Elements([e] + run) == {e} + Elements(run)
  {
    forall i | 0 <= i < |run| ensures Before(e.key, run[i].key) {
      assert run[i] in Elements(run);
    }
  }

  lemma TailSorted(run: seq<Entry>)
    requires Sorted(run) && run != []
    ensures Sorted(run[1..]) && Elements(run) == {run[0]} + Elements(run[1..])
    ensures forall x :: x in Elements(run[1..]) ==> Before(run[0].key, x.key)
  {
    assert run == [run[0]] + run[1..];
  }

  /** Of two different keys one is before the other. */
  lemma BeforeTotal(a: IKey, b: IKey)
    requires a != b && !Before(a, b)
    ensures Before(b, a)
  {
    if a.user == b.user && a.Tag() == b.Tag() {
      SameTag(a, b);
    }
  }

  lemma BeforeTransitive(a: IKey, b: IKey, c: IKey)
    requires Before(a, b) && Before(b, c)
    ensures Before(a, c)
  {
  }

  lemma {:induction false} MemAddGood(run: seq<Entry>, e: Entry)
    requires Sorted(run) && forall x :: x in run ==> x.key != e.key
    ensures Sorted(MemAdd(run, e)) && Elements(MemAdd(run, e)) == Elements(run) + {e}
  {
    hide Sorted, Before, Elements;
    if run == [] {
      SortedEmpty();
      PrependSorted(e, []);
      assert MemAdd(run, e) == [e] + [];
    } else {
      TailSorted(run);
      if Before(e.key, run[0].key) {
        forall x | x in Elements(run) ensures Before(e.key, x.key) {
          if x != run[0] {
            BeforeTransitive(e.key, run[0].key, x.key);
          }
        }
        PrependSorted(e, run);
      } else {
        assert run[0] in run;
        BeforeTotal(e.key, run[0].key);
        MemAddGood(run[1..], e);
        PrependSorted(run[0], MemAdd(run[1..], e));
      }
    }
  }

  lemma SortedEmpty()
    ensures Sorted([]) && Elements([]) == {}
  {
  }

  /** The memtable with the first n operations of a batch. */
  function MemInsert(b: Batch, n: nat, mem: seq<Entry>): seq<Entry>
    requires n <= |b.ops|
  {
    if n == 0 then mem else MemAdd(MemInsert(b, n - 1, mem), OpEntry(b.ops[n - 1], b.sequence + n - 1))
  }

  lemma MemInsertNothing(b: Batch, mem: seq<Entry>)
    ensures MemInsert(b, 0, mem) == mem
  {
  }

  lemma MemInsertStep(b: Batch, n: nat, mem: seq<Entry>)
    requires n < |b.ops|
    ensures MemInsert(b, n + 1, mem) == MemAdd(MemInsert(b, n, mem), OpEntry(b.ops[n], b.sequence + n))
  {
  }

  /** A memtable filled with batches a up to b. */
  function MemOf(h: seq<Batch>, a: nat, b: nat): seq<Entry>
    requires a <= b <= |h|
  {
    if a == b then [] else MemInsert(h[b - 1], |h[b - 1].ops|, MemOf(h, a, b - 1))
  }

  /** WriteBatchInternal::InsertInto: adds the operations of a batch under consecutive sequence numbers. */
  method InsertInto(b: Batch, mem: seq<Entry>) returns (run: seq<Entry>)
    requires Sorted(mem) && forall x :: x in mem ==> x.key.sequence < b.sequence
    ensures Sorted(run) && Elements(run) == Elements(mem) + OpEntries(b, |b.ops|)
    ensures run == MemInsert(b, |b.ops|, mem)
  {
    hide Sorted, MemInsert, MemAdd;
    run := mem;
    MemInsertNothing(b, mem);
    for i := 0 to |b.ops|
      invariant Sorted(run) && Elements(run) == Elements(mem) + OpEntries(b, i) && run == MemInsert(b, i, mem)
    {
      var e := OpEntry(b.ops[i], b.sequence + i);
      MemInsertStep(b, i, mem);
      forall x | x in run ensures x.key != e.key {
        assert x in Elements(run);
        if x in OpEntries(b, i) {
          OpRange(b, i, x);
        }
      }
      MemAddGood(run, e);
      run := MemAdd(run, e);
    }
  }
}
