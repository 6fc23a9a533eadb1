/** DBImpl::Write and BuildBatchGroup (db_impl.cc:1185-1306): writers queue up, the one at the front commits a group of
    batches for itself and those behind it, and the others wait to be told. */
module WriteQueues {
  import opened Keys
  import opened Coding
  import opened WriteBatches

  /** A queued write: None stands for the null batch that only asks for a memtable switch. */
  datatype Pending = Pending(updates: Option<seq<Update>>, sync: bool)

  // ----- The group

  function ByteSize(us: seq<Update>): nat {
    HEADER_SIZE + |Records(us)|
  }

  /** 1 MiB, or 128 KiB more than a small first batch. */
  function MaxSize(first: nat): nat {
    if first <= 0x2_0000 then first + 0x2_0000 else 0x10_0000
  }

  function Updates(p: Pending): seq<Update> {
    if p.updates.Some? then p.updates.value else []
  }

  function GroupUpdates(q: seq<Pending>, n: nat): seq<Update>
    requires n <= |q|
  {
    if n == 0 then [] else GroupUpdates(q, n - 1) + Updates(q[n - 1])
  }

  function SizeOf(p: Pending): nat {
    if p.updates.Some? then ByteSize(p.updates.value) else 0
  }

  function TotalSize(q: seq<Pending>, n: nat): nat
    requires n <= |q|
  {
    if n == 0 then 0 else TotalSize(q, n - 1) + SizeOf(q[n - 1])
  }

  /** Writer i cannot ride with the first one, in a group of the writers before it. */
  predicate Stops(q: seq<Pending>, i: nat)
    requires 0 < i < |q|
  {
    || (q[i].sync && !q[0].sync)
    || (q[i].updates.Some? && TotalSize(q, i) + SizeOf(q[i]) > MaxSize(SizeOf(q[0])))
  }

  /** The group is the longest one that nothing stops. */
  ghost predicate IsGroup(q: seq<Pending>, n: nat) {
    && 0 < n <= |q| && (forall i :: 0 < i < n ==> !Stops(q, i))
    && (n < |q| ==> Stops(q, n))
  }

  /** No sync write rides with a non-sync one, the sizes add up to no more than a first batch of at most 128 KiB and
      128 KiB, or to 1 MiB or the one larger batch, and the next writer is left out for one of these two reasons. */
  lemma {:induction false} GroupRules(q: seq<Pending>, n: nat)
    requires IsGroup(q, n)
    ensures forall i :: 0 <= i < n && q[i].sync ==> q[0].sync
    ensures var first := SizeOf(q[0]);
            TotalSize(q, n) <= if first <= 131072 then first + 131072 else if first <= 1048576 then 1048576 else first
    ensures n < |q| ==>
              || (q[n].sync && !q[0].sync)
              || (q[n].updates.Some?
                  && TotalSize(q, n + 1) > if SizeOf(q[0]) <= 131072 then SizeOf(q[0]) + 131072 else 1048576)
  {
    forall i | 0 <= i < n && q[i].sync
      ensures q[0].sync
    {
      if i > 0 {
        assert !Stops(q, i);
      }
    }
    var first := SizeOf(q[0]);
    assert TotalSize(q, 1) == first by {
      assert TotalSize(q, 0) == 0;
    }
    for m := 1 to n
      invariant TotalSize(q, m) <= if first > MaxSize(first) then first else MaxSize(first)
    {
      assert !Stops(q, m);
    }
  }

  lemma {:induction false} CountBound(us: seq<Update>)
    ensures |us| <= |Records(us)|
  {
    if us != [] {
      CountBound(us[1..]);
    }
  }

  class Writer {
    const batch: WriteBatch?
    const sync: bool

    constructor (batch: WriteBatch?, sync: bool)
      ensures this.batch == batch && this.sync == sync
    {
      this.batch, this.sync := batch, sync;
    }
  }

  /** The writer's batch is that of the abstract queue entry. */
  ghost predicate Stands(w: Writer, p: Pending)
    reads w.batch
  {
    && w.sync == p.sync
    && (if w.batch == null then p.updates.None? else w.batch.Valid() && p.updates == Some(w.batch.updates))
  }

  /** BuildBatchGroup: the batch to write for the first `last` writers of the queue.  A group of one batch is that batch
      itself; otherwise the batches are copied into the temporary one. */
  method BuildBatchGroup(writers: seq<Writer>, tmp: WriteBatch, ghost q: seq<Pending>)
    returns (result: WriteBatch, last: nat)
    requires writers != [] && writers[0].batch != null && |q| == |writers|
    requires forall i :: 0 <= i < |writers| ==> Stands(writers[i], q[i]) && writers[i].batch != tmp
    requires tmp.Valid() && tmp.updates == []
    modifies tmp
    ensures IsGroup(q, last)
    ensures result.Valid() && result.updates == GroupUpdates(q, last)
    ensures result == tmp || result == writers[0].batch
  {
    hide WriteBatch.Valid, ByteSize, Records;
    var first := writers[0];
    assert Stands(first, q[0]);
    result := first.batch;
    var size := |result.rep|;
    var maxSize := 0x10_0000;
    if size <= 0x2_0000 {
      maxSize := size + 0x2_0000;
    }
    last := 1;
    BatchSize(result);
    FirstOfGroup(q);
    assert maxSize == MaxSize(SizeOf(q[0]));
    while last < |writers|
      invariant 0 < last <= |writers|
      invariant forall i :: 0 <= i < |writers| ==> Stands(writers[i], q[i])
      invariant result.Valid() && result.updates == GroupUpdates(q, last)
      invariant if result == first.batch then tmp.Valid() && tmp.updates == [] else result == tmp
      invariant size == TotalSize(q, last) && |result.updates| <= size
      invariant forall i :: 0 < i < last ==> !Stops(q, i)
    {
      var w := writers[last];
      assert Stands(w, q[last]);
      if w.sync && !first.sync {
        break;
      }
      if w.batch != null {
        BatchSize(w.batch);
        size := size + |w.batch.rep|;
        if size > maxSize {
          break;
        }
        result := AddToGroup(result, first.batch, w.batch, tmp);
      }
      last := last + 1;
    }
  }

  /** The first batch is the caller's and stays as it is: a group of more goes into the temporary batch. */
  method AddToGroup(result: WriteBatch, first: WriteBatch, batch: WriteBatch, tmp: WriteBatch) returns (r: WriteBatch)
    requires result.Valid() && first.Valid() && batch.Valid() && tmp.Valid() && first != tmp && batch != tmp
    requires if result == first then tmp.updates == [] else result == tmp
    requires |result.updates| + |batch.updates| < TWO32
    modifies tmp
    ensures r == tmp && tmp.Valid() && tmp.updates == old(result.updates) + batch.updates
  {
    hide Rep, Fits;
    r := result;
    if r == first {
      r := tmp;
      r.Append(first);
      assert r.updates == first.updates;
    }
    r.Append(batch);
  }

  lemma BatchSize(b: WriteBatch)
    requires b.Valid()
    ensures |b.rep| == ByteSize(b.updates) && |b.updates| <= |b.rep|
  {
    CountBound(b.updates);
  }

  lemma FirstOfGroup(q: seq<Pending>)
    requires q != []
    ensures TotalSize(q, 1) == SizeOf(q[0]) && GroupUpdates(q, 1) == Updates(q[0])
  {
  }

  // ----- The protocol

  /** What the writer at the front is doing: the first n of the queue are its group. */
  datatype Phase = Idle | Committing(n: nat, batch: Option<ByteBatch>, logged: bool, synced: bool, applied: bool)

  /** Writer i is the i-th to arrive; the queue is arrivals[head..].  durable counts the arrivals whose updates are in a
      part of the log that was synced, which is its first `synced` records. */
  datatype State = State(base: nat, arrivals: seq<Pending>, head: nat, phase: Phase, log: seq<ByteBatch>,
                         mem: seq<ByteBatch>, lastSequence: nat, synced: nat, durable: nat, done: set<nat>,
                             returned: set<nat>)

  ghost predicate Init(s: State) {
    s == State(s.base, [], 0, Idle, [], [], s.base, 0, 0, {}, {})
  }

  ghost predicate Arrive(s: State, t: State) {
    exists p: Pending :: t == s.(arrivals := s.arrivals + [p])
  }

  /** The writer at the front takes the group that BuildBatchGroup finds; a null batch goes alone. */
  ghost predicate Begin(s: State, t: State) {
    && s.phase.Idle? && s.head < |s.arrivals|
    && var q := s.arrivals[s.head..];
       if q[0].updates.None? then t == s.(phase := Committing(1, None, false, false, false))
       else
         && t.phase.Committing? && IsGroup(q, t.phase.n)
         && t == s.(phase := Committing(t.phase.n, Some(ByteBatch(s.lastSequence + 1, GroupUpdates(q, t.phase.n))),
                                        false, false, false))
  }

  ghost predicate AppendLog(s: State, t: State) {
    && s.phase.Committing? && s.phase.batch.Some? && !s.phase.logged
    && t == s.(log := s.log + [s.phase.batch.value], phase := s.phase.(logged := true))
  }

  ghost predicate SyncLog(s: State, t: State) {
    && s.phase.Committing? && s.phase.logged && s.head < |s.arrivals| && s.arrivals[s.head].sync
    && t == s.(synced := |s.log|, durable := s.head + s.phase.n, phase := s.phase.(synced := true))
  }

  ghost predicate Apply(s: State, t: State) {
    && s.phase.Committing? && s.phase.logged && !s.phase.applied && s.head < |s.arrivals| && s.phase.batch.Some?
    && (s.arrivals[s.head].sync ==> s.phase.synced)
    && t == s.(mem := s.mem + [s.phase.batch.value], phase := s.phase.(applied := true))
  }

  /** The group leaves the queue: its first writer returns, the others are told that they are done. */
  ghost predicate Finish(s: State, t: State) {
    && s.phase.Committing? && (s.phase.batch.None? || s.phase.applied)
    && var count := if s.phase.batch.Some? then |s.phase.batch.value.updates| else 0;
       t == s.(lastSequence := s.lastSequence + count, head := s.head + s.phase.n, phase := Idle,
               returned := s.returned + {s.head}, done := s.done + Between(s.head + 1, s.head + s.phase.n))
  }

  function Between(a: nat, b: nat): (r: set<nat>)
    ensures forall i: nat :: i in r <==> a <= i < b
    decreases b - a
  {
    if a >= b then {} else Between(a + 1, b) + {a}
  }

  ghost predicate Return(s: State, t: State) {
    exists i: nat :: i in s.done && t == s.(returned := s.returned + {i})
  }

  ghost predicate Next(s: State, t: State) {
    || t == s || Arrive(s, t) || Begin(s, t) || AppendLog(s, t) || SyncLog(s, t) || Apply(s, t) || Finish(s, t)
        || Return(s, t)
  }

  // ----- What every run keeps

  function LogUpdates(log: seq<ByteBatch>, n: nat): seq<Update>
    requires n <= |log|
  {
    if n == 0 then [] else LogUpdates(log, n - 1) + log[n - 1].updates
  }

  /** Record r starts with the sequence number behind the last one of the records before it. */
  ghost predicate Numbered(base: nat, log: seq<ByteBatch>) {
    forall r :: 0 <= r < |log| ==> log[r].sequence == base + |LogUpdates(log, r)| + 1
  }

  /** The group in the making. */
  ghost predicate GroupOk(arrivals: seq<Pending>, head: nat, phase: Phase, lastSequence: nat, durable: nat) {
    head <= |arrivals| &&
    (phase.Committing? ==>
      && 0 < phase.n <= |arrivals| - head
      && (if phase.batch.Some? then
            phase.batch.value == ByteBatch(lastSequence + 1, GroupUpdates(arrivals[head..], phase.n))
          else
            phase.n == 1 && arrivals[head].updates.None? && !phase.logged)
      && (phase.applied ==> phase.logged)
      && (forall i :: head <= i < head + phase.n && arrivals[i].sync ==> arrivals[head].sync)
      && (phase.synced ==> phase.logged && durable == head + phase.n)
      && (phase.applied && arrivals[head].sync ==> phase.synced))
  }

  predicate InLog(phase: Phase) {
    phase.Committing? && phase.logged
  }

  /** How many writers' updates are in the log. */
  function Covered(head: nat, phase: Phase): nat {
    head + if InLog(phase) then phase.n else 0
  }

  /** The log is the updates of the first writers in queue order, each exactly once. */
  ghost predicate CommitOk(arrivals: seq<Pending>, covered: nat, log: seq<ByteBatch>) {
    covered <= |arrivals| && LogUpdates(log, |log|) == GroupUpdates(arrivals, covered)
  }

  /** Sequence numbers are consecutive; lastSequence is that of the records before the group's. */
  ghost predicate SequenceOk(base: nat, log: seq<ByteBatch>, finished: nat, lastSequence: nat) {
    Numbered(base, log) && finished <= |log| && lastSequence == base + |LogUpdates(log, finished)|
  }

  function Finished(phase: Phase, log: seq<ByteBatch>): nat {
    if InLog(phase) && log != [] then |log| - 1 else |log|
  }

  ghost predicate RecordOk(phase: Phase, log: seq<ByteBatch>) {
    InLog(phase) ==> log != [] && phase.batch == Some(log[|log| - 1])
  }

  /** The memtable follows the log. */
  ghost predicate MemOk(mem: seq<ByteBatch>, log: seq<ByteBatch>, behind: bool) {
    if behind then log != [] && mem == log[..|log| - 1] else mem == log
  }

  /** The log prefix that was synced covers every finished sync write. */
  ghost predicate SyncOk(arrivals: seq<Pending>, head: nat, covered: nat, log: seq<ByteBatch>, synced: nat,
                         durable: nat) {
    && synced <= |log| && durable <= covered && covered <= |arrivals| && head <= |arrivals|
    && LogUpdates(log, synced) == GroupUpdates(arrivals, durable)
    && forall i :: 0 <= i < head && arrivals[i].sync && arrivals[i].updates.Some? ==> i < durable
  }

  /** A writer has returned or may return exactly if it is out of the queue. */
  ghost predicate Told(done: set<nat>, returned: set<nat>, head: nat) {
    forall i: nat :: i in done + returned <==> i < head
  }

  predicate Unapplied(phase: Phase) {
    InLog(phase) && !phase.applied
  }

  ghost predicate Inv(s: State) {
    && GroupOk(s.arrivals, s.head, s.phase, s.lastSequence, s.durable)
    && CommitOk(s.arrivals, Covered(s.head, s.phase), s.log)
    && SequenceOk(s.base, s.log, Finished(s.phase, s.log), s.lastSequence) && RecordOk(s.phase, s.log)
    && MemOk(s.mem, s.log, Unapplied(s.phase))
    && SyncOk(s.arrivals, s.head, Covered(s.head, s.phase), s.log, s.synced, s.durable)
    && Told(s.done, s.returned, s.head)
  }

  lemma {:induction false} LogPrefixUpdates(log: seq<ByteBatch>, more: seq<ByteBatch>, n: nat)
    requires n <= |log| && log <= more
    ensures LogUpdates(log, n) == LogUpdates(more, n)
  {
    if n > 0 {
      LogPrefixUpdates(log, more, n - 1);
    }
  }

  lemma {:induction false} GroupPrefix(q: seq<Pending>, more: seq<Pending>, n: nat)
    requires n <= |q| && q <= more
    ensures GroupUpdates(q, n) == GroupUpdates(more, n)
  {
    if n > 0 {
      GroupPrefix(q, more, n - 1);
    }
  }

  lemma {:induction false} GroupSplit(q: seq<Pending>, a: nat, n: nat)
    requires a + n <= |q|
    ensures GroupUpdates(q, a + n) == GroupUpdates(q, a) + GroupUpdates(q[a..], n)
  {
    if n > 0 {
      GroupSplit(q, a, n - 1);
    }
  }

  lemma {:induction false} GroupArrive(arrivals: seq<Pending>, p: Pending, head: nat, phase: Phase, lastSequence: nat,
                                       durable: nat)
    requires GroupOk(arrivals, head, phase, lastSequence, durable)
    ensures GroupOk(arrivals + [p], head, phase, lastSequence, durable)
  {
    if phase.Committing? {
      assert (arrivals + [p])[head..] == arrivals[head..] + [p];
      GroupPrefix(arrivals[head..], arrivals[head..] + [p], phase.n);
    }
  }

  lemma {:induction false} CommitArrive(arrivals: seq<Pending>, p: Pending, head: nat, covered: nat,
                                        log: seq<ByteBatch>, synced: nat, durable: nat)
    requires CommitOk(arrivals, covered, log) && SyncOk(arrivals, head, covered, log, synced, durable)
    ensures CommitOk(arrivals + [p], covered, log) && SyncOk(arrivals + [p], head, covered, log, synced, durable)
  {
    GroupPrefix(arrivals, arrivals + [p], covered);
    GroupPrefix(arrivals, arrivals + [p], durable);
  }

  lemma {:induction false} GroupBegin(s: State, t: State)
    requires s.head <= |s.arrivals| && Begin(s, t)
    ensures GroupOk(t.arrivals, t.head, t.phase, t.lastSequence, t.durable)
  {
    var q := s.arrivals[s.head..];
    if q[0].updates.Some? {
      GroupRules(q, t.phase.n);
      hide IsGroup, GroupUpdates;
      forall i | s.head <= i < s.head + t.phase.n && s.arrivals[i].sync
        ensures s.arrivals[s.head].sync
      {
        assert q[i - s.head] == s.arrivals[i];
      }
    }
  }

  lemma {:induction false} CommitGrows(arrivals: seq<Pending>, head: nat, n: nat, log: seq<ByteBatch>, b: ByteBatch)
    requires CommitOk(arrivals, head, log)
    requires head + n <= |arrivals| && b.updates == GroupUpdates(arrivals[head..], n)
    ensures CommitOk(arrivals, head + n, log + [b])
  {
    LogAppended(log, b, |log|);
    hide GroupUpdates;
    GroupSplit(arrivals, head, n);
  }

  lemma {:induction false} SequenceGrows(base: nat, log: seq<ByteBatch>, b: ByteBatch, lastSequence: nat)
    requires SequenceOk(base, log, |log|, lastSequence) && b.sequence == lastSequence + 1
    ensures SequenceOk(base, log + [b], |log|, lastSequence)
  {
    hide LogUpdates;
    forall r | 0 <= r < |log + [b]|
      ensures (log + [b])[r].sequence == base + |LogUpdates(log + [b], r)| + 1
    {
      LogAppended(log, b, r);
    }
    LogAppended(log, b, |log|);
  }

  lemma {:induction false} SyncGrows(arrivals: seq<Pending>, head: nat, n: nat, log: seq<ByteBatch>, b: ByteBatch,
                                     synced: nat, durable: nat)
    requires SyncOk(arrivals, head, head, log, synced, durable) && head + n <= |arrivals|
    ensures SyncOk(arrivals, head, head + n, log + [b], synced, durable)
  {
    hide LogUpdates, GroupUpdates;
    LogAppended(log, b, synced);
  }

  lemma {:induction false} LogAppended(log: seq<ByteBatch>, b: ByteBatch, n: nat)
    requires n <= |log|
    ensures LogUpdates(log + [b], n) == LogUpdates(log, n)
    ensures n == |log| ==> LogUpdates(log + [b], n + 1) == LogUpdates(log, n) + b.updates
  {
    LogPrefixUpdates(log, log + [b], n);
  }

  lemma ToldFinish(done: set<nat>, returned: set<nat>, head: nat, n: nat)
    requires Told(done, returned, head) && n > 0
    ensures Told(done + Between(head + 1, head + n), returned + {head}, head + n)
  {
    hide Between;
    var more := Between(head + 1, head + n);
    forall i: nat
      ensures i in (done + more) + (returned + {head}) <==> i < head + n
    {
      assert i in done + returned <==> i < head;
    }
  }

  /** The record of the group counts once the group is finished. */
  lemma {:induction false} SequenceFinish(base: nat, log: seq<ByteBatch>, lastSequence: nat)
    requires log != [] && SequenceOk(base, log, |log| - 1, lastSequence)
    ensures SequenceOk(base, log, |log|, lastSequence + |log[|log| - 1].updates|)
  {
  }

  /** A null batch adds nothing. */
  lemma {:induction false} NullFinish(arrivals: seq<Pending>, head: nat, log: seq<ByteBatch>, synced: nat, durable: nat)
    requires head < |arrivals| && arrivals[head].updates.None?
    requires CommitOk(arrivals, head, log) && SyncOk(arrivals, head, head, log, synced, durable)
    ensures CommitOk(arrivals, head + 1, log) && SyncOk(arrivals, head + 1, head + 1, log, synced, durable)
  {
  }

  /** The group's sync writes are durable, if there are any. */
  lemma {:induction false} SyncFinish(arrivals: seq<Pending>, head: nat, n: nat, log: seq<ByteBatch>, synced: nat,
                                      durable: nat)
    requires head + n <= |arrivals| && n > 0 && SyncOk(arrivals, head, head + n, log, synced, durable)
    requires forall i :: head <= i < head + n && arrivals[i].sync ==> arrivals[head].sync
    requires arrivals[head].sync ==> durable == head + n
    ensures SyncOk(arrivals, head + n, head + n, log, synced, durable)
  {
  }

  lemma {:induction false} SyncNow(arrivals: seq<Pending>, head: nat, covered: nat, log: seq<ByteBatch>, synced: nat,
                                   durable: nat)
    requires CommitOk(arrivals, covered, log) && SyncOk(arrivals, head, covered, log, synced, durable)
    ensures SyncOk(arrivals, head, covered, log, |log|, covered)
  {
  }

  lemma {:induction false} KeepAppendLog(s: State, t: State)
    requires Inv(s) && AppendLog(s, t)
    ensures Inv(t)
  {
    hide CommitOk, SequenceOk, SyncOk, GroupUpdates, LogUpdates;
    var b := s.phase.batch.value;
    CommitGrows(s.arrivals, s.head, s.phase.n, s.log, b);
    SequenceGrows(s.base, s.log, b, s.lastSequence);
    SyncGrows(s.arrivals, s.head, s.phase.n, s.log, b, s.synced, s.durable);
  }

  lemma {:induction false} KeepFinish(s: State, t: State)
    requires Inv(s) && Finish(s, t)
    ensures Inv(t)
  {
    hide CommitOk, SequenceOk, SyncOk, GroupUpdates, LogUpdates, Between;
    ToldFinish(s.done, s.returned, s.head, s.phase.n);
    if s.phase.batch.None? {
      NullFinish(s.arrivals, s.head, s.log, s.synced, s.durable);
    } else {
      SequenceFinish(s.base, s.log, s.lastSequence);
      SyncFinish(s.arrivals, s.head, s.phase.n, s.log, s.synced, s.durable);
    }
  }

  lemma {:induction false} KeepArrive(s: State, t: State)
    requires Inv(s) && Arrive(s, t)
    ensures Inv(t)
  {
    hide CommitOk, SequenceOk, SyncOk, GroupOk, GroupUpdates, LogUpdates;
    var p :| t == s.(arrivals := s.arrivals + [p]);
    GroupArrive(s.arrivals, p, s.head, s.phase, s.lastSequence, s.durable);
    CommitArrive(s.arrivals, p, s.head, Covered(s.head, s.phase), s.log, s.synced, s.durable);
  }

  lemma {:induction false} KeepApply(s: State, t: State)
    requires Inv(s) && Apply(s, t)
    ensures Inv(t)
  {
    hide CommitOk, SequenceOk, SyncOk, GroupUpdates, LogUpdates;
    assert s.log == s.log[..|s.log| - 1] + [s.log[|s.log| - 1]];
  }

  lemma {:induction false} NextKeeps(s: State, t: State)
    requires Inv(s) && Next(s, t)
    ensures Inv(t)
  {
    hide CommitOk, SequenceOk, SyncOk, GroupUpdates, LogUpdates, IsGroup, ByteSize, AppendLog, Finish, Arrive, Apply;
    if AppendLog(s, t) {
      KeepAppendLog(s, t);
    } else if Finish(s, t) {
      KeepFinish(s, t);
    } else if Arrive(s, t) {
      KeepArrive(s, t);
    } else if Apply(s, t) {
      KeepApply(s, t);
    } else if Begin(s, t) {
      GroupBegin(s, t);
    } else if SyncLog(s, t) {
      SyncNow(s.arrivals, s.head, Covered(s.head, s.phase), s.log, s.synced, s.durable);
    } else if i: nat :| i in s.done && t == s.(returned := s.returned + {i}) {
      assert s.done + (s.returned + {i}) == s.done + s.returned;
    }
  }

  ghost predicate Run(states: seq<State>) {
    states != [] && Init(states[0]) && forall i :: 0 < i < |states| ==> Next(states[i - 1], states[i])
  }

  lemma {:induction false} RunInv(states: seq<State>, i: nat)
    requires Run(states) && i < |states|
    ensures Inv(states[i])
  {
    if i > 0 {
      RunInv(states, i - 1);
      NextKeeps(states[i - 1], states[i]);
    }
  }

  lemma {:induction false} InvMeaning(s: State)
    requires Inv(s)
    ensures s.head <= Covered(s.head, s.phase) <= |s.arrivals| && s.synced <= |s.log| && s.durable <= |s.arrivals|
    ensures LogUpdates(s.log, |s.log|) == GroupUpdates(s.arrivals, Covered(s.head, s.phase))
    ensures LogUpdates(s.log, s.synced) == GroupUpdates(s.arrivals, s.durable)
    ensures forall i :: 0 <= i < s.head && s.arrivals[i].sync && s.arrivals[i].updates.Some? ==> i < s.durable
    ensures Told(s.done, s.returned, s.head)
  {
  }

  /** The memtable has the updates of every writer that is out of the queue. */
  lemma {:induction false} MemCovers(s: State)
    requires Inv(s)
    ensures s.head <= |s.arrivals| && GroupUpdates(s.arrivals, s.head) <= LogUpdates(s.mem, |s.mem|)
  {
    hide LogUpdates, GroupUpdates, SequenceOk, SyncOk;
    if Unapplied(s.phase) {
      var b := s.log[|s.log| - 1];
      assert s.log == s.mem + [b];
      LogAppended(s.mem, b, |s.mem|);
      GroupSplit(s.arrivals, s.head, s.phase.n);
      SameFront(GroupUpdates(s.arrivals, s.head), LogUpdates(s.mem, |s.mem|), b.updates);
    } else {
      GroupGrows(s.arrivals, s.head, Covered(s.head, s.phase));
    }
  }

  lemma SameFront(a: seq<Update>, b: seq<Update>, c: seq<Update>)
    requires a + c == b + c
    ensures a == b
  {
    assert |a| == |b|;
    assert a == (a + c)[..|a|] && b == (b + c)[..|a|];
  }

  /** In every state of every run: a writer that has returned has its updates in the log and in the
      memtable, behind those of all the writers that arrived before it; if it asked for a sync, in the part of the log
      that was synced. */
  lemma {:induction false} ReturnedIsCommitted(states: seq<State>, k: nat, i: nat)
    requires Run(states) && k < |states| && i in states[k].returned
    ensures var s := states[k];
            && i < s.head <= |s.arrivals| && s.synced <= |s.log|
            && GroupUpdates(s.arrivals, i + 1) <= LogUpdates(s.log, |s.log|)
            && GroupUpdates(s.arrivals, i + 1) <= LogUpdates(s.mem, |s.mem|)
            && (s.arrivals[i].sync && s.arrivals[i].updates.Some? ==>
                  GroupUpdates(s.arrivals, i + 1) <= LogUpdates(s.log, s.synced))
  {
    hide Run, Inv, LogUpdates, GroupUpdates;
    RunInv(states, k);
    var s := states[k];
    InvMeaning(s);
    MemCovers(s);
    assert i in s.done + s.returned;
    GroupGrows(s.arrivals, i + 1, Covered(s.head, s.phase));
    GroupGrows(s.arrivals, i + 1, s.head);
    if s.arrivals[i].sync && s.arrivals[i].updates.Some? {
      GroupGrows(s.arrivals, i + 1, s.durable);
    }
  }

  lemma {:induction false} GroupGrows(q: seq<Pending>, i: nat, j: nat)
    requires i <= j <= |q|
    ensures GroupUpdates(q, i) <= GroupUpdates(q, j)
  {
    if i < j {
      GroupGrows(q, i, j - 1);
    }
  }
}
