/** merger.cc: a cursor over the sorted merge of several cursors, some of whose data may grow meanwhile. */
module MergingIterators {
  import opened Keys
  import opened LiveCursors

  /** all is the sorted merge of the runs, no key of which occurs in two of them. */
  ghost predicate Merge(runs: seq<seq<Entry>>, all: seq<Entry>) {
    && Sorted(all)
    && (forall i :: 0 <= i < |runs| ==> Sorted(runs[i]))
    && (forall i, j :: 0 <= i < |runs| && 0 <= j < |runs[i]| ==> runs[i][j] in all)
    && (forall e :: e in all ==> exists i :: 0 <= i < |runs| && e in runs[i])
    && (forall i, i', j, j' |
          0 <= i < |runs| && 0 <= i' < |runs| && i != i' && 0 <= j < |runs[i]| && 0 <= j' < |runs[i']|
          :: runs[i][j].key != runs[i'][j'].key)
  }

  /** How many entries of run lie before position n of the merge. */
  ghost function Split(run: seq<Entry>, all: seq<Entry>, n: nat): (p: nat)
    requires n <= |all|
    ensures p <= |run|
  {
    if n < |all| && Sorted(run) then LowerBound(run, all[n].key) else |run|
  }

  lemma Owner(runs: seq<seq<Entry>>, all: seq<Entry>, n: nat) returns (c: nat)
    requires Merge(runs, all) && n < |all|
    ensures c < |runs| && Split(runs[c], all, n) < |runs[c]| && runs[c][Split(runs[c], all, n)] == all[n]
  {
    var e := all[n];
    assert e in all;
    c :| 0 <= c < |runs| && e in runs[c];
    var j :| 0 <= j < |runs[c]| && runs[c][j] == all[n];
    LowerBoundIs(runs[c], all[n].key, j);
  }

  /** Passing position n moves exactly the owner's split point, by one. */
  lemma SplitStep(runs: seq<seq<Entry>>, all: seq<Entry>, n: nat, c: nat, i: nat)
    requires Merge(runs, all) && n < |all| && c < |runs| && i < |runs|
    requires Split(runs[c], all, n) < |runs[c]| && runs[c][Split(runs[c], all, n)] == all[n]
    ensures Split(runs[i], all, n + 1) == Split(runs[i], all, n) + if i == c then 1 else 0
  {
    MergeSorted(runs, all);
    var run, p := runs[i], Split(runs[i], all, n);
    var q := if i == c then p + 1 else p;
    forall j | 0 <= j < |run|
      ensures j < q && n + 1 < |all| ==> Before(run[j].key, all[n + 1].key)
      ensures j >= q ==> n + 1 < |all| && !Before(run[j].key, all[n + 1].key)
    {
      if n + 1 < |all| {
        Ordered(all, n, n + 1);
      }
      if j >= q {
        assert !Before(run[j].key, all[n].key);
        assert i == c ==> Before(run[p].key, run[j].key);
        assert run[j].key != all[n].key;
        assert runs[i][j] in all;
        var m :| 0 <= m < |all| && all[m] == run[j];
        Ordered(all, m, n);
        if n + 1 < |all| {
          Ordered(all, m, n + 1);
        }
      }
    }
    var next := if q < |run| then Some(run[q]) else None;
    if n + 1 < |all| {
      LowerBoundIs(run, all[n + 1].key, q);
    }
  }

  /** Of the entries at the split points the least is all[n]; of those just before them the greatest is
      all[n - 1]. */
  lemma SplitExtremes(runs: seq<seq<Entry>>, all: seq<Entry>, n: nat, i: nat)
    requires Merge(runs, all) && n <= |all| && i < |runs|
    ensures var run, p := runs[i], Split(runs[i], all, n);
            && (n < |all| && p < |run| ==> run[p] == all[n] || Before(all[n].key, run[p].key))
            && (n == |all| ==> p == |run|)
            && (n > 0 && p > 0 ==> run[p - 1] == all[n - 1] || Before(run[p - 1].key, all[n - 1].key))
            && (n == 0 ==> p == 0)
  {
  }

  /** Seeking every child to the target splits them at the target's place in the merge. */
  lemma SplitSeek(runs: seq<seq<Entry>>, all: seq<Entry>, target: IKey, i: nat)
    requires Merge(runs, all) && i < |runs|
    ensures Split(runs[i], all, LowerBound(all, target)) == LowerBound(runs[i], target)
  {
    var n, p := LowerBound(all, target), LowerBound(runs[i], target);
    forall j | 0 <= j < |runs[i]|
      ensures Before(runs[i][j].key, target) <==> n == |all| || Before(runs[i][j].key, all[n].key)
    {
      assert runs[i][j] in all;
      var m :| 0 <= m < |all| && all[m] == runs[i][j];
      if n < |all| {
        Ordered(all, m, n);
        assert m < n <==> Before(all[m].key, target);
      }
    }
    var next := if p < |runs[i]| then Some(runs[i][p]) else None;
    if n < |all| {
      LowerBoundIs(runs[i], all[n].key, p);
    }
  }

  lemma MergeSorted(runs: seq<seq<Entry>>, all: seq<Entry>)
    requires Merge(runs, all)
    ensures Sorted(all)
  {
  }

  lemma OthersKeysDiffer(runs: seq<seq<Entry>>, all: seq<Entry>, n: nat, c: nat, i: nat)
    requires Merge(runs, all) && n < |all| && c < |runs| && i < |runs| && i != c
    requires Split(runs[c], all, n) < |runs[c]| && runs[c][Split(runs[c], all, n)] == all[n]
    ensures var p := Split(runs[i], all, n);
            p == LowerBound(runs[i], all[n].key) && (p < |runs[i]| ==> runs[i][p].key != all[n].key)
  {
  }

  datatype Direction = Forward | Reverse

  class MergingIterator {
    const children: seq<LiveCursor>
    const snapshot: nat
    var current: Option<nat>
    var direction: Direction

    // The abstract cursor: the number of entries of the merge before the position, |all| when not valid.  The merge is
    // that of the entries in view; the iterator may also stand on an entry that was added later.
    ghost const runs: seq<seq<Entry>>
    ghost const all: seq<Entry>
    ghost var at: nat

    ghost predicate Children()
      reads children
    {
      && (forall i, j :: 0 <= i < j < |children| ==> children[i] != children[j])
      && |runs| == |children|
      && (forall i :: 0 <= i < |children| ==>
            && children[i].Valid() && children[i].snapshot == snapshot && children[i].Seen() == runs[i])
      && Merge(runs, all)
    }

    /** Every child stands on its first entry in view at or after position n of the merge, or on a newer one there. */
    ghost predicate Ahead(n: nat)
      requires n <= |all|
      reads children
    {
      forall i :: 0 <= i < |children| ==> children[i].Rank() == Split(children[i].Seen(), all, n)
    }

    /** Every child stands on its last entry in view before position n of the merge, or on a newer one there. */
    ghost predicate Behind(n: nat)
      requires n <= |all|
      reads children
    {
      forall i :: 0 <= i < |children| ==> children[i].Past() == Split(children[i].Seen(), all, n)
    }

    predicate OnEntry()
      reads this
    {
      current.Some?
    }

    ghost predicate Valid()
      reads this, children
    {
      && Children() && at <= |all|
      && (current.None? ==> at == |all|)
      && (current.Some? ==>
            && current.value < |children| && children[current.value].OnEntry()
            && (Shown() ==> at < |all| && Current() == all[at])
            && (direction.Forward? ==> Ahead(at))
            && (direction.Reverse? ==> Past() <= |all| && Behind(Past())))
    }

    function Current(): Entry
      requires current.Some? && current.value < |children| && children[current.value].OnEntry()
      reads this, children
    {
      children[current.value].Current()
    }

    /** The current entry is in view. */
    predicate Shown()
      reads this, children
    {
      current.Some? && current.value < |children| && children[current.value].Shown()
    }

    /** The number of entries of the merge up to the position; none when the iterator ran off. */
    ghost function Past(): nat
      reads this, children
    {
      if current.None? then 0 else at + if Shown() then 1 else 0
    }

    lemma Facts()
      requires Valid()
      ensures Sorted(all) && at <= |all| && Past() <= |all| && (!OnEntry() ==> at == |all|)
      ensures OnEntry() ==>
                && current.value < |children| && children[current.value].OnEntry()
                && (Shown() <==> Current().key.sequence <= snapshot)
      ensures Shown() ==> at < |all| && Current() == all[at]
    {
      hide Merge, Sorted, Ahead, Behind, LiveCursor.Valid;
      MergeSorted(runs, all);
    }

    /** A snapshot at the largest sequence number sees every entry. */
    lemma AllShown()
      requires Valid() && OnEntry() && snapshot == MAX_SEQUENCE
      ensures Shown()
    {
      hide Merge, Sorted, Ahead, Behind;
      var c := children[current.value];
      assert c.run[c.at] in c.run;
    }

    constructor (children: seq<LiveCursor>, snapshot: nat, ghost runs: seq<seq<Entry>>, ghost all: seq<Entry>)
      requires forall i, j :: 0 <= i < j < |children| ==> children[i] != children[j]
      requires |runs| == |children| && Merge(runs, all)
      requires forall i :: 0 <= i < |children| ==>
                 children[i].Valid() && children[i].snapshot == snapshot && children[i].Seen() == runs[i]
      ensures Valid() && current.None? && this.snapshot == snapshot
      ensures this.children == children && this.runs == runs && this.all == all
    {
      this.children, this.snapshot := children, snapshot;
      this.runs, this.all := runs, all;
      current := None;
      direction := Forward;
      at := |all|;
    }

    /** Of two entries the later one by key is not before the other. */
    method FindSmallest(ghost n: nat)
      requires Children() && n <= |all| && Ahead(n)
      modifies this
      ensures Children() && at == n && direction == old(direction)
      ensures current.Some? ==> current.value < |children| && children[current.value].OnEntry()
      ensures current.None? ==> n == |all|
      ensures Shown() ==> n < |all| && Current() == all[n]
    {
      hide Merge, Sorted, Split, Before, LiveCursor.Valid, LiveCursor.Seen, LiveCursor.Rank;
      var smallest: Option<nat> := None;
      for i := 0 to |children|
        invariant direction == old(direction)
        invariant smallest.Some? ==> smallest.value < i && children[smallest.value].OnEntry()
        invariant forall j :: 0 <= j < i && children[j].OnEntry() ==>
                    smallest.Some? && !Before(children[j].Current().key, children[smallest.value].Current().key)
      {
        var child := children[i];
        if child.OnEntry() {
          if smallest.None? {
            smallest := Some(i);
            NotBefore(child.Current().key);
          } else if Before(child.Current().key, children[smallest.value].Current().key) {
            ghost var was := children[smallest.value].Current().key;
            smallest := Some(i);
            NotBefore(child.Current().key);
            forall j | 0 <= j < i && children[j].OnEntry()
              ensures !Before(children[j].Current().key, child.Current().key)
            {
              StillNotBefore(children[j].Current().key, was, child.Current().key);
            }
          }
        }
      }
      current := smallest;
      at := n;
      SmallestIsNext(n);
    }

    /** With all children ahead, the least of their entries, if in view, is the next one of the merge. */
    lemma SmallestIsNext(n: nat)
      requires Children() && n <= |all| && Ahead(n)
      requires current.Some? ==> current.value < |children| && children[current.value].OnEntry()
      requires forall j :: 0 <= j < |children| && children[j].OnEntry() ==>
                 current.Some? && !Before(children[j].Current().key, Current().key)
      ensures current.None? ==> n == |all|
      ensures Shown() ==> n < |all| && Current() == all[n]
    {
      hide Merge, Sorted, Split, LiveCursor.Seen, LiveCursor.Rank;
      if n < |all| {
        var o := Owner(runs, all, n);
        children[o].Placed();
        if Shown() {
          children[current.value].Placed();
          SplitExtremes(runs, all, n, current.value);
        }
      } else if Shown() {
        children[current.value].Placed();
        SplitExtremes(runs, all, n, current.value);
      }
    }

    method FindLargest(ghost n: nat)
      requires Children() && n <= |all| && Behind(n)
      modifies this
      ensures Children() && at <= |all| && Past() == n && direction == old(direction)
      ensures current.Some? ==> current.value < |children| && children[current.value].OnEntry()
      ensures current.None? ==> n == 0 && at == |all|
      ensures Shown() ==> at < |all| && Current() == all[at]
    {
      hide Merge, Sorted, Split, Before, LiveCursor.Valid, LiveCursor.Seen, LiveCursor.Rank, LiveCursor.Past;
      var largest: Option<nat> := None;
      var i := |children|;
      while i > 0
        invariant 0 <= i <= |children| && direction == old(direction)
        invariant largest.Some? ==> i <= largest.value < |children| && children[largest.value].OnEntry()
        invariant forall j :: i <= j < |children| && children[j].OnEntry() ==>
                    largest.Some? && !Before(children[largest.value].Current().key, children[j].Current().key)
      {
        i := i - 1;
        var child := children[i];
        if child.OnEntry() {
          if largest.None? {
            largest := Some(i);
            NotBefore(child.Current().key);
          } else if Before(children[largest.value].Current().key, child.Current().key) {
            ghost var was := children[largest.value].Current().key;
            largest := Some(i);
            NotBefore(child.Current().key);
            forall j | i < j < |children| && children[j].OnEntry()
              ensures !Before(child.Current().key, children[j].Current().key)
            {
              NorBefore(children[j].Current().key, was, child.Current().key);
            }
          }
        }
      }
      current := largest;
      LargestIsLast(n);
      at := if current.None? then |all| else if Shown() then n - 1 else n;
    }

    /** With all children behind, the greatest of their entries, if in view, is the last one of the merge so far. */
    lemma LargestIsLast(n: nat)
      requires Children() && n <= |all| && Behind(n)
      requires current.Some? ==> current.value < |children| && children[current.value].OnEntry()
      requires forall j :: 0 <= j < |children| && children[j].OnEntry() ==>
                 current.Some? && !Before(Current().key, children[j].Current().key)
      ensures current.None? ==> n == 0
      ensures Shown() ==> n > 0 && Current() == all[n - 1]
    {
      hide Merge, Sorted, Split, LiveCursor.Seen, LiveCursor.Rank;
      if n > 0 {
        var o := Owner(runs, all, n - 1);
        SplitStep(runs, all, n - 1, o, o);
        children[o].Placed();
        if Shown() {
          children[current.value].Placed();
          SplitExtremes(runs, all, n, current.value);
        }
      } else if Shown() {
        children[current.value].Placed();
        SplitExtremes(runs, all, n, current.value);
      }
    }

    /** Bounds for the moves forward from here, and for the moves back. */
    ghost function Left(): nat
      reads children
    {
      Sum(Lefts())
    }

    ghost function Right(): nat
      reads children
    {
      Sum(Rights())
    }

    ghost function Lefts(): (r: seq<nat>)
      reads children
      ensures |r| == |children|
    {
      seq(|children|, i requires 0 <= i < |children| reads children => children[i].Left())
    }

    ghost function Rights(): (r: seq<nat>)
      reads children
      ensures |r| == |children|
    {
      seq(|children|, i requires 0 <= i < |children| reads children => children[i].Right())
    }

    method SeekToFirst()
      requires Valid()
      modifies this, children
      ensures Valid() && at == 0 && direction.Forward?
    {
      hide Merge, Sorted, Split, LiveCursor.Valid, LiveCursor.Seen, LiveCursor.Rank;
      for i := 0 to |children|
        invariant Children()
        invariant forall j :: 0 <= j < i ==> children[j].Rank() == 0
      {
        children[i].SeekToFirst();
      }
      forall i | 0 <= i < |children| ensures Split(runs[i], all, 0) == 0 {
        SplitExtremes(runs, all, 0, i);
      }
      FindSmallest(0);
      direction := Forward;
    }

    method SeekToLast()
      requires Valid()
      modifies this, children
      ensures Valid() && Past() == |all| && direction.Reverse?
    {
      hide Merge, Sorted, Split, LiveCursor.Valid, LiveCursor.Seen, LiveCursor.Rank, LiveCursor.Past;
      for i := 0 to |children|
        invariant Children()
        invariant forall j :: 0 <= j < i ==> children[j].Past() == |runs[j]|
      {
        children[i].SeekToLast();
      }
      forall i | 0 <= i < |children| ensures Split(runs[i], all, |all|) == |runs[i]| {
        SplitExtremes(runs, all, |all|, i);
      }
      FindLargest(|all|);
      direction := Reverse;
    }

    method Seek(target: IKey)
      requires Valid()
      modifies this, children
      ensures Valid() && Sorted(all) && at == LowerBound(all, target) && direction.Forward?
    {
      hide Merge, Sorted, Split, LiveCursor.Valid, LiveCursor.Seen, LiveCursor.Rank;
      MergeSorted(runs, all);
      ghost var n := LowerBound(all, target);
      for i := 0 to |children|
        invariant Children()
        invariant forall j :: 0 <= j < i ==> children[j].Rank() == Split(runs[j], all, n)
      {
        children[i].Seek(target);
        SplitSeek(runs, all, target, i);
      }
      FindSmallest(n);
      direction := Forward;
    }

    /** The child goes to its first entry behind a key in view. */
    method SeekPast(child: LiveCursor, key: IKey)
      requires child.Valid() && key.sequence <= child.snapshot
      modifies child
      ensures child.Valid() && child.Seen() == old(child.Seen()) && Sorted(child.Seen())
      ensures var p := LowerBound(child.Seen(), key);
              child.Rank() == if p < |child.Seen()| && child.Seen()[p].key == key then p + 1 else p
    {
      child.Seek(key);
      child.Placed();
      if child.OnEntry() && !Before(child.Current().key, key) && !Before(key, child.Current().key) {
        SameKey(child.Current().key, key);
        child.Next();
      }
    }

    /** The child goes to its last entry before a key, or off its run. */
    method SeekBefore(child: LiveCursor, key: IKey)
      requires child.Valid()
      modifies child
      ensures child.Valid() && child.Seen() == old(child.Seen()) && Sorted(child.Seen())
      ensures child.Past() == LowerBound(child.Seen(), key)
    {
      child.Seek(key);
      child.Placed();
      if child.OnEntry() {
        child.Prev();
      } else {
        child.SeekToLast();
      }
    }

    /** From the backward to the forward state: the other children go behind the current entry. */
    method PutAhead(c: nat)
      requires Valid() && current == Some(c) && Shown() && direction.Reverse?
      modifies children
      ensures Children() && Ahead(at) && children[c].OnEntry() && children[c].Current() == all[at]
    {
      hide Merge, Sorted, Split, LowerBound, Before, LiveCursor.Valid, LiveCursor.Seen, LiveCursor.Rank;
      StandsBack(c);
      for i := 0 to |children|
        invariant Children() && children[c].Rank() == Split(runs[c], all, at)
        invariant children[c].OnEntry() && children[c].Current() == all[at]
        invariant forall j :: 0 <= j < i ==> children[j].Rank() == Split(runs[j], all, at)
      {
        if i != c {
          OthersKeysDiffer(runs, all, at, c, i);
          SeekPast(children[i], children[c].Current().key);
        }
      }
    }

    /** From the forward to the backward state: the other children go before the current entry. */
    method PutBehind(c: nat)
      requires Valid() && current == Some(c) && Shown() && direction.Forward?
      modifies children
      ensures Children() && Behind(at + 1) && children[c].OnEntry() && children[c].Current() == all[at]
    {
      hide Merge, Sorted, Split, LowerBound, Before, LiveCursor.Valid, LiveCursor.Seen, LiveCursor.Rank,
           LiveCursor.Past;
      StandsAhead(c);
      for i := 0 to |children|
        invariant Children() && children[c].Past() == Split(runs[c], all, at) + 1
        invariant children[c].OnEntry() && children[c].Current() == all[at]
        invariant forall j :: 0 <= j < i && j != c ==> children[j].Past() == Split(runs[j], all, at)
      {
        if i != c {
          OthersKeysDiffer(runs, all, at, c, i);
          SeekBefore(children[i], children[c].Current().key);
        }
      }
      forall i | 0 <= i < |children| ensures children[i].Past() == Split(runs[i], all, at + 1) {
        SplitStep(runs, all, at, c, i);
      }
    }

    /** The current child, on an entry in view, stands where the merge stands, in either state. */
    lemma StandsBack(c: nat)
      requires Children() && at < |all| && Behind(at + 1)
      requires c < |children| && children[c].Shown() && children[c].Current() == all[at]
      ensures children[c].Rank() == Split(runs[c], all, at)
      ensures Split(runs[c], all, at) < |runs[c]| && runs[c][Split(runs[c], all, at)] == all[at]
    {
      hide LiveCursor.Valid, LiveCursor.Seen, LiveCursor.Rank;
      children[c].Placed();
      var o := Owner(runs, all, at);
      SameOwner(runs, all, at, o, c, children[c].Rank());
      SplitStep(runs, all, at, c, c);
    }

    lemma StandsAhead(c: nat)
      requires Children() && at < |all| && Ahead(at)
      requires c < |children| && children[c].Shown() && children[c].Current() == all[at]
      ensures children[c].Past() == Split(runs[c], all, at) + 1
      ensures Split(runs[c], all, at) < |runs[c]| && runs[c][Split(runs[c], all, at)] == all[at]
    {
      hide LiveCursor.Valid, LiveCursor.Seen, LiveCursor.Rank;
      children[c].Placed();
    }

    method StepForward(c: nat)
      requires Children() && at <= |all| && Ahead(at) && current == Some(c) && c < |children| && children[c].OnEntry()
      requires Shown() ==> at < |all| && Current() == all[at]
      modifies children
      ensures Children() && Left() < old(Left())
      ensures var n := at + if old(Shown()) then 1 else 0; n <= |all| && Ahead(n)
    {
      hide Merge, Sorted, Split, LiveCursor.Valid, LiveCursor.Seen, LiveCursor.Rank, LiveCursor.Left;
      ghost var lefts := Lefts();
      if Shown() {
        StandsAhead(c);
        forall i | 0 <= i < |children|
          ensures Split(runs[i], all, at + 1) == Split(runs[i], all, at) + if i == c then 1 else 0
        {
          SplitStep(runs, all, at, c, i);
        }
      }
      children[c].Next();
      SumFalls(lefts, Lefts(), c);
    }

    method StepBack(c: nat)
      requires Children() && at <= |all| && current == Some(c) && c < |children| && children[c].OnEntry()
      requires Past() <= |all| && Behind(Past())
      requires Shown() ==> at < |all| && Current() == all[at]
      modifies children
      ensures Children() && Behind(at) && Right() < old(Right())
    {
      hide Merge, Sorted, Split, LiveCursor.Valid, LiveCursor.Seen, LiveCursor.Rank, LiveCursor.Right;
      ghost var rights := Rights();
      if Shown() {
        StandsBack(c);
        forall i | 0 <= i < |children|
          ensures Split(runs[i], all, at + 1) == Split(runs[i], all, at) + if i == c then 1 else 0
        {
          SplitStep(runs, all, at, c, i);
        }
      }
      children[c].Prev();
      SumFalls(rights, Rights(), c);
    }

    /** One entry forward.  The direction may change only on an entry in view. */
    method Next()
      requires Valid() && OnEntry() && (direction.Forward? || Shown())
      modifies this, children
      ensures Valid() && direction.Forward? && at == old(at) + if old(Shown()) then 1 else 0
      ensures old(direction.Forward?) ==> Left() < old(Left())
    {
      hide Merge, Sorted, Split, Before, Ahead, Behind, Children, Left, Right, Past, LiveCursor.Valid,
           LiveCursor.Seen, LiveCursor.Rank;
      var c := current.value;
      ghost var n := at + if Shown() then 1 else 0;
      if direction.Reverse? {
        PutAhead(c);
        direction := Forward;
      }
      StepForward(c);
      FindSmallest(n);
    }

    /** One entry back, in the same way. */
    method Prev()
      requires Valid() && OnEntry() && (direction.Reverse? || Shown())
      modifies this, children
      ensures Valid() && direction.Reverse? && Past() == old(at)
      ensures old(direction.Reverse?) ==> Right() < old(Right())
    {
      hide Merge, Sorted, Split, Before, Ahead, Children, Left, Right, LiveCursor.Valid, LiveCursor.Seen,
           LiveCursor.Rank, LiveCursor.Past;
      var c := current.value;
      if direction.Forward? {
        PutBehind(c);
        direction := Reverse;
      }
      StepBack(c);
      FindLargest(at);
    }

    /** A child's data grows while the iterator stands on it. */
    method ConcurrentInsert(c: nat, e: Entry)
      requires Valid() && c < |children| && snapshot < e.key.sequence <= MAX_SEQUENCE && children[c].writes > 0
      modifies children[c]
      ensures Valid() && OnEntry() == old(OnEntry()) && Shown() == old(Shown()) && Past() == old(Past())
      ensures OnEntry() ==> Current() == old(Current())
    {
      hide Merge, Sorted, Split, Before, LiveCursor.Valid, LiveCursor.Seen, LiveCursor.Rank;
      children[c].Insert(e);
    }
  }

  /** Only one run has an entry of the merge. */
  lemma SameOwner(runs: seq<seq<Entry>>, all: seq<Entry>, n: nat, o: nat, c: nat, p: nat)
    requires Merge(runs, all) && n < |all| && o < |runs| && c < |runs| && p < |runs[c]| && runs[c][p] == all[n]
    requires Split(runs[o], all, n) < |runs[o]| && runs[o][Split(runs[o], all, n)] == all[n]
    ensures o == c && Split(runs[c], all, n) == p
  {
    var q := Split(runs[o], all, n);
    if o == c {
      Ordered(runs[c], p, q);
    }
  }

  lemma SameKey(a: IKey, b: IKey)
    requires !Before(a, b) && !Before(b, a)
    ensures a == b
  {
    if a.user == b.user && a.Tag() == b.Tag() {
      SameTag(a, b);
    }
  }

  ghost function Sum(s: seq<nat>): nat {
    if s == [] then 0 else Sum(s[..|s| - 1]) + s[|s| - 1]
  }

  lemma {:induction false} SumFalls(a: seq<nat>, b: seq<nat>, c: nat)
    requires |a| == |b| && (forall i :: 0 <= i < |a| && i != c ==> b[i] == a[i])
    requires c < |a| ==> b[c] < a[c]
    ensures c < |a| ==> Sum(b) < Sum(a)
    ensures c >= |a| ==> Sum(b) == Sum(a)
  {
    if a != [] {
      SumFalls(a[..|a| - 1], b[..|b| - 1], c);
    }
  }

  lemma NotBefore(a: IKey)
    ensures !Before(a, a)
  {
  }

  lemma StillNotBefore(a: IKey, b: IKey, c: IKey)
    requires !Before(a, b) && Before(c, b)
    ensures !Before(a, c)
  {
  }

  lemma NorBefore(a: IKey, b: IKey, c: IKey)
    requires !Before(b, a) && Before(b, c)
    ensures !Before(c, a)
  {
  }
}
