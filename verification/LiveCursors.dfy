/** Iterators over data that grows while they stand on it: other threads add entries newer than the reader's snapshot,
    at any moment.  What the reader can count on is stated about the entries in its snapshot's view, which stay. */
module LiveCursors {
  import opened Keys

  /** The entries among the first n that are not newer than the snapshot. */
  ghost function InView(run: seq<Entry>, s: nat, n: nat): (r: seq<Entry>)
    requires n <= |run|
    ensures |r| <= n
  {
    if n == 0 then []
    else InView(run, s, n - 1) + if run[n - 1].key.sequence <= s then [run[n - 1]] else []
  }

  lemma {:induction false} InViewMember(run: seq<Entry>, s: nat, n: nat, e: Entry)
    requires n <= |run|
    ensures e in InView(run, s, n) <==> e in run[..n] && e.key.sequence <= s
  {
    if n > 0 {
      InViewMember(run, s, n - 1, e);
      assert run[..n] == run[..n - 1] + [run[n - 1]];
    }
  }

  lemma {:induction false} InViewSorted(run: seq<Entry>, s: nat, n: nat)
    requires Sorted(run) && n <= |run|
    ensures Sorted(InView(run, s, n))
    ensures forall j, i :: 0 <= j < |InView(run, s, n)| && n <= i < |run| ==>
              Before(InView(run, s, n)[j].key, run[i].key)
  {
    hide Before;
    if n > 0 {
      InViewSorted(run, s, n - 1);
      assert forall i :: n <= i < |run| ==> Before(run[n - 1].key, run[i].key);
    }
  }

  lemma {:induction false} InViewPrefix(run: seq<Entry>, s: nat, a: nat, b: nat)
    requires a <= b <= |run|
    ensures InView(run, s, a) <= InView(run, s, b)
    ensures forall j :: |InView(run, s, a)| <= j < |InView(run, s, b)| ==>
              exists i :: a <= i < b && run[i] == InView(run, s, b)[j]
  {
    if a < b {
      InViewPrefix(run, s, a, b - 1);
      var shorter, longer := InView(run, s, b - 1), InView(run, s, b);
      forall j | |InView(run, s, a)| <= j < |longer| ensures exists i :: a <= i < b && run[i] == longer[j] {
        if j < |shorter| {
          var i :| a <= i < b - 1 && run[i] == shorter[j];
          assert run[i] == longer[j];
        } else {
          assert run[b - 1] == longer[j];
        }
      }
    }
  }

  /** A snapshot that sees everything. */
  lemma {:induction false} AllInView(run: seq<Entry>, s: nat, n: nat)
    requires n <= |run| && forall e :: e in run ==> e.key.sequence <= s
    ensures InView(run, s, n) == run[..n]
  {
    if n > 0 {
      AllInView(run, s, n - 1);
      assert run[..n] == run[..n - 1] + [run[n - 1]];
    }
  }

  function Inserted(run: seq<Entry>, i: nat, e: Entry): seq<Entry>
    requires i <= |run|
  {
    run[..i] + [e] + run[i..]
  }

  /** A newer entry changes neither the view nor where in it the other entries stand. */
  lemma {:induction false} InViewInserted(run: seq<Entry>, s: nat, i: nat, e: Entry, n: nat)
    requires i <= |run| && n <= |run| && e.key.sequence > s
    ensures n <= i ==> InView(Inserted(run, i, e), s, n) == InView(run, s, n)
    ensures i <= n ==> InView(Inserted(run, i, e), s, n + 1) == InView(run, s, n)
  {
    if n > 0 {
      InViewInserted(run, s, i, e, n - 1);
    }
  }

  lemma InsertedAt(run: seq<Entry>, i: nat, e: Entry)
    requires i <= |run|
    ensures |Inserted(run, i, e)| == |run| + 1
    ensures forall j :: 0 <= j < i ==> Inserted(run, i, e)[j] == run[j]
    ensures forall j :: i < j <= |run| ==> Inserted(run, i, e)[j] == run[j - 1]
    ensures forall x :: x in Inserted(run, i, e) ==> x in run || x == e
  {
  }

  lemma InsertedSorted(run: seq<Entry>, i: nat, e: Entry)
    requires Sorted(run) && i == LowerBound(run, e.key) && (i < |run| ==> run[i].key != e.key)
    ensures Sorted(Inserted(run, i, e))
  {
    hide Before, Sorted, LowerBound;
    assert run == run[..i] + run[i..];
    SortedParts(run[..i], run[i..]);
    FrontBefore(run, e, i);
    BackAfter(run, e, i);
    JoinThree(run[..i], e, run[i..]);
  }

  lemma FrontBefore(run: seq<Entry>, e: Entry, i: nat)
    requires Sorted(run) && i == LowerBound(run, e.key)
    ensures forall x :: x in run[..i] ==> Before(x.key, e.key)
  {
    hide Before, Sorted;
    forall x | x in run[..i] ensures Before(x.key, e.key) {
      var j :| 0 <= j < i && run[..i][j] == x;
      assert run[j] == x;
    }
  }

  lemma BackAfter(run: seq<Entry>, e: Entry, i: nat)
    requires Sorted(run) && i == LowerBound(run, e.key) && (i < |run| ==> run[i].key != e.key)
    ensures forall y :: y in run[i..] ==> Before(e.key, y.key)
  {
    hide Before, Sorted;
    forall y | y in run[i..] ensures Before(e.key, y.key) {
      var j :| 0 <= j < |run| - i && run[i..][j] == y;
      AtOrBehind(run[i].key, e.key);
      if j > 0 {
        Ordered(run, i, i + j);
        BeforeAfter(e.key, run[i].key, y.key);
      }
    }
  }

  lemma JoinThree(front: seq<Entry>, e: Entry, back: seq<Entry>)
    requires Sorted(front) && Sorted(back)
    requires (forall x :: x in front ==> Before(x.key, e.key)) && (forall y :: y in back ==> Before(e.key, y.key))
    ensures Sorted(front + [e] + back)
  {
    hide Before, Sorted;
    SortedOne(e);
    SortedJoin(front, [e]);
    forall x, y | x in front + [e] && y in back ensures Before(x.key, y.key) {
      if x in front {
        BeforeAfter(x.key, e.key, y.key);
      }
    }
    SortedJoin(front + [e], back);
  }

  lemma SortedOne(e: Entry)
    ensures Sorted([e])
  {
  }

  lemma AtOrBehind(a: IKey, b: IKey)
    requires !Before(a, b) && a != b
    ensures Before(b, a)
  {
    if a.user == b.user && a.Tag() == b.Tag() {
      SameTag(a, b);
    }
  }

  lemma BeforeAfter(a: IKey, b: IKey, c: IKey)
    requires Before(a, b) && Before(b, c)
    ensures Before(a, c)
  {
  }

  class LiveCursor {
    const snapshot: nat
    var run: seq<Entry>
    var at: nat  // |run| when the iterator is not valid
    var writes: nat  // how many entries other threads may still add

    ghost predicate Valid()
      reads this
    {
      Sorted(run) && at <= |run| && forall e :: e in run ==> e.key.sequence <= MAX_SEQUENCE
    }

    predicate OnEntry()
      reads this
    {
      at < |run|
    }

    function Current(): Entry
      requires OnEntry()
      reads this
    {
      run[at]
    }

    predicate Shown()
      reads this
    {
      OnEntry() && run[at].key.sequence <= snapshot
    }

    /** The entries in view: these do not change. */
    ghost function Seen(): seq<Entry>
      reads this
    {
      InView(run, snapshot, |run|)
    }

    /** How many of them lie before the position. */
    ghost function Rank(): nat
      reads this
    {
      if OnEntry() then |InView(run, snapshot, at)| else |Seen()|
    }

    /** How many of them lie up to the position; none when the iterator ran off. */
    ghost function Past(): nat
      reads this
    {
      if OnEntry() then Rank() + (if Shown() then 1 else 0) else 0
    }

    /** Bounds for moves forward and back. */
    ghost function Left(): nat
      reads this
    {
      if OnEntry() then |run| - at + writes else writes
    }

    ghost function Right(): nat
      reads this
    {
      if OnEntry() then at + 1 + writes else 0
    }

    constructor (run: seq<Entry>, snapshot: nat, writes: nat)
      requires Sorted(run) && forall e :: e in run ==> e.key.sequence <= MAX_SEQUENCE
      ensures Valid() && this.run == run && this.snapshot == snapshot && this.writes == writes && !OnEntry()
    {
      this.run, this.snapshot, this.writes := run, snapshot, writes;
      at := |run|;
    }

    /** Where the current entry stands among those in view. */
    lemma Placed()
      requires Valid()
      ensures Sorted(Seen()) && Rank() <= |Seen()| && forall e :: e in Seen() ==> e.key.sequence <= snapshot
      ensures !OnEntry() ==> Rank() == |Seen()|
      ensures Shown() ==> Rank() < |Seen()| && Seen()[Rank()] == Current()
      ensures OnEntry() ==> forall j :: 0 <= j < Rank() ==> Before(Seen()[j].key, Current().key)
      ensures OnEntry() && !Shown() ==> forall j :: Rank() <= j < |Seen()| ==> Before(Current().key, Seen()[j].key)
    {
      hide Before;
      InViewSorted(run, snapshot, |run|);
      InViewPrefix(run, snapshot, at, |run|);
      forall e | e in Seen() ensures e.key.sequence <= snapshot {
        InViewMember(run, snapshot, |run|, e);
      }
      if OnEntry() {
        InViewSorted(run, snapshot, at);
        InViewPrefix(run, snapshot, at + 1, |run|);
      }
    }

    /** Another thread adds an entry; the iterator stays on the node it was on. */
    method Insert(e: Entry)
      requires Valid() && snapshot < e.key.sequence <= MAX_SEQUENCE && writes > 0
      modifies this`run, this`at, this`writes
      ensures Valid() && Undisturbed(old(Seen()), old(Rank()), old(Shown()), old(Left()), old(Right()))
      ensures OnEntry() == old(OnEntry()) && (OnEntry() ==> Current() == old(Current())) && writes == old(writes) - 1
    {
      hide Sorted, InView, Inserted;
      writes := writes - 1;
      var i := LowerBound(run, e.key);
      if i == |run| || run[i].key != e.key {
        InsertedSorted(run, i, e);
        InViewInserted(run, snapshot, i, e, |run|);
        InViewInserted(run, snapshot, i, e, at);
        InsertedAt(run, i, e);
        at := if at < i && at < |run| then at else at + 1;
        run := Inserted(run, i, e);
      }
    }

    ghost predicate Undisturbed(seen: seq<Entry>, rank: nat, shown: bool, left: nat, right: nat)
      reads this
    {
      Seen() == seen && Rank() == rank && Shown() == shown && Left() <= left && Right() <= right
    }

    /** Any number of entries that other threads add before the iterator's next move. */
    method OthersWrite()
      requires Valid()
      modifies this`run, this`at, this`writes
      ensures Valid() && Undisturbed(old(Seen()), old(Rank()), old(Shown()), old(Left()), old(Right()))
      ensures OnEntry() == old(OnEntry()) && (OnEntry() ==> Current() == old(Current()))
    {
      hide Sorted;
      var more: bool := *;
      while more && writes > 0
        invariant Valid() && Undisturbed(old(Seen()), old(Rank()), old(Shown()), old(Left()), old(Right()))
        invariant OnEntry() == old(OnEntry()) && (OnEntry() ==> Current() == old(Current()))
        decreases writes
      {
        var e: Entry := *;
        if snapshot < e.key.sequence <= MAX_SEQUENCE {
          Insert(e);
        } else {
          writes := writes - 1;
        }
        more := *;
      }
    }

    method SeekToFirst()
      requires Valid()
      modifies this`run, this`at, this`writes
      ensures Valid() && Seen() == old(Seen()) && Rank() == 0
    {
      hide Sorted;
      OthersWrite();
      at := 0;
    }

    method SeekToLast()
      requires Valid()
      modifies this`run, this`at, this`writes
      ensures Valid() && Seen() == old(Seen()) && Past() == |Seen()|
    {
      hide Sorted;
      OthersWrite();
      at := if run == [] then 0 else |run| - 1;
    }

    method Seek(target: IKey)
      requires Valid()
      modifies this`run, this`at, this`writes
      ensures Valid() && Seen() == old(Seen()) && Sorted(Seen()) && Rank() == LowerBound(Seen(), target)
      ensures OnEntry() ==> !Before(Current().key, target)
    {
      hide Sorted, Before;
      OthersWrite();
      at := LowerBound(run, target);
      InViewLowerBound(run, snapshot, target);
    }

    method Next()
      requires Valid() && OnEntry()
      modifies this`run, this`at, this`writes
      ensures Valid() && Seen() == old(Seen()) && Left() < old(Left())
      ensures Rank() == old(Rank()) + if old(Shown()) then 1 else 0
    {
      hide Sorted;
      OthersWrite();
      at := at + 1;
    }

    method Prev()
      requires Valid() && OnEntry()
      modifies this`run, this`at, this`writes
      ensures Valid() && Seen() == old(Seen()) && Right() < old(Right())
      ensures Past() == old(Rank())
    {
      hide Sorted;
      OthersWrite();
      at := if at == 0 then |run| else at - 1;
    }
  }

  /** Seeking in the data and seeking in the view agree. */
  lemma InViewLowerBound(run: seq<Entry>, s: nat, target: IKey)
    requires Sorted(run)
    ensures Sorted(InView(run, s, |run|))
    ensures |InView(run, s, LowerBound(run, target))| == LowerBound(InView(run, s, |run|), target)
  {
    hide Sorted, Before, InView;
    var n, seen := LowerBound(run, target), InView(run, s, |run|);
    var p := |InView(run, s, n)|;
    InViewSorted(run, s, |run|);
    InViewPrefix(run, s, n, |run|);
    forall j | 0 <= j < p ensures Before(seen[j].key, target) {
      assert seen[j] == InView(run, s, n)[j];
      InViewMember(run, s, n, InView(run, s, n)[j]);
      var i :| 0 <= i < n && run[..n][i] == seen[j];
      assert Before(run[i].key, target);
    }
    if p < |seen| {
      var i :| n <= i < |run| && run[i] == seen[p];
      assert !Before(run[i].key, target);
    }
    LowerBoundIs(seen, target, p);
  }
}
