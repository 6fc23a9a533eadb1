/** db_iter.cc: the user's view of the database as a bidirectional cursor. */
module DbIterators {
  import opened Keys
  import opened LiveCursors
  import opened MergingIterators

  /** Entry i is what snapshot s shows for its user key: in view, a value, and no newer entry in view. */
  ghost predicate Visible(run: seq<Entry>, s: nat, i: nat)
    requires i < |run|
  {
    && run[i].key.sequence <= s
    && run[i].key.kind.TypeValue?
    && forall j :: 0 <= j < i && run[j].key.user == run[i].key.user ==> run[j].key.sequence > s
  }

  /** The visible entries among the first n. */
  ghost function Visibles(run: seq<Entry>, s: nat, n: nat): (r: seq<Entry>)
    requires n <= |run|
  {
    if n == 0 then []
    else if Visible(run, s, n - 1) then Visibles(run, s, n - 1) + [run[n - 1]]
    else Visibles(run, s, n - 1)
  }

  ghost function VisibleList(run: seq<Entry>, s: nat): seq<Entry> {
    Visibles(run, s, |run|)
  }

  lemma {:induction false} NothingVisible(run: seq<Entry>, s: nat, a: nat, b: nat)
    requires a <= b <= |run|
    requires forall i :: a <= i < b ==> !Visible(run, s, i)
    ensures Visibles(run, s, a) == Visibles(run, s, b)
  {
    if a < b {
      NothingVisible(run, s, a, b - 1);
    }
  }

  lemma {:induction false} VisiblePrefix(run: seq<Entry>, s: nat, a: nat, b: nat)
    requires a <= b <= |run|
    ensures Visibles(run, s, a) <= Visibles(run, s, b)
  {
    if a < b {
      VisiblePrefix(run, s, a, b - 1);
    }
  }

  /** The visible entry i stands in the list at the number of visible entries before it. */
  lemma VisibleRank(run: seq<Entry>, s: nat, i: nat)
    requires i < |run| && Visible(run, s, i)
    ensures |Visibles(run, s, i)| < |VisibleList(run, s)|
    ensures VisibleList(run, s)[|Visibles(run, s, i)|] == run[i]
    ensures Visibles(run, s, i + 1) == Visibles(run, s, i) + [run[i]]
  {
    VisiblePrefix(run, s, i + 1, |run|);
  }

  lemma {:induction false} VisibleMember(run: seq<Entry>, s: nat, n: nat, e: Entry)
    requires n <= |run|
    ensures e in Visibles(run, s, n) <==> exists i :: 0 <= i < n && Visible(run, s, i) && run[i] == e
  {
    if n > 0 {
      VisibleMember(run, s, n - 1, e);
      if i :| 0 <= i < n && Visible(run, s, i) && run[i] == e {
        assert i == n - 1 || e in Visibles(run, s, n - 1);
      }
    }
  }

  ghost predicate AscendingUsers(list: seq<Entry>) {
    forall p, q :: 0 <= p < q < |list| ==> list[p].key.user < list[q].key.user
  }

  /** The list is what the reader of a snapshot should see: in increasing order of user keys, for each key that
      has a value in the snapshot, that value. */
  lemma {:induction false} VisibleListSorted(run: seq<Entry>, s: nat, n: nat)
    requires Sorted(run) && n <= |run|
    ensures AscendingUsers(Visibles(run, s, n))
  {
    if n > 0 {
      VisibleListSorted(run, s, n - 1);
      var shorter := Visibles(run, s, n - 1);
      forall p | 0 <= p < |shorter| 
        ensures Visible(run, s, n - 1) ==> shorter[p].key.user < run[n - 1].key.user
      {
        VisibleMember(run, s, n - 1, shorter[p]);
        var i :| 0 <= i < n - 1 && Visible(run, s, i) && run[i] == shorter[p];
        assert Before(run[i].key, run[n - 1].key);
        assert Visible(run, s, n - 1) ==> run[i].key.user != run[n - 1].key.user;
      }
    }
  }

  lemma VisibleListMeaning(run: seq<Entry>, s: nat, k: UserKey, v: Bytes)
    requires Sorted(run)
    ensures (exists e :: e in VisibleList(run, s) && e.key.user == k && e.value == v)
            <==> View(Newest(Elements(run), k, s)) == Some(v)
  {
    VisibleIsNewest(run, s, k);
    if View(Newest(Elements(run), k, s)) == Some(v) {
      var i :| 0 <= i < |run| && Visible(run, s, i) && run[i].key.user == k;
      VisibleMember(run, s, |run|, run[i]);
    }
    if e :| e in VisibleList(run, s) && e.key.user == k && e.value == v {
      VisibleMember(run, s, |run|, e);
    }
  }

  lemma VisibleIsNewest(run: seq<Entry>, s: nat, k: UserKey)
    requires Sorted(run)
    ensures View(Newest(Elements(run), k, s)).Some?
            <==> exists i :: 0 <= i < |run| && Visible(run, s, i) && run[i].key.user == k
    ensures forall i :: 0 <= i < |run| && Visible(run, s, i) && run[i].key.user == k
                        ==> View(Newest(Elements(run), k, s)) == Some(run[i].value)
  {
    NewestInRun(run, k, s);
    var i := LowerBound(run, SeekKey(k, s));
    forall j | 0 <= j < |run| && Visible(run, s, j) && run[j].key.user == k ensures i == j {
      assert i <= j;
      assert !Before(run[i].key, SeekKey(k, s));
      assert i < j ==> Before(run[i].key, run[j].key);
    }
    if View(Newest(Elements(run), k, s)).Some? {
      forall j | 0 <= j < i && run[j].key.user == k ensures run[j].key.sequence > s {
        assert Before(run[j].key, SeekKey(k, s));
      }
      assert Visible(run, s, i);
    }
  }

  /** What the forward scan knows at position n: skip, if set, is the key whose remaining entries are hidden. */
  ghost predicate Skips(run: seq<Entry>, s: nat, n: nat, skip: Option<UserKey>) {
    && n <= |run|
    && (forall i, j :: 0 <= i < n <= j < |run| && run[i].key.user == run[j].key.user && run[i].key.sequence <= s
                       ==> skip.Some? && run[j].key.user <= skip.value)
    && (forall j :: n <= j < |run| && skip.Some? && run[j].key.user <= skip.value ==> !Visible(run, s, j))
  }

  function NextSkip(e: Entry, s: nat, skip: Option<UserKey>): Option<UserKey> {
    if e.key.sequence <= s && e.key.kind.TypeDeletion? then Some(e.key.user) else skip
  }

  /** The entries from a up to b belong to the key being skipped or are too new. */
  ghost predicate Skipped(run: seq<Entry>, s: nat, a: nat, b: nat, skip: Option<UserKey>) {
    && b <= |run|
    && forall j :: a <= j < b ==> skip.Some? && run[j].key.user <= skip.value
                                  && (run[j].key.user == skip.value || run[j].key.sequence > s)
  }

  /** The forward scan at position n looks for the first visible entry from start on. */
  ghost predicate Scanning(run: seq<Entry>, s: nat, n: nat, start: nat, skip: Option<UserKey>) {
    && Skipped(run, s, n, start, skip)
    && (n <= start ==> Skips(run, s, start, skip))
    && (start <= n ==> Skips(run, s, n, skip) && Visibles(run, s, start) == Visibles(run, s, n))
  }

  /** The scan yields an entry in view that is a value and not of a key being skipped. */
  predicate Yields(e: Entry, s: nat, skip: Option<UserKey>) {
    e.key.sequence <= s && e.key.kind.TypeValue? && !(skip.Some? && e.key.user <= skip.value)
  }

  lemma ScanFound(run: seq<Entry>, s: nat, n: nat, start: nat, skip: Option<UserKey>)
    requires Scanning(run, s, n, start, skip) && n < |run| && Yields(run[n], s, skip)
    ensures Visible(run, s, n) && Visibles(run, s, start) == Visibles(run, s, n)
    ensures |Visibles(run, s, n)| < |VisibleList(run, s)| && VisibleList(run, s)[|Visibles(run, s, n)|] == run[n]
  {
    VisibleRank(run, s, n);
  }

  lemma ScanStep(run: seq<Entry>, s: nat, n: nat, start: nat, skip: Option<UserKey>)
    requires Sorted(run) && Scanning(run, s, n, start, skip) && n < |run| && !Yields(run[n], s, skip)
    ensures Scanning(run, s, n + 1, start, NextSkip(run[n], s, skip))
  {
    var next := NextSkip(run[n], s, skip);
    if start <= n {
      forall j | n < j < |run| ensures Before(run[n].key, run[j].key) {
      }
      assert !Visible(run, s, n);
    } else {
      assert next == skip;
    }
  }

  lemma ScanEnd(run: seq<Entry>, s: nat, start: nat, skip: Option<UserKey>)
    requires Scanning(run, s, |run|, start, skip)
    ensures |Visibles(run, s, start)| == |VisibleList(run, s)|
  {
  }

  /** The underlying position p stands just before the entries of user key k, apart from entries too new for
      the snapshot. */
  ghost predicate BeforeKey(run: seq<Entry>, s: nat, p: nat, k: UserKey) {
    && p <= |run|
    && (forall j :: 0 <= j < p ==> run[j].key.user < k)
    && (forall j :: p <= j < |run| && run[j].key.user < k ==> run[j].key.sequence > s)
  }

  /** To leave visible entry m, scan from there, or from just before its key, skipping that key. */
  lemma ScanAfter(run: seq<Entry>, s: nat, n: nat, m: nat)
    requires Sorted(run) && m < |run| && Visible(run, s, m)
    requires n == m || BeforeKey(run, s, n, run[m].key.user)
    ensures n <= m && Scanning(run, s, n, m + 1, Some(run[m].key.user))
    ensures |Visibles(run, s, m + 1)| == |Visibles(run, s, m)| + 1
  {
  }

  /** The backward scan has processed the entries from p up to stop; the last one in view was m. */
  ghost predicate BackScan(run: seq<Entry>, s: nat, p: nat, stop: nat, m: Option<nat>) {
    && p <= stop <= |run|
    && (m.None? ==> forall j :: p <= j < stop ==> run[j].key.sequence > s)
    && (m.Some? ==>
          && p <= m.value < stop && run[m.value].key.sequence <= s
          && (forall j :: p <= j < m.value ==> run[j].key.sequence > s)
          && (forall j :: m.value < j < stop ==> !Visible(run, s, j)))
  }

  /** The scan stops in front of entry p - 1 when it holds a value and that entry is in view with a smaller key. */
  ghost predicate BackStops(run: seq<Entry>, s: nat, p: nat, m: Option<nat>) {
    && m.Some? && m.value < |run| && run[m.value].key.kind.TypeValue?
    && 0 < p <= |run| && run[p - 1].key.sequence <= s && run[p - 1].key.user < run[m.value].key.user
  }

  lemma BackStart(run: seq<Entry>, s: nat, stop: nat)
    requires stop <= |run|
    ensures BackScan(run, s, stop, stop, None)
  {
  }

  lemma BackStep(run: seq<Entry>, s: nat, p: nat, stop: nat, m: Option<nat>)
    requires Sorted(run) && BackScan(run, s, p, stop, m) && p > 0 && !BackStops(run, s, p, m)
    ensures BackScan(run, s, p - 1, stop, if run[p - 1].key.sequence <= s then Some(p - 1) else m)
  {
  }

  lemma BackFound(run: seq<Entry>, s: nat, p: nat, stop: nat, m: Option<nat>)
    requires Sorted(run) && BackScan(run, s, p, stop, m) && (p == 0 || BackStops(run, s, p, m))
    requires m.Some? && run[m.value].key.kind.TypeValue?
    ensures Visible(run, s, m.value) && BeforeKey(run, s, p, run[m.value].key.user)
  {
  }

  lemma BackEnd(run: seq<Entry>, s: nat, p: nat, stop: nat, m: Option<nat>)
    requires Sorted(run) && BackScan(run, s, p, stop, m) && (p == 0 || BackStops(run, s, p, m))
    ensures m.Some? && run[m.value].key.kind.TypeValue? ==>
              && Visible(run, s, m.value)
              && BeforeKey(run, s, p, run[m.value].key.user)
              && Visibles(run, s, m.value) == Visibles(run, s, p)
              && |Visibles(run, s, stop)| == |Visibles(run, s, p)| + 1
              && |Visibles(run, s, p)| < |VisibleList(run, s)|
              && VisibleList(run, s)[|Visibles(run, s, p)|] == run[m.value]
    ensures !(m.Some? && run[m.value].key.kind.TypeValue?) ==> |Visibles(run, s, stop)| == 0
  {
    if m.Some? && run[m.value].key.kind.TypeValue? {
      BackFound(run, s, p, stop, m);
      VisibleRank(run, s, m.value);
      NothingVisible(run, s, m.value + 1, stop);
      NothingVisible(run, s, p, m.value);
    } else {
      forall j | 0 <= j < stop ensures !Visible(run, s, j) {
        assert m.Some? ==> !Visible(run, s, m.value);
      }
      NothingVisible(run, s, 0, stop);
    }
  }

  /** Entries of the same user key in front of a visible entry are not visible. */
  lemma SameKeyBefore(run: seq<Entry>, s: nat, p: nat, m: nat)
    requires Sorted(run) && p <= m < |run| && Visible(run, s, m)
    requires forall j :: p <= j < m ==> run[j].key.user == run[m].key.user
    ensures Visibles(run, s, p) == Visibles(run, s, m)
  {
    NothingVisible(run, s, p, m);
  }

  lemma NoneVisible(run: seq<Entry>, s: nat)
    ensures Visibles(run, s, 0) == []
  {
  }

  lemma SortedUsers(run: seq<Entry>, i: nat, j: nat)
    requires Sorted(run) && i <= j < |run|
    ensures run[i].key.user <= run[j].key.user
  {
  }

  lemma ScanFrom(run: seq<Entry>, s: nat, n: nat, target: UserKey)
    requires Sorted(run) && n <= |run| && (n == 0 || n == LowerBound(run, SeekKey(target, s)))
    ensures Scanning(run, s, n, n, None)
  {
  }

  /** The position found by a seek separates the keys below the target from the others. */
  lemma SeekRank(run: seq<Entry>, s: nat, target: UserKey)
    requires Sorted(run)
    ensures var list := VisibleList(run, s);
            var r := |Visibles(run, s, LowerBound(run, SeekKey(target, s)))|;
            && r <= |list|
            && (forall p :: 0 <= p < r ==> list[p].key.user < target)
            && (forall p :: r <= p < |list| ==> target <= list[p].key.user)
  {
    var list := VisibleList(run, s);
    var n := LowerBound(run, SeekKey(target, s));
    VisiblePrefix(run, s, n, |run|);
    forall p | 0 <= p < |list|
      ensures p < |Visibles(run, s, n)| ==> list[p].key.user < target
      ensures p >= |Visibles(run, s, n)| ==> target <= list[p].key.user
    {
      var m := FindVisible(run, s, |run|, p);
      if m < n {
        VisiblePrefix(run, s, m + 1, n);
        assert Before(run[m].key, SeekKey(target, s));
      } else {
        VisiblePrefix(run, s, n, m);
        assert !Before(run[m].key, SeekKey(target, s));
      }
    }
  }

  // ----- Entries newer than the snapshot

  lemma {:induction false} VisiblesOfPrefix(run: seq<Entry>, more: seq<Entry>, s: nat, n: nat)
    requires n <= |run| && run <= more
    ensures Visibles(more, s, n) == Visibles(run, s, n)
  {
    if n > 0 {
      VisiblesOfPrefix(run, more, s, n - 1);
    }
  }

  /** They do not matter: the list of the entries in view is the list of all entries. */
  lemma {:induction false} VisibleListInView(run: seq<Entry>, s: nat, n: nat)
    requires n <= |run|
    ensures VisibleList(InView(run, s, n), s) == Visibles(run, s, n)
  {
    hide Visible;
    if n > 0 {
      VisibleListInView(run, s, n - 1);
      var seen := InView(run, s, n - 1);
      if run[n - 1].key.sequence <= s {
        VisiblesOfPrefix(seen, InView(run, s, n), s, |seen|);
        LastInView(run, s, n - 1);
      } else {
        NotVisible(run, s, n - 1);
        assert InView(run, s, n) == seen;
      }
    }
  }

  lemma NotVisible(run: seq<Entry>, s: nat, i: nat)
    requires i < |run| && run[i].key.sequence > s
    ensures !Visible(run, s, i)
  {
  }

  lemma LastInView(run: seq<Entry>, s: nat, i: nat)
    requires i < |run| && run[i].key.sequence <= s
    ensures var seen := InView(run, s, i);
            InView(run, s, i + 1) == seen + [run[i]] && (Visible(seen + [run[i]], s, |seen|) <==> Visible(run, s, i))
  {
    var seen := InView(run, s, i);
    forall j | 0 <= j < i && run[j].key.sequence <= s ensures run[j] in seen {
      InViewMember(run, s, i, run[j]);
    }
    forall j | 0 <= j < |seen| ensures seen[j].key.sequence <= s && seen[j] in run[..i] {
      InViewMember(run, s, i, seen[j]);
    }
    var both := seen + [run[i]];
    assert forall j :: 0 <= j < |seen| ==> both[j] == seen[j];
  }

  lemma FindVisible(run: seq<Entry>, s: nat, n: nat, p: nat) returns (m: nat)
    requires n <= |run| && p < |Visibles(run, s, n)|
    ensures m < n && Visible(run, s, m) && |Visibles(run, s, m)| == p && Visibles(run, s, n)[p] == run[m]
  {
    if p < |Visibles(run, s, n - 1)| {
      m := FindVisible(run, s, n - 1, p);
    } else {
      m := n - 1;
    }
  }

  lemma RankGrows(run: seq<Entry>, s: nat, a: nat, b: nat)
    requires a < b <= |run| && Visible(run, s, a)
    ensures |Visibles(run, s, a)| < |Visibles(run, s, b)|
  {
  }

  lemma SameRank(run: seq<Entry>, s: nat, a: nat, b: nat)
    requires a < |run| && b < |run| && Visible(run, s, a) && Visible(run, s, b)
    requires |Visibles(run, s, a)| == |Visibles(run, s, b)|
    ensures a == b
  {
    if a < b {
      RankGrows(run, s, a, b);
    } else if b < a {
      RankGrows(run, s, b, a);
    }
  }

  class DBIter {
    const iter: MergingIterator
    const snapshot: nat
    var savedKey: Option<UserKey>
    var savedValue: Bytes
    var direction: Direction
    var valid: bool

    // The abstract cursor: a position in the list of visible entries, |list| when not valid.
    ghost var list: seq<Entry>
    ghost var pos: nat

    ghost predicate Iterates()
      reads this, iter, iter.children
    {
      iter.Valid() && iter.snapshot == snapshot && list == VisibleList(iter.all, snapshot)
    }

    ghost predicate Valid()
      reads this, iter, iter.children
    {
      && Iterates() && pos <= |list|
      && (valid <==> pos < |list|)
      && (valid && direction.Forward? ==>
            && iter.Shown() && iter.direction.Forward? && Visible(iter.all, snapshot, iter.at)
            && |Visibles(iter.all, snapshot, iter.at)| == pos)
      && (valid && direction.Reverse? ==>
            && (iter.OnEntry() ==> iter.Shown() && iter.direction.Reverse?)
            && savedKey == Some(list[pos].key.user) && savedValue == list[pos].value
            && BeforeKey(iter.all, snapshot, iter.Past(), list[pos].key.user)
            && |Visibles(iter.all, snapshot, iter.Past())| == pos)
    }

    constructor (iter: MergingIterator, snapshot: nat)
      requires iter.Valid() && iter.snapshot == snapshot
      ensures Valid() && !valid
      ensures this.iter == iter && this.snapshot == snapshot
    {
      this.iter := iter;
      this.snapshot := snapshot;
      savedKey := None;
      savedValue := [];
      direction := Forward;
      valid := false;
      list := VisibleList(iter.all, snapshot);
      pos := |VisibleList(iter.all, snapshot)|;
    }

    function Key(): (k: UserKey)
      requires Valid() && valid
      reads this, iter, iter.children
      ensures k == list[pos].key.user
    {
      if direction.Forward? then VisibleAt(); iter.Current().key.user else savedKey.value
    }

    function Value(): (v: Bytes)
      requires Valid() && valid
      reads this, iter, iter.children
      ensures v == list[pos].value
    {
      if direction.Forward? then VisibleAt(); iter.Current().value else savedValue
    }

    lemma VisibleAt()
      requires Valid() && valid && direction.Forward?
      ensures iter.OnEntry() && list[pos] == iter.Current()
    {
      VisibleRank(iter.all, snapshot, iter.at);
    }

    method FindNextUserEntry(skipping: bool, ghost start: nat)
      requires Iterates() && iter.OnEntry() && iter.direction.Forward? && direction.Forward?
      requires skipping ==> savedKey.Some?
      requires start <= |iter.all|
      requires Scanning(iter.all, snapshot, iter.at, start, if skipping then savedKey else None)
      modifies this, iter, iter.children
      ensures Valid() && list == old(list) && pos == |Visibles(iter.all, snapshot, start)|
    {
      hide Scanning, Visible, Sorted, MergingIterator.Valid;
      var skip := if skipping then savedKey else None;
      ghost var all, s := iter.all, snapshot;
      while iter.OnEntry()
        invariant Iterates() && iter.direction.Forward? && direction.Forward? && list == old(list)
        invariant Scanning(all, s, iter.at, start, skip)
        decreases iter.Left()
      {
        iter.Facts();
        var e := iter.Current();
        if Yields(e, snapshot, skip) {
          ScanFound(all, s, iter.at, start, skip);
          valid := true;
          savedKey := None;
          pos := |Visibles(all, s, iter.at)|;
          return;
        }
        if iter.Shown() {
          ScanStep(all, s, iter.at, start, skip);
        }
        if e.key.sequence <= snapshot && e.key.kind.TypeDeletion? {
          // The tombstone stands before everything it hides.
          skip := Some(e.key.user);
        }
        iter.Next();
      }
      iter.Facts();
      ScanEnd(all, s, start, skip);
      savedKey := None;
      valid := false;
      pos := |list|;
    }

    method Next()
      requires Valid() && valid
      modifies this, iter, iter.children
      ensures Valid() && list == old(list) && pos == old(pos) + 1
    {
      hide Scanning, Visible, Sorted, BeforeKey, MergingIterator.Valid;
      iter.Facts();
      ghost var m := Current();
      ScanAfter(iter.all, snapshot, if direction.Forward? then iter.at else iter.Past(), m);
      if direction.Reverse? {
        direction := Forward;
        if !iter.OnEntry() {
          iter.SeekToFirst();
        } else {
          iter.Next();
        }
        if !iter.OnEntry() {
          iter.Facts();
          assert false;  // the entries of key() lie ahead
        }
      } else {
        savedKey := Some(iter.Current().key.user);
      }
      FindNextUserEntry(true, m + 1);
    }

    lemma Current() returns (m: nat)
      requires Valid() && valid
      ensures m < |iter.all| && Visible(iter.all, snapshot, m) && |Visibles(iter.all, snapshot, m)| == pos
      ensures iter.all[m] == list[pos]
      ensures direction.Forward? ==> m == iter.at
    {
      m := FindVisible(iter.all, snapshot, |iter.all|, pos);
      if direction.Forward? {
        SameRank(iter.all, snapshot, iter.at, m);
      }
    }

    /** The backward scan has come from stop to the current position; m is the last entry in view that it passed, whose
        key and value are saved unless it is a tombstone. */
    ghost predicate ScansBack(stop: nat, m: Option<nat>, valueType: ValueType)
      reads this, iter, iter.children
    {
      && Iterates() && direction.Reverse? && (iter.OnEntry() ==> iter.direction.Reverse?)
      && iter.Past() <= |iter.all| && BackScan(iter.all, snapshot, iter.Past(), stop, m)
      && (m.Some? ==> m.value < |iter.all| && valueType == iter.all[m.value].key.kind)
      && (m.None? ==> valueType.TypeDeletion?)
      && (valueType.TypeValue? ==>
            savedKey == Some(iter.all[m.value].key.user) && savedValue == iter.all[m.value].value)
    }

    method FindPrevUserEntry()
      requires Iterates() && direction.Reverse? && (iter.OnEntry() ==> iter.direction.Reverse?)
      modifies this, iter, iter.children
      ensures Valid() && list == old(list)
      ensures var r := |Visibles(iter.all, snapshot, old(iter.Past()))|;
              pos == if r == 0 then |list| else r - 1
    {
      hide BackScan, Visible, Visibles, VisibleList, Sorted, BeforeKey, MergingIterator.Valid, MergingIterator.Right;
      iter.Facts();
      var valueType := TypeDeletion;
      ghost var all, s, stop := iter.all, snapshot, iter.Past();
      ghost var m: Option<nat> := None;
      BackStart(all, s, stop);
      while iter.OnEntry()
        invariant ScansBack(stop, m, valueType) && list == old(list)
        decreases iter.OnEntry(), iter.Right()
      {
        iter.Facts();
        var e := iter.Current();
        if e.key.sequence <= snapshot && valueType.TypeValue? && e.key.user < savedKey.value {
          // A value in view for a previous key: the saved one is the newest of its key.
          break;
        }
        valueType, m := PassEntry(stop, m, valueType);
      }
      iter.Facts();
      BackEnd(all, s, iter.Past(), stop, m);
      if valueType.TypeDeletion? {
        valid := false;
        savedKey := None;
        savedValue := [];
        direction := Forward;
        pos := |list|;
      } else {
        valid := true;
        pos := |Visibles(all, s, iter.Past())|;
      }
    }

    /** One round of the backward scan: an entry in view is kept, a tombstone forgets what was kept. */
    method PassEntry(ghost stop: nat, ghost m: Option<nat>, valueType: ValueType)
      returns (valueType': ValueType, ghost m': Option<nat>)
      requires ScansBack(stop, m, valueType) && iter.OnEntry()
      requires !(iter.Shown() && BackStops(iter.all, snapshot, iter.Past(), m))
      modifies this, iter, iter.children
      ensures ScansBack(stop, m', valueType') && list == old(list) && iter.Right() < old(iter.Right())
    {
      hide BackScan, VisibleList, Sorted, MergingIterator.Valid, MergingIterator.Right;
      iter.Facts();
      var e := iter.Current();
      valueType', m' := valueType, m;
      if iter.Shown() {
        BackStep(iter.all, snapshot, iter.Past(), stop, m);
      }
      if e.key.sequence <= snapshot {
        valueType', m' := e.key.kind, Some(iter.at);
        if valueType'.TypeDeletion? {
          savedKey := None;
          savedValue := [];
        } else {
          savedKey := Some(e.key.user);
          savedValue := e.value;
        }
      }
      iter.Prev();
      iter.Facts();
    }

    method Prev()
      requires Valid() && valid
      modifies this, iter, iter.children
      ensures Valid() && list == old(list)
      ensures pos == if old(pos) == 0 then |list| else old(pos) - 1
    {
      hide Visible, Visibles, VisibleList, Sorted, BeforeKey, MergingIterator.Valid, MergingIterator.Right;
      if direction.Forward? {
        iter.Facts();
        ghost var all, m := iter.all, iter.at;
        savedKey := Some(iter.Current().key.user);
        BackToPreviousKey(m);
        SameKeyBefore(all, snapshot, iter.Past(), m);
        NoneVisible(all, snapshot);
        if !iter.OnEntry() {
          valid := false;
          savedKey := None;
          savedValue := [];
          pos := |list|;
          return;
        }
        direction := Reverse;
      }
      FindPrevUserEntry();
    }

    /** Back over the entries of the current key. */
    method BackToPreviousKey(ghost m: nat)
      requires Iterates() && iter.Shown() && iter.at == m < |iter.all| && savedKey == Some(iter.all[m].key.user)
      modifies iter, iter.children
      ensures Iterates() && iter.direction.Reverse? && iter.Past() <= m
      ensures forall j :: iter.Past() <= j <= m ==> iter.all[j].key.user == iter.all[m].key.user
    {
      hide VisibleList, Sorted, MergingIterator.Valid, MergingIterator.Right;
      ghost var all := iter.all;
      while true
        invariant Iterates() && iter.OnEntry() && iter.at <= m
        invariant iter.direction.Reverse? || iter.Shown()
        invariant iter.Shown() ==> all[iter.at].key.user == all[m].key.user
        invariant forall j :: iter.Past() <= j <= m ==> all[j].key.user == all[m].key.user
        decreases iter.direction.Forward?, iter.Right()
      {
        iter.Prev();
        iter.Facts();
        if !iter.OnEntry() || iter.Current().key.user < savedKey.value {
          return;
        }
        if iter.Shown() {
          SortedUsers(all, iter.at, m);
        }
      }
    }

    method Seek(target: UserKey)
      requires Valid()
      modifies this, iter, iter.children
      ensures Valid() && list == old(list)
      ensures forall p :: 0 <= p < pos ==> list[p].key.user < target
      ensures forall p :: pos <= p < |list| ==> target <= list[p].key.user
    {
      hide Scanning, Visible, Sorted, MergingIterator.Valid;
      direction := Forward;
      savedValue := [];
      savedKey := None;
      iter.Seek(SeekKey(target, snapshot));
      iter.Facts();
      SeekRank(iter.all, snapshot, target);
      if iter.OnEntry() {
        ScanFrom(iter.all, snapshot, iter.at, target);
        FindNextUserEntry(false, iter.at);
      } else {
        valid := false;
        pos := |list|;
      }
    }

    method SeekToFirst()
      requires Valid()
      modifies this, iter, iter.children
      ensures Valid() && list == old(list) && pos == 0
    {
      hide Scanning, Visible, Sorted, MergingIterator.Valid;
      direction := Forward;
      savedValue := [];
      iter.SeekToFirst();
      iter.Facts();
      if iter.OnEntry() {
        ScanFrom(iter.all, snapshot, 0, 0.0);
        FindNextUserEntry(false, 0);
      } else {
        valid := false;
        pos := |list|;
      }
    }

    method SeekToLast()
      requires Valid()
      modifies this, iter, iter.children
      ensures Valid() && list == old(list)
      ensures pos == if |list| == 0 then 0 else |list| - 1
    {
      hide Visible, Sorted, BeforeKey, MergingIterator.Valid;
      direction := Reverse;
      savedValue := [];
      iter.SeekToLast();
      FindPrevUserEntry();
    }

    /** Other threads write between two calls, as they may inside of each; what the iterator shows stays the same. */
    method ConcurrentInsert(c: nat, e: Entry)
      requires Valid() && c < |iter.children|
      requires snapshot < e.key.sequence <= MAX_SEQUENCE && iter.children[c].writes > 0
      modifies iter.children[c]
      ensures Valid() && list == old(list) && pos == old(pos) && valid == old(valid)
      ensures valid ==> Key() == old(list[pos].key.user) && Value() == old(list[pos].value)
    {
      hide Visible, Sorted, BeforeKey, MergingIterator.Valid;
      iter.ConcurrentInsert(c, e);
    }
  }
}
