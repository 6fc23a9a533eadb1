/** version_set.cc, second part: choosing the files of a compaction. */
module CompactionInputs {
  import opened Keys
  import opened Versions

  // ----- GetOverlappingInputs

  /** The files among the first n that meet the range of user keys, in order. */
  function Selected(files: seq<File>, n: nat, begin: Option<UserKey>, end: Option<UserKey>): (r: seq<File>)
    requires n <= |files|
    ensures |r| <= n
  {
    if n == 0 then []
    else
      Selected(files, n - 1, begin, end) + if Overlaps(files[n - 1], begin, end) then [files[n - 1]] else []
  }

  lemma {:induction false} SelectedMember(files: seq<File>, n: nat, begin: Option<UserKey>, end: Option<UserKey>,
                                          f: File)
    requires n <= |files|
    ensures f in Selected(files, n, begin, end) <==> f in files[..n] && Overlaps(f, begin, end)
  {
    if n > 0 {
      SelectedMember(files, n - 1, begin, end, f);
      assert files[..n] == files[..n - 1] + [files[n - 1]];
    }
  }

  /** T holds every file that meets the range and every file that meets a file of T. */
  ghost predicate ClosedUnderOverlap(files: seq<File>, begin: Option<UserKey>, end: Option<UserKey>, T: set<File>) {
    && (forall f :: f in files && Overlaps(f, begin, end) ==> f in T)
    && (forall f, g :: f in files && g in T && Overlaps(f, Some(g.Smallest().user), Some(g.Largest().user)) ==> f in T)
  }

  /** The files starting below begin plus those ending above end: what a range can still grow by. */
  function Outside(files: seq<File>, begin: Option<UserKey>, end: Option<UserKey>): nat {
    if files == [] then 0
    else
      Outside(files[1..], begin, end)
      + (if BeforeStart(files[0], begin) then 1 else 0)
      + (if AfterEnd(files[0], end) then 1 else 0)
  }

  predicate BeforeStart(f: File, begin: Option<UserKey>) {
    begin.Some? && f.Smallest().user < begin.value
  }

  predicate AfterEnd(f: File, end: Option<UserKey>) {
    end.Some? && f.Largest().user > end.value
  }

  /** A range that contains another. */
  predicate Wider(begin: Option<UserKey>, end: Option<UserKey>, begin': Option<UserKey>, end': Option<UserKey>) {
    && (begin'.Some? <==> begin.Some?) && (end'.Some? <==> end.Some?)
    && (begin.Some? ==> begin'.value <= begin.value)
    && (end.Some? ==> end.value <= end'.value)
  }

  /** Widening the range to take in a file that stuck out of it leaves less outside. */
  lemma {:induction false} OutsideShrinks(files: seq<File>, begin: Option<UserKey>, end: Option<UserKey>, f: File,
                                          begin': Option<UserKey>, end': Option<UserKey>)
    requires || (BeforeStart(f, begin) && begin' == Some(f.Smallest().user) && end' == end)
             || (AfterEnd(f, end) && begin' == begin && end' == Some(f.Largest().user))
    ensures Outside(files, begin', end') <= Outside(files, begin, end)
    ensures f in files ==> Outside(files, begin', end') < Outside(files, begin, end)
  {
    if files != [] {
      OutsideShrinks(files[1..], begin, end, f, begin', end');
      assert files == [files[0]] + files[1..];
    }
  }

  /** Every closed set of files holds all files that meet the range. */
  ghost predicate Forced(files: seq<File>, begin: Option<UserKey>, end: Option<UserKey>, lo: Option<UserKey>,
                         hi: Option<UserKey>) {
    forall T, g :: ClosedUnderOverlap(files, begin, end, T) && g in files && Overlaps(g, lo, hi) ==> g in T
  }

  lemma ForcedStart(files: seq<File>, begin: Option<UserKey>, end: Option<UserKey>)
    ensures Forced(files, begin, end, begin, end)
  {
  }

  lemma ForcedMember(files: seq<File>, begin: Option<UserKey>, end: Option<UserKey>, lo: Option<UserKey>,
                     hi: Option<UserKey>, T: set<File>, f: File)
    requires Forced(files, begin, end, lo, hi) && ClosedUnderOverlap(files, begin, end, T)
    requires f in Selected(files, |files|, lo, hi)
    ensures f in T
  {
    SelectedMember(files, |files|, lo, hi, f);
  }

  lemma ForcedGrows(files: seq<File>, begin: Option<UserKey>, end: Option<UserKey>, lo: Option<UserKey>,
                    hi: Option<UserKey>, f: File, lo': Option<UserKey>, hi': Option<UserKey>)
    requires Forced(files, begin, end, lo, hi) && f in files && Overlaps(f, lo, hi)
    requires lo' == lo || (BeforeStart(f, lo) && lo' == Some(f.Smallest().user))
    requires hi' == hi || (AfterEnd(f, hi) && hi' == Some(f.Largest().user))
    ensures Forced(files, begin, end, lo', hi')
  {
  }

  lemma SelectedClosed(files: seq<File>, begin: Option<UserKey>, end: Option<UserKey>, lo: Option<UserKey>,
                       hi: Option<UserKey>)
    requires Wider(begin, end, lo, hi)
    requires forall f :: f in Selected(files, |files|, lo, hi) ==> !BeforeStart(f, lo) && !AfterEnd(f, hi)
    ensures ClosedUnderOverlap(files, begin, end, set f | f in Selected(files, |files|, lo, hi))
  {
    hide GoodTable, Selected, BeforeStart, AfterEnd, Overlaps;
    var inputs := Selected(files, |files|, lo, hi);
    forall f: File | f in files ensures f in inputs <==> Overlaps(f, lo, hi) {
      SelectedMember(files, |files|, lo, hi, f);
      assert files[..|files|] == files;
    }
    forall f: File | f in files && Overlaps(f, begin, end) ensures f in inputs {
      OverlapsWider(f, begin, end, lo, hi);
    }
    forall f: File, g: File | f in files && g in inputs && Overlaps(f, Some(g.Smallest().user), Some(g.Largest().user))
      ensures f in inputs
    {
      InsideOverlaps(f, g, lo, hi);
    }
  }

  lemma OverlapsWider(f: File, begin: Option<UserKey>, end: Option<UserKey>, lo: Option<UserKey>, hi: Option<UserKey>)
    requires Wider(begin, end, lo, hi) && Overlaps(f, begin, end)
    ensures Overlaps(f, lo, hi)
  {
  }

  lemma InsideOverlaps(f: File, g: File, lo: Option<UserKey>, hi: Option<UserKey>)
    requires !BeforeStart(g, lo) && !AfterEnd(g, hi) && Overlaps(f, Some(g.Smallest().user), Some(g.Largest().user))
    ensures Overlaps(f, lo, hi)
  {
  }

  /** The least set of files that holds every file meeting the range and every file meeting one of its own. */
  ghost predicate LeastClosed(files: seq<File>, begin: Option<UserKey>, end: Option<UserKey>, picked: seq<File>) {
    && ClosedUnderOverlap(files, begin, end, FileSet(picked))
    && forall T, f :: ClosedUnderOverlap(files, begin, end, T) && f in picked ==> f in T
  }

  ghost function FileSet(picked: seq<File>): set<File> {
    set f | f in picked
  }

  /** Store all files of a level that meet the range.  On level 0, whose files may meet each other, the range
      grows to the hull of what was found and the search starts again. */
  method GetOverlappingInputs(files: seq<File>, level: nat, begin: Option<UserKey>, end: Option<UserKey>)
    returns (inputs: seq<File>, ghost lo: Option<UserKey>, ghost hi: Option<UserKey>)
    ensures Wider(begin, end, lo, hi) && inputs == Selected(files, |files|, lo, hi)
    ensures level > 0 ==> lo == begin && hi == end
    ensures level == 0 ==> forall f :: f in inputs ==> !BeforeStart(f, lo) && !AfterEnd(f, hi)
    ensures level == 0 ==> LeastClosed(files, begin, end, inputs)
  {
    hide Forced, ClosedUnderOverlap, Outside;
    ForcedStart(files, begin, end);
    inputs := [];
    var userBegin, userEnd := begin, end;
    var i := 0;
    while i < |files|
      invariant i <= |files| && Wider(begin, end, userBegin, userEnd)
      invariant inputs == Selected(files, i, userBegin, userEnd)
      invariant level > 0 ==> userBegin == begin && userEnd == end
      invariant level == 0 ==> forall j :: 0 <= j < i && Overlaps(files[j], userBegin, userEnd)
                                           ==> !BeforeStart(files[j], userBegin) && !AfterEnd(files[j], userEnd)
      invariant Forced(files, begin, end, userBegin, userEnd)
      decreases Outside(files, userBegin, userEnd), |files| - i
    {
      var f := files[i];
      i := i + 1;
      if userBegin.Some? && f.Largest().user < userBegin.value {
        // ends before the range starts
      } else if userEnd.Some? && f.Smallest().user > userEnd.value {
        // starts behind the end of the range
      } else {
        inputs := inputs + [f];
        if level == 0 {
          // A file that sticks out widens the range, and the search starts again.
          if userBegin.Some? && f.Smallest().user < userBegin.value {
            OutsideShrinks(files, userBegin, userEnd, f, Some(f.Smallest().user), userEnd);
            ForcedGrows(files, begin, end, userBegin, userEnd, f, Some(f.Smallest().user), userEnd);
            userBegin := Some(f.Smallest().user);
            inputs := [];
            i := 0;
          } else if userEnd.Some? && f.Largest().user > userEnd.value {
            OutsideShrinks(files, userBegin, userEnd, f, userBegin, Some(f.Largest().user));
            ForcedGrows(files, begin, end, userBegin, userEnd, f, userBegin, Some(f.Largest().user));
            userEnd := Some(f.Largest().user);
            inputs := [];
            i := 0;
          }
        }
      }
    }
    lo, hi := userBegin, userEnd;
    forall f | f in inputs
      ensures f in files && Overlaps(f, lo, hi)
      ensures level == 0 ==> !BeforeStart(f, lo) && !AfterEnd(f, hi)
    {
      SelectedMember(files, |files|, lo, hi, f);
      assert files[..|files|] == files;
    }
    if level == 0 {
      SelectedClosed(files, begin, end, lo, hi);
    }
    forall T, f | ClosedUnderOverlap(files, begin, end, T) && f in inputs ensures f in T {
      ForcedMember(files, begin, end, lo, hi, T, f);
    }
  }

  // ----- Ranges of keys

  /** The least smallest key and the greatest largest key of some files. */
  ghost predicate IsHull(inputs: seq<File>, smallest: IKey, largest: IKey) {
    && (forall i :: 0 <= i < |inputs| ==>
            !Before(inputs[i].Smallest(), smallest) && !Before(largest, inputs[i].Largest()))
    && (exists i :: 0 <= i < |inputs| && inputs[i].Smallest() == smallest)
    && (exists i :: 0 <= i < |inputs| && inputs[i].Largest() == largest)
  }

  method GetRange(inputs: seq<File>) returns (smallest: IKey, largest: IKey)
    requires inputs != []
    ensures IsHull(inputs, smallest, largest)
  {
    hide GoodTable, IsHull, Before;
    smallest, largest := inputs[0].Smallest(), inputs[0].Largest();
    HullOne(inputs[..1]);
    for i := 1 to |inputs|
      invariant IsHull(inputs[..i], smallest, largest)
    {
      assert inputs[..i + 1] == inputs[..i] + [inputs[i]];
      ghost var s, l := smallest, largest;
      if Before(inputs[i].Smallest(), smallest) {
        smallest := inputs[i].Smallest();
      }
      if Before(largest, inputs[i].Largest()) {
        largest := inputs[i].Largest();
      }
      HullStep(inputs[..i], inputs[i], s, l);
    }
    assert inputs[..|inputs|] == inputs;
  }

  lemma HullOne(inputs: seq<File>)
    requires |inputs| == 1
    ensures IsHull(inputs, inputs[0].Smallest(), inputs[0].Largest())
  {
  }

  lemma HullStep(inputs: seq<File>, f: File, s: IKey, l: IKey)
    requires IsHull(inputs, s, l)
    ensures IsHull(inputs + [f], if Before(f.Smallest(), s) then f.Smallest() else s,
                   if Before(l, f.Largest()) then f.Largest() else l)
  {
    var all := inputs + [f];
    assert forall i :: 0 <= i < |inputs| ==> all[i] == inputs[i];
    var a :| 0 <= a < |inputs| && inputs[a].Smallest() == s;
    var b :| 0 <= b < |inputs| && inputs[b].Largest() == l;
    assert all[a].Smallest() == s && all[b].Largest() == l && all[|inputs|] == f;
  }

  // ----- AddBoundaryInputs

  predicate IsBoundary(f: File, key: IKey) {
    Before(key, f.Smallest()) && f.Smallest().user == key.user
  }

  /** The first file with the least smallest key among the boundary files. */
  function Boundary(levelFiles: seq<File>, key: IKey): (r: Option<File>)
    ensures r.Some? ==> r.value in levelFiles && IsBoundary(r.value, key)
                        && forall f <- levelFiles :: IsBoundary(f, key) ==> !Before(f.Smallest(), r.value.Smallest())
    ensures r.None? ==> forall f <- levelFiles :: !IsBoundary(f, key)
  {
    if levelFiles == [] then None
    else
      var n := |levelFiles| - 1;
      assert levelFiles == levelFiles[..n] + [levelFiles[n]];
      var best := Boundary(levelFiles[..n], key);
      if IsBoundary(levelFiles[n], key) && (best.None? || Before(levelFiles[n].Smallest(), best.value.Smallest()))
      then Some(levelFiles[n]) else best
  }

  /** Finds the minimum file that starts after the given key with the same user key. */
  method FindSmallestBoundaryFile(levelFiles: seq<File>, key: IKey) returns (smallest: Option<File>)
    ensures smallest == Boundary(levelFiles, key)
  {
    smallest := None;
    for i := 0 to |levelFiles|
      invariant smallest == Boundary(levelFiles[..i], key)
    {
      assert levelFiles[..i + 1][..i] == levelFiles[..i];
      var f := levelFiles[i];
      if Before(key, f.Smallest()) && f.Smallest().user == key.user {
        if smallest.None? || Before(f.Smallest(), smallest.value.Smallest()) {
          smallest := Some(f);
        }
      }
    }
    assert levelFiles[..|levelFiles|] == levelFiles;
  }

  /** The files that start after a key: what the search for boundary files has left. */
  function Remaining(levelFiles: seq<File>, key: IKey): nat {
    if levelFiles == [] then 0
    else Remaining(levelFiles[1..], key) + if Before(key, levelFiles[0].Smallest()) then 1 else 0
  }

  lemma {:induction false} RemainingShrinks(levelFiles: seq<File>, key: IKey, f: File)
    requires Before(key, f.Smallest())
    ensures Remaining(levelFiles, f.Largest()) <= Remaining(levelFiles, key)
    ensures f in levelFiles ==> Remaining(levelFiles, f.Largest()) < Remaining(levelFiles, key)
  {
    InFile(f, 0);
    if levelFiles != [] {
      RemainingShrinks(levelFiles[1..], key, f);
      assert levelFiles == [levelFiles[0]] + levelFiles[1..];
    }
  }

  /** The boundary files found from a key on. */
  function BoundaryChain(levelFiles: seq<File>, key: IKey): seq<File>
    decreases Remaining(levelFiles, key)
  {
    var b := Boundary(levelFiles, key);
    if b.None? then []
    else
      RemainingShrinks(levelFiles, key, b.value);
      [b.value] + BoundaryChain(levelFiles, b.value.Largest())
  }

  lemma ChainHead(levelFiles: seq<File>, key: IKey)
    ensures var b := Boundary(levelFiles, key);
            if b.None? then BoundaryChain(levelFiles, key) == []
            else
              && BoundaryChain(levelFiles, key) == [b.value] + BoundaryChain(levelFiles, b.value.Largest())
              && Remaining(levelFiles, b.value.Largest()) < Remaining(levelFiles, key)
  {
    var b := Boundary(levelFiles, key);
    if b.Some? {
      RemainingShrinks(levelFiles, key, b.value);
    }
  }

  /** Extends the files of a compaction by the boundary files that follow its largest key. */
  method AddBoundaryInputs(levelFiles: seq<File>, compactionFiles: seq<File>) returns (r: seq<File>)
    ensures compactionFiles == [] ==> r == []
    ensures compactionFiles != [] ==>
              exists s, l :: IsHull(compactionFiles, s, l) && r == compactionFiles + BoundaryChain(levelFiles, l)
  {
    hide GoodTable, Before, IsBoundary, Boundary, BoundaryChain, IsHull;
    r := compactionFiles;
    if r == [] {
      return;
    }
    var s, largestKey := GetRange(compactionFiles);
    ghost var l := largestKey;
    var continueSearching := true;
    while continueSearching
      invariant r + (if continueSearching then BoundaryChain(levelFiles, largestKey) else [])
                == compactionFiles + BoundaryChain(levelFiles, l)
      decreases continueSearching, Remaining(levelFiles, largestKey)
    {
      var b := FindSmallestBoundaryFile(levelFiles, largestKey);
      ChainHead(levelFiles, largestKey);
      if b.Some? {
        assert r + ([b.value] + BoundaryChain(levelFiles, b.value.Largest()))
               == r + [b.value] + BoundaryChain(levelFiles, b.value.Largest());
        r := r + [b.value];
        largestKey := b.value.Largest();
      } else {
        continueSearching := false;
      }
    }
  }

  // ----- Closed inputs

  /** The files that stay. */
  function Rest(files: seq<File>, inputs: seq<File>): seq<File> {
    if files == [] then []
    else
      var n := |files| - 1;
      Rest(files[..n], inputs) + if files[n] in inputs then [] else [files[n]]
  }

  lemma {:induction false} RestMember(files: seq<File>, inputs: seq<File>, f: File)
    ensures f in Rest(files, inputs) <==> f in files && f !in inputs
  {
    if files != [] {
      var n := |files| - 1;
      RestMember(files[..n], inputs, f);
      assert files == files[..n] + [files[n]];
    }
  }

  ghost predicate AllBefore(f: File, inputs: seq<File>) {
    forall g :: g in inputs ==> Before(f.Largest(), g.Smallest())
  }

  ghost predicate AllAfter(f: File, inputs: seq<File>) {
    forall g :: g in inputs ==> Before(g.Largest(), f.Smallest())
  }

  /** What a compaction of inputs0 at level and inputs1 at level + 1 needs: no file that stays at the level has an
      entry older than an input entry of the same user key, and no file that stays at the next level meets the
      hull of the inputs. */
  ghost predicate GoodInputs(files: seq<File>, next: seq<File>, inputs0: seq<File>, inputs1: seq<File>) {
    && inputs0 != []
    && (forall f :: f in inputs0 ==> f in files)
    && (forall f :: f in inputs1 ==> f in next)
    && Newer(FilesEntries(Rest(files, inputs0)), FilesEntries(inputs0))
    && (forall f :: f in next && f !in inputs1 ==> AllBefore(f, inputs0 + inputs1) || AllAfter(f, inputs0 + inputs1))
  }

  /** How a compaction starts: on level 0 with all files of a user-key range that none of them sticks out of, on
      other levels with a run of neighbouring files. */
  ghost predicate StartInputs(files: seq<File>, level: nat, inputs: seq<File>) {
    && inputs != []
    && (level == 0 ==> exists lo, hi :: ExactRange(files, inputs, lo, hi))
    && (level > 0 ==> exists a, c :: 0 <= a < c <= |files| && inputs == files[a..c])
  }

  ghost predicate ExactRange(files: seq<File>, inputs: seq<File>, lo: Option<UserKey>, hi: Option<UserKey>) {
    inputs == Selected(files, |files|, lo, hi) && forall f :: f in inputs ==> !BeforeStart(f, lo) && !AfterEnd(f, hi)
  }

  lemma UsersOrdered(files: seq<File>, i: nat, j: nat)
    requires SortedDisjoint(files) && i < j < |files|
    ensures files[i].Smallest().user <= files[i].Largest().user <= files[j].Smallest().user <= files[j].Largest().user
    ensures Before(files[i].Largest(), files[j].Smallest()) && Before(files[i].Smallest(), files[j].Smallest())
  {
  }

  /** Above level 0 the files that meet a range are neighbours. */
  lemma {:induction false} SelectedSlice(files: seq<File>, n: nat, begin: Option<UserKey>, end: Option<UserKey>)
    returns (a: nat, c: nat)
    requires SortedDisjoint(files) && n <= |files|
    ensures a <= c <= n && Selected(files, n, begin, end) == files[a..c]
    ensures forall i :: 0 <= i < a ==> AfterFile(begin, files[i])
    ensures forall i :: c <= i < n ==> BeforeFile(end, files[i])
  {
    hide GoodTable, SortedDisjoint, Sorted, Before, Selected;
    SelectedStep(files, n, begin, end);
    if n == 0 {
      assert files[0..0] == [];
      return 0, 0;
    }
    a, c := SelectedSlice(files, n - 1, begin, end);
    forall i | 0 <= i < n - 1
      ensures AfterFile(begin, files[n - 1]) ==> AfterFile(begin, files[i])
      ensures BeforeFile(end, files[i]) ==> BeforeFile(end, files[n - 1])
    {
      UsersOrdered(files, i, n - 1);
    }
    assert c < n - 1 ==> BeforeFile(end, files[c]);
    if AfterFile(begin, files[n - 1]) {
      SelectedNone(files, n - 1, begin, end);
      a, c := n, n;
      assert files[n..n] == [];
    } else if !BeforeFile(end, files[n - 1]) {
      c := n;
      SliceAppend(files, a, n - 1, []);
    }
  }

  lemma SelectedStep(files: seq<File>, n: nat, begin: Option<UserKey>, end: Option<UserKey>)
    requires n <= |files|
    ensures Selected(files, n, begin, end)
            == if n == 0 then []
               else if AfterFile(begin, files[n - 1]) || BeforeFile(end, files[n - 1]) then
                   Selected(files, n - 1, begin, end)
               else Selected(files, n - 1, begin, end) + [files[n - 1]]
  {
    hide GoodTable;
  }

  lemma {:induction false} SelectedNone(files: seq<File>, n: nat, begin: Option<UserKey>, end: Option<UserKey>)
    requires n <= |files| && forall i :: 0 <= i < n ==> AfterFile(begin, files[i])
    ensures Selected(files, n, begin, end) == []
  {
    if n > 0 {
      SelectedNone(files, n - 1, begin, end);
    }
  }

  lemma SelectedMeets(files: seq<File>, n: nat, begin: Option<UserKey>, end: Option<UserKey>)
    requires n <= |files|
    ensures forall f :: f in Selected(files, n, begin, end) ==> f in files && Overlaps(f, begin, end)
  {
  }

  /** In a sorted, disjoint level the chain from a run of neighbouring files extends that run, and ends where the
      next file starts with a larger user key. */
  lemma {:induction false} ChainExtends(files: seq<File>, a: nat, c: nat) returns (d: nat)
    requires SortedDisjoint(files) && a < c <= |files|
    ensures c <= d <= |files| && files[a..c] + BoundaryChain(files, files[c - 1].Largest()) == files[a..d]
    ensures d < |files| ==> files[d - 1].Largest().user < files[d].Smallest().user
    ensures forall i :: c <= i < d ==> files[i - 1].Largest().user == files[i].Smallest().user
    decreases |files| - c
  {
    hide GoodTable, SortedDisjoint, Sorted, Before, IsBoundary, Boundary, BoundaryChain;
    ChainStep(files, c);
    if c < |files| && files[c].Smallest().user == files[c - 1].Largest().user {
      d := ChainExtends(files, a, c + 1);
      SliceAppend(files, a, c, BoundaryChain(files, files[c].Largest()));
    } else {
      d := c;
    }
  }

  lemma ChainStep(files: seq<File>, c: nat)
    requires SortedDisjoint(files) && 0 < c <= |files|
    ensures BoundaryChain(files, files[c - 1].Largest())
            == if c < |files| && files[c].Smallest().user == files[c - 1].Largest().user
               then [files[c]] + BoundaryChain(files, files[c].Largest()) else []
    ensures c < |files| ==> files[c - 1].Largest().user <= files[c].Smallest().user
  {
    hide GoodTable, SortedDisjoint, Sorted, Before, IsBoundary, Boundary, BoundaryChain;
    BoundaryIsNext(files, c);
    ChainHead(files, files[c - 1].Largest());
    if c < |files| {
      UsersOrdered(files, c - 1, c);
    }
  }

  lemma SliceAppend(files: seq<File>, a: nat, c: nat, tail: seq<File>)
    requires a <= c < |files|
    ensures files[a..c] + ([files[c]] + tail) == files[a..c + 1] + tail
    ensures files[a..c] + [files[c]] == files[a..c + 1]
  {
  }

  lemma BoundaryIsNext(files: seq<File>, c: nat)
    requires SortedDisjoint(files) && 0 < c <= |files|
    ensures var key := files[c - 1].Largest();
            Boundary(files, key) == if c < |files| && files[c].Smallest().user == key.user then Some(files[c]) else None
  {
    hide GoodTable, SortedDisjoint, Sorted, Before, IsBoundary;
    var key := files[c - 1].Largest();
    var b := Boundary(files, key);
    if c < |files| {
      BoundaryNextFile(files, c);
      assert files[c] in files;
    }
    if b.Some? {
      var j :| 0 <= j < |files| && files[j] == b.value;
      BoundaryBehind(files, c, j);
    }
  }

  lemma BoundaryNextFile(files: seq<File>, c: nat)
    requires SortedDisjoint(files) && 0 < c < |files|
    ensures IsBoundary(files[c], files[c - 1].Largest()) <==> files[c].Smallest().user == files[c - 1].Largest().user
  {
  }

  lemma BoundaryBehind(files: seq<File>, c: nat, j: nat)
    requires SortedDisjoint(files) && 0 < c <= |files| && j < |files|
    ensures IsBoundary(files[j], files[c - 1].Largest()) ==> c <= j && IsBoundary(files[c], files[c - 1].Largest())
    ensures c < j ==> Before(files[c].Smallest(), files[j].Smallest())
  {
  }

  /** A run of neighbours that the next file does not continue: nothing older stays behind. */
  lemma SliceClosed(files: seq<File>, a: nat, d: nat)
    requires SortedDisjoint(files) && a < d <= |files|
    requires d < |files| ==> files[d - 1].Largest().user < files[d].Smallest().user
    ensures Newer(FilesEntries(Rest(files, files[a..d])), FilesEntries(files[a..d]))
  {
    hide GoodTable, SortedDisjoint, Sorted, Before, Rest, FilesEntries;
    forall e, x | e in FilesEntries(Rest(files, files[a..d])) && x in FilesEntries(files[a..d])
        && e.key.user == x.key.user
      ensures e.key.Tag() > x.key.Tag()
    {
      var i := StaysAt(files, a, d, e);
      var n := FileOf(files[a..d], x);
      SlicePair(files, a, d, i, a + n, e, x);
    }
  }

  lemma StaysAt(files: seq<File>, a: nat, d: nat, e: Entry) returns (i: nat)
    requires a < d <= |files| && e in FilesEntries(Rest(files, files[a..d]))
    ensures i < |files| && e in files[i].run && (i < a || d <= i)
  {
    hide GoodTable, Rest;
    var m := FileOf(Rest(files, files[a..d]), e);
    var f := Rest(files, files[a..d])[m];
    RestMember(files, files[a..d], f);
    i :| 0 <= i < |files| && files[i] == f;
    SliceHas(files, a, d, i);
  }

  lemma SliceHas(files: seq<File>, a: nat, d: nat, i: nat)
    requires a <= d <= |files| && i < |files|
    ensures a <= i < d ==> files[i] in files[a..d]
  {
  }

  lemma SlicePair(files: seq<File>, a: nat, d: nat, i: nat, j: nat, e: Entry, x: Entry)
    requires SortedDisjoint(files) && a <= j < d <= |files| && i < |files| && (i < a || d <= i)
    requires d < |files| ==> files[d - 1].Largest().user < files[d].Smallest().user
    requires e in files[i].run && x in files[j].run && e.key.user == x.key.user
    ensures e.key.Tag() > x.key.Tag()
  {
  }

  lemma ExactRangeClosed(files: seq<File>, inputs: seq<File>, lo: Option<UserKey>, hi: Option<UserKey>)
    requires ExactRange(files, inputs, lo, hi)
    ensures Newer(FilesEntries(Rest(files, inputs)), FilesEntries(inputs))
    ensures forall s, l :: IsHull(inputs, s, l) ==> BoundaryChain(files, l) == []
  {
    hide GoodTable, SortedDisjoint, Sorted;
    var rest := Rest(files, inputs);
    forall f | f in files && f !in inputs ensures !Overlaps(f, lo, hi) {
      SelectedMember(files, |files|, lo, hi, f);
      assert files[..|files|] == files;
    }
    SelectedMeets(files, |files|, lo, hi);
    forall e, x | e in FilesEntries(rest) && x in FilesEntries(inputs) ensures e.key.user != x.key.user {
      var m := FileOf(rest, e);
      var n := FileOf(inputs, x);
      RestMember(files, inputs, rest[m]);
      assert inputs[n] in inputs;
      var j :| 0 <= j < |rest[m].run| && rest[m].run[j] == e;
      var k :| 0 <= k < |inputs[n].run| && inputs[n].run[k] == x;
      InFile(rest[m], j);
      InFile(inputs[n], k);
    }
    forall s, l | IsHull(inputs, s, l) ensures BoundaryChain(files, l) == [] {
      forall f | f in files ensures !IsBoundary(f, l) {
        if f in inputs {
          var i :| 0 <= i < |inputs| && inputs[i] == f;
          assert !Before(l, inputs[i].Largest());
          InFile(f, 0);
        } else {
          var i :| 0 <= i < |inputs| && inputs[i].Largest() == l;
          assert inputs[i] in inputs;
          InFile(f, 0);
          InFile(inputs[i], 0);
        }
      }
    }
  }

  /** The next level's files outside the hull of user keys lie wholly before or after all inputs, also in the order
      of internal keys. */
  lemma NextLevelOutside(next: seq<File>, inputs0: seq<File>, s: IKey, l: IKey, f: File)
    requires SortedDisjoint(next) && IsHull(inputs0, s, l) && f in next
    requires f !in Selected(next, |next|, Some(s.user), Some(l.user))
    ensures var all := inputs0 + Selected(next, |next|, Some(s.user), Some(l.user));
            AllBefore(f, all) || AllAfter(f, all)
  {
    hide GoodTable, SortedDisjoint, Sorted;
    var inputs1 := Selected(next, |next|, Some(s.user), Some(l.user));
    var i :| 0 <= i < |next| && next[i] == f;
    SelectedMember(next, |next|, Some(s.user), Some(l.user), f);
    SelectedMeets(next, |next|, Some(s.user), Some(l.user));
    assert next[..|next|] == next;
    forall g | g in inputs0
      ensures f.Largest().user < s.user ==> Before(f.Largest(), g.Smallest())
      ensures f.Smallest().user > l.user ==> Before(g.Largest(), f.Smallest())
    {
      var k :| 0 <= k < |inputs0| && inputs0[k] == g;
      assert !Before(inputs0[k].Smallest(), s) && !Before(l, inputs0[k].Largest());
    }
    forall g | g in inputs1
      ensures f.Largest().user < s.user ==> Before(f.Largest(), g.Smallest())
      ensures f.Smallest().user > l.user ==> Before(g.Largest(), f.Smallest())
    {
      var j :| 0 <= j < |next| && next[j] == g;
      NeighbourOrder(next, i, j, s.user, l.user);
    }
  }

  lemma NeighbourOrder(next: seq<File>, i: nat, j: nat, lo: UserKey, hi: UserKey)
    requires SortedDisjoint(next) && i < |next| && j < |next| && Overlaps(next[j], Some(lo), Some(hi))
    ensures next[i].Largest().user < lo ==> Before(next[i].Largest(), next[j].Smallest())
    ensures next[i].Smallest().user > hi ==> Before(next[j].Largest(), next[i].Smallest())
  {
  }

  // ----- Setting up a compaction

  /** The inputs keep the order of their level: on level 0 the files of a range, on other levels a run of neighbours. */
  ghost predicate InOrderOf(files: seq<File>, level: nat, inputs: seq<File>) {
    if level == 0 then exists lo, hi :: inputs == Selected(files, |files|, lo, hi)
    else exists a, d :: 0 <= a <= d <= |files| && inputs == files[a..d]
  }

  /** So they are as well ordered as the level is. */
  lemma InputsOrdered(files: seq<File>, level: nat, inputs: seq<File>)
    requires InOrderOf(files, level, inputs)
    ensures level == 0 && NewerByNumber(files) ==> NewerByNumber(inputs)
    ensures level > 0 && SortedDisjoint(files) ==> SortedDisjoint(inputs)
  {
    hide GoodTable, Newer, Before;
    if level == 0 && NewerByNumber(files) {
      var lo, hi :| inputs == Selected(files, |files|, lo, hi);
      SelectedByNumber(files, |files|, lo, hi);
      SelectedMeets(files, |files|, lo, hi);
      forall f, g | f in inputs && g in inputs && f.number > g.number
        ensures Newer(Elements(f.run), Elements(g.run))
      {
        assert f in files && g in files;
      }
      assert inputs == Selected(files, |files|, lo, hi);
      assert forall i, j :: 0 <= i < j < |inputs| ==> inputs[i].number != inputs[j].number;
      assert NewerByNumber(inputs);
    }
  }

  lemma {:induction false} SelectedByNumber(files: seq<File>, n: nat, begin: Option<UserKey>, end: Option<UserKey>)
    requires n <= |files| && forall i, j :: 0 <= i < j < |files| ==> files[i].number != files[j].number
    ensures var r := Selected(files, n, begin, end);
            forall i, j :: 0 <= i < j < |r| ==> r[i].number != r[j].number
  {
    hide GoodTable;
    if n > 0 {
      var r := Selected(files, n - 1, begin, end);
      SelectedByNumber(files, n - 1, begin, end);
      forall i | 0 <= i < |r|
        ensures r[i].number != files[n - 1].number
      {
        SelectedMember(files, n - 1, begin, end, r[i]);
        assert r[i] in files[..n - 1];
        var j :| 0 <= j < n - 1 && files[..n - 1][j] == r[i];
        assert files[j] == r[i];
      }
    }
  }

  /** The files with those behind them that go on with the user key before; on level 0 there are none. */
  ghost predicate WithBoundary(files: seq<File>, level: nat, picked: seq<File>, r: seq<File>) {
    if level == 0 then r == picked else exists a: nat, c: nat, d: nat :: GoesOn(files, picked, r, a, c, d)
  }

  ghost predicate GoesOn(files: seq<File>, picked: seq<File>, r: seq<File>, a: nat, c: nat, d: nat) {
    && a < c <= d <= |files| && picked == files[a..c] && r == files[a..d]
    && (forall i :: c <= i < d ==> files[i - 1].Largest().user == files[i].Smallest().user)
    && (d < |files| ==> files[d - 1].Largest().user < files[d].Smallest().user)
  }

  /** The boundary files close the inputs of a compaction at their own level. */
  lemma BoundaryCloses(files: seq<File>, level: nat, inputs: seq<File>, s: IKey, l: IKey, r: seq<File>)
    requires StartInputs(files, level, inputs) && (level > 0 ==> SortedDisjoint(files))
    requires IsHull(inputs, s, l) && r == inputs + BoundaryChain(files, l)
    ensures r != [] && (forall f :: f in inputs ==> f in r) && (forall f :: f in r ==> f in files)
    ensures Newer(FilesEntries(Rest(files, r)), FilesEntries(r)) && InOrderOf(files, level, r)
    ensures WithBoundary(files, level, inputs, r)
  {
    hide GoodTable, Sorted, SortedDisjoint, Newer;
    if level == 0 {
      var lo, hi :| ExactRange(files, inputs, lo, hi);
      ExactRangeClosed(files, inputs, lo, hi);
      SelectedMeets(files, |files|, lo, hi);
      assert r == inputs;
    } else {
      var a, c :| 0 <= a < c <= |files| && inputs == files[a..c];
      SliceHull(files, a, c, s, l);
      var d := ChainExtends(files, a, c);
      SliceClosed(files, a, d);
      assert GoesOn(files, inputs, r, a, c, d);
    }
  }

  lemma SliceHull(files: seq<File>, a: nat, c: nat, s: IKey, l: IKey)
    requires SortedDisjoint(files) && a < c <= |files| && IsHull(files[a..c], s, l)
    ensures l == files[c - 1].Largest()
  {
  }

  /** The user-key range of a hull takes in every file of it. */
  lemma HullOverlaps(files: seq<File>, inputs: seq<File>, s: IKey, l: IKey, lo: Option<UserKey>, hi: Option<UserKey>)
    requires IsHull(inputs, s, l) && (forall f :: f in inputs ==> f in files)
             && Wider(Some(s.user), Some(l.user), lo, hi)
    ensures forall f :: f in inputs ==> Overlaps(f, lo, hi) && f in Selected(files, |files|, lo, hi)
  {
    forall f | f in inputs ensures Overlaps(f, lo, hi) && f in Selected(files, |files|, lo, hi) {
      var i :| 0 <= i < |inputs| && inputs[i] == f;
      assert !Before(inputs[i].Smallest(), s) && !Before(l, inputs[i].Largest());
      InFile(f, 0);
      SelectedMember(files, |files|, lo, hi, f);
      assert files[..|files|] == files;
    }
  }

  lemma HullGrows(inputs: seq<File>, more: seq<File>, s: IKey, l: IKey, s': IKey, l': IKey)
    requires IsHull(inputs, s, l) && IsHull(more, s', l') && forall f :: f in inputs ==> f in more
    ensures s'.user <= s.user && l.user <= l'.user
  {
    var i :| 0 <= i < |inputs| && inputs[i].Smallest() == s;
    var j :| 0 <= j < |inputs| && inputs[j].Largest() == l;
    assert inputs[i] in inputs && inputs[j] in inputs;
    var m :| 0 <= m < |more| && more[m] == inputs[i];
    var n :| 0 <= n < |more| && more[n] == inputs[j];
    assert !Before(more[m].Smallest(), s') && !Before(l', more[n].Largest());
  }

  /** A wider range selects more files, and the same ones if it selects as many. */
  lemma {:induction false} SelectedWider(files: seq<File>, n: nat, b: UserKey, e: UserKey, b': UserKey, e': UserKey)
    requires n <= |files| && b' <= b && e <= e'
    ensures |Selected(files, n, Some(b), Some(e))| <= |Selected(files, n, Some(b'), Some(e'))|
    ensures |Selected(files, n, Some(b), Some(e))| == |Selected(files, n, Some(b'), Some(e'))|
            ==> Selected(files, n, Some(b), Some(e)) == Selected(files, n, Some(b'), Some(e'))
  {
    if n > 0 {
      SelectedWider(files, n - 1, b, e, b', e');
    }
  }

  method CloseAtLevel(files: seq<File>, level: nat, picked: seq<File>) returns (r: seq<File>)
    requires StartInputs(files, level, picked) && (level > 0 ==> SortedDisjoint(files))
    ensures r != [] && (forall f :: f in picked ==> f in r) && (forall f :: f in r ==> f in files)
    ensures Newer(FilesEntries(Rest(files, r)), FilesEntries(r)) && InOrderOf(files, level, r)
    ensures WithBoundary(files, level, picked, r)
  {
    hide GoodTable, Sorted, SortedDisjoint, StartInputs, IsHull, Newer, InOrderOf, WithBoundary;
    StartNonempty(files, level, picked);
    r := AddBoundaryInputs(files, picked);
    ghost var s, l :| IsHull(picked, s, l) && r == picked + BoundaryChain(files, l);
    BoundaryCloses(files, level, picked, s, l, r);
  }

  method RangeInputs(files: seq<File>, level: nat, begin: IKey, end: IKey) returns (r: seq<File>)
    ensures level > 0 ==> r == Selected(files, |files|, Some(begin.user), Some(end.user))
    ensures exists lo, hi :: Wider(Some(begin.user), Some(end.user), lo, hi) && r == Selected(files, |files|, lo, hi)
                             && (level == 0 ==> ExactRange(files, r, lo, hi))
    ensures Meeting(files, level, Some(begin.user), Some(end.user), r)
  {
    hide GoodTable, Overlaps, ClosedUnderOverlap;
    ghost var lo, hi;
    r, lo, hi := GetOverlappingInputs(files, level, Some(begin.user), Some(end.user));
    forall f: File ensures f in r <==> f in files && Overlaps(f, lo, hi) {
      SelectedMember(files, |files|, lo, hi, f);
      assert files[..|files|] == files;
    }
  }

  /** The files that meet a range, on level 0 with all that overlap them. */
  ghost predicate Meeting(files: seq<File>, level: nat, begin: Option<UserKey>, end: Option<UserKey>, r: seq<File>) {
    if level == 0 then LeastClosed(files, begin, end, r)
    else forall f: File :: f in r <==> f in files && Overlaps(f, begin, end)
  }

  ghost predicate MeetingHull(files: seq<File>, level: nat, inputs: seq<File>, r: seq<File>) {
    exists s, l :: IsHull(inputs, s, l) && Meeting(files, level, Some(s.user), Some(l.user), r)
  }

  /** The expansion: the files of the level in the range of all inputs replace those picked when they are more, stay
      below the size limit, and meet as many files of the next level. */
  ghost predicate Expanded(files: seq<File>, next: seq<File>, level: nat, inputs0: seq<File>, inputs1: seq<File>,
                           expandedLimit: nat, e: Expansion, r0: seq<File>) {
    && MeetingHull(files, level, inputs0 + inputs1, e.around) && WithBoundary(files, level, e.around, e.files0)
    && if |e.files0| > |inputs0| && TotalFileSize(inputs1) + TotalFileSize(e.files0) < expandedLimit
       then
         MeetingHull(next, level + 1, e.files0, e.files1)
         && r0 == if |e.files1| == |inputs1| then e.files0 else inputs0
       else r0 == inputs0
  }

  datatype Expansion = Expansion(around: seq<File>, files0: seq<File>, files1: seq<File>)

  /** Takes in more files of the level, provided the files of the next level stay the same. */
  method Expand(files: seq<File>, next: seq<File>, level: nat, inputs0: seq<File>, inputs1: seq<File>,
                smallest: IKey, largest: IKey, expandedLimit: nat)
    returns (r0: seq<File>, s: IKey, l: IKey, ghost e: Expansion)
    requires SortedDisjoint(next) && (level > 0 ==> SortedDisjoint(files))
    requires GoodInputs(files, next, inputs0, inputs1) && IsHull(inputs0, smallest, largest)
    requires inputs1 == Selected(next, |next|, Some(smallest.user), Some(largest.user))
             && InOrderOf(files, level, inputs0)
    ensures GoodInputs(files, next, r0, inputs1) && IsHull(r0, s, l) && forall f :: f in inputs0 ==> f in r0
    ensures InOrderOf(files, level, r0) && Expanded(files, next, level, inputs0, inputs1, expandedLimit, e, r0)
  {
    hide GoodTable, Sorted, SortedDisjoint, IsHull, Newer, ClosedUnderOverlap, ExactRange, AllBefore, AllAfter,
         InOrderOf, WithBoundary, Meeting, Selected, Rest, FilesEntries;
    var allStart, allLimit := GetRange(inputs0 + inputs1);
    HullGrows(inputs0, inputs0 + inputs1, smallest, largest, allStart, allLimit);
    var overlapping := RangeInputs(files, level, allStart, allLimit);
    ghost var lo, hi :| Wider(Some(allStart.user), Some(allLimit.user), lo, hi)
                        && overlapping == Selected(files, |files|, lo, hi)
                        && (level == 0 ==> ExactRange(files, overlapping, lo, hi));
    HullOverlaps(files, inputs0, smallest, largest, lo, hi);
    assert inputs0[0] in overlapping;
    StartsFromRange(files, level, overlapping, lo, hi);
    var expanded0 := CloseAtLevel(files, level, overlapping);
    e := Expansion(overlapping, expanded0, []);
    if |expanded0| > |inputs0| && TotalFileSize(inputs1) + TotalFileSize(expanded0) < expandedLimit {
      var newStart, newLimit := GetRange(expanded0);
      var expanded1 := RangeInputs(next, level + 1, newStart, newLimit);
      e := e.(files1 := expanded1);
      if |expanded1| == |inputs1| {
        GoodExpansion(files, next, inputs0, inputs1, smallest, largest, expanded0, expanded1, newStart, newLimit);
        return expanded0, newStart, newLimit, e;
      }
    }
    return inputs0, smallest, largest, e;
  }

  /** As many files of the next level as before are the same files. */
  lemma GoodExpansion(files: seq<File>, next: seq<File>, inputs0: seq<File>, inputs1: seq<File>, smallest: IKey,
                      largest: IKey, expanded0: seq<File>, expanded1: seq<File>, newStart: IKey, newLimit: IKey)
    requires SortedDisjoint(next) && IsHull(inputs0, smallest, largest) && IsHull(expanded0, newStart, newLimit)
    requires (forall f :: f in inputs0 ==> f in expanded0) && (forall f :: f in expanded0 ==> f in files)
    requires expanded0 != [] && Newer(FilesEntries(Rest(files, expanded0)), FilesEntries(expanded0))
    requires inputs1 == Selected(next, |next|, Some(smallest.user), Some(largest.user))
    requires expanded1 == Selected(next, |next|, Some(newStart.user), Some(newLimit.user)) && |expanded1| == |inputs1|
    ensures GoodInputs(files, next, expanded0, inputs1)
  {
    hide GoodTable, Sorted, SortedDisjoint, IsHull, Newer, GoodInputs, Rest, FilesEntries, Selected;
    HullGrows(inputs0, expanded0, smallest, largest, newStart, newLimit);
    SelectedWider(next, |next|, smallest.user, largest.user, newStart.user, newLimit.user);
    GoodFromHull(files, next, expanded0, newStart, newLimit);
  }

  /** All that a compaction takes besides its pick: boundary files, the files of the next level in the range, the
      expansion, and the grandparents, which meet the range of all inputs. */
  ghost predicate SetUp(levels: Levels, level: nat, picked: seq<File>, expandedLimit: nat, start0: seq<File>,
                        e: Expansion, inputs0: seq<File>, inputs1: seq<File>, grandparents: seq<File>) {
    && level + 1 < NUM_LEVELS == |levels|
    && WithBoundary(levels[level], level, picked, start0) && MeetingHull(levels[level + 1], level + 1, start0, inputs1)
    && (if inputs1 == [] then inputs0 == start0
        else Expanded(levels[level], levels[level + 1], level, start0, inputs1, expandedLimit, e, inputs0))
    && (if level + 2 < NUM_LEVELS then MeetingHull(levels[level + 2], level + 2, inputs0 + inputs1, grandparents)
        else grandparents == [])
  }

  /** Completes a compaction: boundary files, the files of the next level, and an expansion of the inputs that
      does not change the next level's files.  start0 are the inputs at the level before the expansion. */
  method SetupOtherInputs(levels: Levels, level: nat, picked: seq<File>, expandedLimit: nat)
    returns (inputs0: seq<File>, inputs1: seq<File>, grandparents: seq<File>, compactPointer: IKey,
             ghost start0: seq<File>, ghost e: Expansion)
    requires Layered(levels) && level + 1 < NUM_LEVELS && StartInputs(levels[level], level, picked)
    ensures GoodInputs(levels[level], levels[level + 1], inputs0, inputs1)
    ensures GoodInputs(levels[level], levels[level + 1], start0, inputs1)
    ensures (forall f :: f in picked ==> f in start0) && (forall f :: f in start0 ==> f in inputs0)
    ensures (if level == 0 then NewerByNumber(inputs0) else SortedDisjoint(inputs0)) && SortedDisjoint(inputs1)
    ensures SetUp(levels, level, picked, expandedLimit, start0, e, inputs0, inputs1, grandparents)
    ensures exists s :: IsHull(inputs0, s, compactPointer)
  {
    hide GoodTable, Sorted, SortedDisjoint, NewerByNumber, Layered, StartInputs, IsHull, GoodInputs, Newer, InOrderOf,
         WithBoundary, Meeting, Expanded;
    LayeredShape(levels);
    LayeredLevel(levels, level);
    LayeredLevel(levels, level + 1);
    var files, next := levels[level], levels[level + 1];
    inputs0 := CloseAtLevel(files, level, picked);
    var smallest, largest := GetRange(inputs0);
    inputs1 := RangeInputs(next, level + 1, smallest, largest);
    GoodFromHull(files, next, inputs0, smallest, largest);
    NextOrdered(next, smallest, largest);
    start0, e := inputs0, Expansion([], [], []);
    if inputs1 != [] {
      inputs0, smallest, largest, e := Expand(files, next, level, inputs0, inputs1, smallest, largest, expandedLimit);
    }
    InputsOrdered(files, level, inputs0);
    // The files two levels down count against trivial moves and long outputs.
    GoodNonempty(files, next, inputs0, inputs1);
    var allStart, allLimit := GetRange(inputs0 + inputs1);
    grandparents := [];
    if level + 2 < NUM_LEVELS {
      grandparents := RangeInputs(levels[level + 2], level + 2, allStart, allLimit);
    }
    compactPointer := largest;
  }

  lemma NextOrdered(next: seq<File>, smallest: IKey, largest: IKey)
    requires SortedDisjoint(next)
    ensures SortedDisjoint(Selected(next, |next|, Some(smallest.user), Some(largest.user)))
  {
    hide GoodTable, Before;
    var a, c := SelectedSlice(next, |next|, Some(smallest.user), Some(largest.user));
  }

  lemma GoodNonempty(files: seq<File>, next: seq<File>, inputs0: seq<File>, inputs1: seq<File>)
    requires GoodInputs(files, next, inputs0, inputs1)
    ensures inputs0 != []
  {
  }

  lemma StartNonempty(files: seq<File>, level: nat, inputs: seq<File>)
    requires StartInputs(files, level, inputs)
    ensures inputs != []
  {
  }

  lemma StartsFromRange(files: seq<File>, level: nat, inputs: seq<File>, lo: Option<UserKey>, hi: Option<UserKey>)
    requires level > 0 ==> SortedDisjoint(files)
    requires inputs == Selected(files, |files|, lo, hi) && inputs != []
    requires level == 0 ==> ExactRange(files, inputs, lo, hi)
    ensures StartInputs(files, level, inputs)
  {
    hide GoodTable, Sorted, SortedDisjoint;
    if level > 0 {
      var a, c := SelectedSlice(files, |files|, lo, hi);
    }
  }

  lemma GoodFromHull(files: seq<File>, next: seq<File>, inputs0: seq<File>, s: IKey, l: IKey)
    requires SortedDisjoint(next) && IsHull(inputs0, s, l) && inputs0 != [] && forall f :: f in inputs0 ==> f in files
    requires Newer(FilesEntries(Rest(files, inputs0)), FilesEntries(inputs0))
    ensures GoodInputs(files, next, inputs0, Selected(next, |next|, Some(s.user), Some(l.user)))
  {
    hide GoodTable, Sorted, SortedDisjoint, IsHull, Newer, AllBefore, AllAfter;
    var inputs1 := Selected(next, |next|, Some(s.user), Some(l.user));
    SelectedMeets(next, |next|, Some(s.user), Some(l.user));
    forall f | f in next && f !in inputs1 ensures AllBefore(f, inputs0 + inputs1) || AllAfter(f, inputs0 + inputs1) {
      NextLevelOutside(next, inputs0, s, l, f);
    }
  }

  // ----- Starting a compaction

  lemma SingleStart(files: seq<File>, i: nat)
    requires i < |files|
    ensures files[i..i + 1] == [files[i]]
  {
  }

  /** A pick that starts from one file. */
  ghost predicate PickOf(files: seq<File>, level: nat, i: nat, picked: seq<File>) {
    && i < |files| && files[i] in picked
    && if level > 0 then picked == [files[i]]
       else LeastClosed(files, Some(files[i].Smallest().user), Some(files[i].Largest().user), picked)
  }

  /** Whether a file ends behind the key up to which the level was compacted. */
  predicate BehindPointer(f: File, compactPointer: Option<IKey>) {
    compactPointer.Some? ==> Before(compactPointer.value, f.Largest())
  }

  /** The first file behind the compaction pointer, or, behind the last file, the first of all. */
  ghost predicate NextInTurn(files: seq<File>, compactPointer: Option<IKey>, i: nat) {
    && i < |files|
    && if exists f: File :: f in files && BehindPointer(f, compactPointer)
       then
         BehindPointer(files[i], compactPointer)
         && forall j :: 0 <= j < i ==> !BehindPointer(files[j], compactPointer)
       else i == 0
  }

  /** VersionSet::PickCompaction, given the level chosen by size: the first file after the compaction pointer,
      wrapping around; on level 0 together with all files it overlaps. */
  method PickBySize(files: seq<File>, level: nat, compactPointer: Option<IKey>) returns (picked: seq<File>)
    requires files != []
    ensures StartInputs(files, level, picked)
    ensures exists i :: NextInTurn(files, compactPointer, i) && PickOf(files, level, i, picked)
  {
    hide GoodTable, StartInputs, PickOf, Before, NextInTurn;
    var i := 0;
    while i < |files| && compactPointer.Some? && !Before(compactPointer.value, files[i].Largest())
      invariant i <= |files| && forall j :: 0 <= j < i ==> !BehindPointer(files[j], compactPointer)
    {
      i := i + 1;
    }
    assert i < |files| ==> BehindPointer(files[i], compactPointer);
    if i == |files| {
      i := 0;  // behind the last file comes the first one
    }
    TurnIs(files, compactPointer, i);
    picked := PickFile(files, level, i);
  }

  lemma TurnIs(files: seq<File>, compactPointer: Option<IKey>, i: nat)
    requires i < |files|
    requires || ((forall j :: 0 <= j < i ==> !BehindPointer(files[j], compactPointer))
                 && BehindPointer(files[i], compactPointer))
             || (i == 0 && forall j :: 0 <= j < |files| ==> !BehindPointer(files[j], compactPointer))
    ensures NextInTurn(files, compactPointer, i)
  {
    hide GoodTable, BehindPointer;
    assert files[i] in files;
  }

  method PickFile(files: seq<File>, level: nat, i: nat) returns (picked: seq<File>)
    requires i < |files|
    ensures StartInputs(files, level, picked) && PickOf(files, level, i, picked)
  {
    hide GoodTable, IsHull, Before, ClosedUnderOverlap;
    picked := [files[i]];
    SingleStart(files, i);
    if level == 0 {
      var smallest, largest := GetRange(picked);
      HullOfOne(files[i], smallest, largest);
      ghost var lo, hi;
      picked, lo, hi := GetOverlappingInputs(files, 0, Some(smallest.user), Some(largest.user));
      HullOverlaps(files, [files[i]], smallest, largest, lo, hi);
      assert files[i] in [files[i]];
      assert ExactRange(files, picked, lo, hi);
    }
  }

  lemma HullOfOne(f: File, smallest: IKey, largest: IKey)
    requires IsHull([f], smallest, largest)
    ensures smallest == f.Smallest() && largest == f.Largest()
  {
  }

  /** The first files of a level that meet the range: all of them, or as many as it takes to reach the size limit. */
  ghost predicate FirstOfRange(files: seq<File>, begin: Option<UserKey>, end: Option<UserKey>, limit: nat,
                               picked: seq<File>) {
    exists a: nat :: FirstFrom(files, begin, end, limit, picked, a)
  }

  ghost predicate FirstFrom(files: seq<File>, begin: Option<UserKey>, end: Option<UserKey>, limit: nat,
                            picked: seq<File>, a: nat) {
    && a + |picked| <= |files| && picked == files[a..a + |picked|]
    && (forall i :: 0 <= i < a ==> !Overlaps(files[i], begin, end))
    && (forall i :: a <= i < a + |picked| ==> Overlaps(files[i], begin, end))
    && (|picked| > 1 ==> TotalFileSize(picked[..|picked| - 1]) < limit)
    && (TotalFileSize(picked) >= limit || forall i :: a + |picked| <= i < |files| ==> !Overlaps(files[i], begin, end))
  }

  predicate Within(k: UserKey, begin: Option<UserKey>, end: Option<UserKey>) {
    (begin.Some? ==> begin.value <= k) && (end.Some? ==> k <= end.value)
  }

  /** A file and a range meet when some user key lies in both. */
  lemma OverlapsMeans(f: File, begin: Option<UserKey>, end: Option<UserKey>)
    requires begin.Some? && end.Some? ==> begin.value <= end.value
    ensures Overlaps(f, begin, end) <==>
              exists k :: Within(k, begin, end) && Within(k, Some(f.Smallest().user), Some(f.Largest().user))
  {
    InFile(f, 0);
    if Overlaps(f, begin, end) {
      var k := if begin.Some? && f.Smallest().user < begin.value then begin.value else f.Smallest().user;
      assert Within(k, begin, end) && Within(k, Some(f.Smallest().user), Some(f.Largest().user));
    }
  }

  /** VersionSet::CompactRange: the files that meet the range; above level 0 only the first of them that reach the
      size limit. */
  method PickRange(files: seq<File>, level: nat, begin: Option<UserKey>, end: Option<UserKey>, limit: nat)
    returns (picked: seq<File>)
    requires level > 0 ==> SortedDisjoint(files)
    ensures picked != [] ==> StartInputs(files, level, picked)
    ensures picked == [] <==> forall f: File :: f in files ==> !Overlaps(f, begin, end)
    ensures if level == 0 then LeastClosed(files, begin, end, picked)
            else FirstOfRange(files, begin, end, limit, picked)
  {
    hide GoodTable, SortedDisjoint, ClosedUnderOverlap;
    ghost var lo, hi;
    picked, lo, hi := GetOverlappingInputs(files, level, begin, end);
    NothingMeets(files, begin, end, lo, hi);
    if level > 0 && picked != [] {
      ghost var a, c := SelectedSlice(files, |files|, begin, end);
      SliceMeets(files, begin, end, a, c);
      picked := FirstFiles(files, begin, end, picked, limit, a, c);
    } else if level > 0 {
      assert FirstFrom(files, begin, end, limit, picked, |files|);
    } else {
      assert ExactRange(files, picked, lo, hi);
    }
  }

  lemma NothingMeets(files: seq<File>, begin: Option<UserKey>, end: Option<UserKey>, lo: Option<UserKey>,
                     hi: Option<UserKey>)
    requires Wider(begin, end, lo, hi)
    requires (lo == begin && hi == end)
             || LeastClosed(files, begin, end, Selected(files, |files|, lo, hi))
    ensures Selected(files, |files|, lo, hi) == [] <==> forall f: File :: f in files ==> !Overlaps(f, begin, end)
  {
    hide GoodTable, Selected, Overlaps, LeastClosed;
    var r := Selected(files, |files|, lo, hi);
    assert r != [] ==> r[0] in r;
    if f: File :| f in files && Overlaps(f, begin, end) {
      OverlapsWider(f, begin, end, lo, hi);
      SelectedMember(files, |files|, lo, hi, f);
      assert files[..|files|] == files;
    } else if lo == begin && hi == end {
      SelectedMeets(files, |files|, lo, hi);
    } else {
      NothingClosed(files, begin, end, r);
    }
  }

  lemma NothingClosed(files: seq<File>, begin: Option<UserKey>, end: Option<UserKey>, r: seq<File>)
    requires LeastClosed(files, begin, end, r) && forall f: File :: f in files ==> !Overlaps(f, begin, end)
    ensures r == []
  {
    hide GoodTable, Overlaps;
    assert r != [] ==> r[0] in r;
    assert ClosedUnderOverlap(files, begin, end, {});
  }

  lemma SliceMeets(files: seq<File>, begin: Option<UserKey>, end: Option<UserKey>, a: nat, c: nat)
    requires SortedDisjoint(files) && a <= c <= |files| && Selected(files, |files|, begin, end) == files[a..c]
    requires forall i :: 0 <= i < a ==> AfterFile(begin, files[i])
    requires forall i :: c <= i < |files| ==> BeforeFile(end, files[i])
    ensures forall i :: 0 <= i < |files| ==> (Overlaps(files[i], begin, end) <==> a <= i < c)
  {
    hide GoodTable, Selected, SortedDisjoint;
    SelectedMeets(files, |files|, begin, end);
    forall i | a <= i < c ensures Overlaps(files[i], begin, end) {
      SliceHas(files, a, c, i);
    }
  }

  /** The first files of a range, up to the limit. */
  method FirstFiles(files: seq<File>, ghost begin: Option<UserKey>, ghost end: Option<UserKey>, inputs: seq<File>,
                    limit: nat, ghost a: nat, ghost c: nat)
    returns (picked: seq<File>)
    requires a < c <= |files| && inputs == files[a..c]
    requires forall i :: 0 <= i < |files| ==> (Overlaps(files[i], begin, end) <==> a <= i < c)
    ensures picked != [] && FirstFrom(files, begin, end, limit, picked, a)
  {
    hide GoodTable, Overlaps, TotalFileSize, FirstFrom;
    picked := inputs;
    var total, i := 0, 0;
    NoFileSize(inputs);
    while i < |picked|
      invariant i <= |picked| && picked == inputs && total == TotalFileSize(inputs[..i])
      invariant i > 0 ==> total < limit
    {
      FileSizeStep(inputs, i);
      total := total + picked[i].size;
      i := i + 1;
      if total >= limit {
        FirstFromSlice(files, begin, end, inputs, limit, a, c, i);
        return picked[..i];
      }
    }
    FileSizeStep(inputs, |inputs| - 1);
    FirstFromSlice(files, begin, end, inputs, limit, a, c, |inputs|);
    assert inputs[..|inputs|] == inputs;
  }

  lemma FirstFromSlice(files: seq<File>, begin: Option<UserKey>, end: Option<UserKey>, inputs: seq<File>, limit: nat,
                       a: nat, c: nat, i: nat)
    requires a < c <= |files| && inputs == files[a..c] && 0 < i <= |inputs|
    requires forall j :: 0 <= j < |files| ==> (Overlaps(files[j], begin, end) <==> a <= j < c)
    requires TotalFileSize(inputs[..i]) >= limit || i == |inputs|
    requires i > 1 ==> TotalFileSize(inputs[..i - 1]) < limit
    ensures FirstFrom(files, begin, end, limit, inputs[..i], a)
  {
    hide GoodTable, Overlaps, TotalFileSize;
    assert inputs[..i] == files[a..a + i] && inputs[..i][..i - 1] == inputs[..i - 1];
  }

  lemma NoFileSize(files: seq<File>)
    ensures TotalFileSize(files[..0]) == 0
  {
  }

  lemma FileSizeStep(files: seq<File>, i: nat)
    requires i < |files|
    ensures TotalFileSize(files[..i + 1]) == TotalFileSize(files[..i]) + files[i].size
  {
    assert files[..i + 1][..i] == files[..i];
  }

  const MAX_MEM_COMPACT_LEVEL: nat := 2

  ghost predicate SomeMeets(files: seq<File>, smallest: UserKey, largest: UserKey) {
    exists f: File :: f in files && Overlaps(f, Some(smallest), Some(largest))
  }

  /** How many bytes of a level meet the range. */
  ghost function BytesMeeting(files: seq<File>, smallest: UserKey, largest: UserKey): nat {
    if files == [] then 0
    else
      var n := |files| - 1;
      BytesMeeting(files[..n], smallest, largest)
      + if Overlaps(files[n], Some(smallest), Some(largest)) then files[n].size else 0
  }

  lemma {:induction false} BytesSelected(files: seq<File>, n: nat, smallest: UserKey, largest: UserKey)
    requires n <= |files|
    ensures TotalFileSize(Selected(files, n, Some(smallest), Some(largest)))
            == BytesMeeting(files[..n], smallest, largest)
  {
    hide GoodTable, Overlaps;
    if n > 0 {
      BytesSelected(files, n - 1, smallest, largest);
      assert files[..n][..n - 1] == files[..n - 1];
      var r := Selected(files, n - 1, Some(smallest), Some(largest));
      assert (r + [files[n - 1]])[..|r|] == r && r + [] == r;
    }
  }

  /** The deepest level that a flushed table may go to: pushed down past levels without any file in its range, as long
      as not too much of the level after the next meets it. */
  ghost predicate DeepestFree(levels: Levels, smallest: UserKey, largest: UserKey, maxGrandparentOverlap: nat,
                              level: nat)
    requires |levels| == NUM_LEVELS
  {
    && level <= MAX_MEM_COMPACT_LEVEL
    && (level > 0 ==> forall l :: 0 <= l <= level ==> !SomeMeets(levels[l], smallest, largest))
    && (forall l :: 2 <= l < level + 2 ==> BytesMeeting(levels[l], smallest, largest) <= maxGrandparentOverlap)
    && (level < MAX_MEM_COMPACT_LEVEL ==>
          || (level == 0 && SomeMeets(levels[0], smallest, largest))
          || SomeMeets(levels[level + 1], smallest, largest)
          || BytesMeeting(levels[level + 2], smallest, largest) > maxGrandparentOverlap)
  }

  /** The level for a flushed memtable. */
  method PickLevelForMemTableOutput(levels: Levels, smallest: UserKey, largest: UserKey, maxGrandparentOverlap: nat)
    returns (level: nat)
    requires Layered(levels)
    ensures DeepestFree(levels, smallest, largest, maxGrandparentOverlap, level)
  {
    hide GoodTable, SortedDisjoint, NewerByNumber, ClosedUnderOverlap, Overlaps;
    level := 0;
    var overlap := SomeFileOverlapsRange(false, levels[0], Some(smallest), Some(largest));
    if !overlap {
      while level < MAX_MEM_COMPACT_LEVEL
        invariant level <= MAX_MEM_COMPACT_LEVEL
        invariant forall l :: 0 <= l <= level ==> !SomeMeets(levels[l], smallest, largest)
        invariant forall l :: 2 <= l < level + 2 ==> BytesMeeting(levels[l], smallest, largest) <= maxGrandparentOverlap
      {
        overlap := SomeFileOverlapsRange(true, levels[level + 1], Some(smallest), Some(largest));
        if overlap {
          break;
        }
        if level + 2 < NUM_LEVELS {
          var overlaps, lo, hi := GetOverlappingInputs(levels[level + 2], level + 2, Some(smallest), Some(largest));
          BytesSelected(levels[level + 2], |levels[level + 2]|, smallest, largest);
          assert levels[level + 2][..|levels[level + 2]|] == levels[level + 2];
          if TotalFileSize(overlaps) > maxGrandparentOverlap {
            break;
          }
        }
        level := level + 1;
      }
    }
  }
}
