/** version_set.cc, first part: the files of a version, searching them, and layered lookup. */
module Versions {
  import opened Keys

  const NUM_LEVELS: nat := 7

  /** A table file and the entries it holds.  The recorded smallest and largest keys are those of its first and
      last entry (builder.cc:127-130, db_impl.cc:982-985). */
  datatype Table = Table(number: nat, size: nat, run: seq<Entry>) {
    function Smallest(): IKey
      requires run != []
    {
      run[0].key
    }

    function Largest(): IKey
      requires run != []
    {
      run[|run| - 1].key
    }
  }

  ghost predicate GoodTable(f: Table) {
    Sorted(f.run) && forall i :: 0 <= i < |f.run| ==> f.run[i].key.sequence <= MAX_SEQUENCE
  }

  const SAMPLE: Table := Table(0, 0, [Entry(IKey(0.0, 0, TypeValue), [])])

  type File = f: Table | f.run != [] && GoodTable(f) witness SAMPLE

  type Levels = seq<seq<File>>

  /** The files of a level above 0: sorted and not overlapping in the order of internal keys. */
  ghost predicate SortedDisjoint(files: seq<File>) {
    forall i, j :: 0 <= i < j < |files| ==> Before(files[i].Largest(), files[j].Smallest())
  }

  ghost function FilesEntries(files: seq<File>): set<Entry> {
    set f, e | f in files && e in f.run :: e
  }

  lemma FileOf(files: seq<File>, e: Entry) returns (i: nat)
    requires e in FilesEntries(files)
    ensures i < |files| && e in files[i].run
  {
    i :| 0 <= i < |files| && e in files[i].run;
  }

  lemma HasEntry(files: seq<File>, i: nat, e: Entry)
    requires i < |files| && e in files[i].run
    ensures e in FilesEntries(files)
  {
  }

  lemma NoFiles()
    ensures FilesEntries([]) == {}
  {
  }

  /** The entries of the first n levels. */
  ghost function Prefix(levels: Levels, n: nat): set<Entry>
    requires n <= |levels|
  {
    if n == 0 then {} else Prefix(levels, n - 1) + FilesEntries(levels[n - 1])
  }

  lemma {:induction false} PrefixMember(levels: Levels, n: nat, e: Entry)
    requires n <= |levels|
    ensures e in Prefix(levels, n) <==> exists l :: 0 <= l < n && e in FilesEntries(levels[l])
  {
    if n > 0 {
      PrefixMember(levels, n - 1, e);
    }
  }

  ghost function LevelsEntries(levels: Levels): set<Entry> {
    Prefix(levels, |levels|)
  }

  /** Level 0: a file with a larger number holds newer entries. */
  ghost predicate NewerByNumber(files: seq<File>) {
    && (forall i, j :: 0 <= i < j < |files| ==> files[i].number != files[j].number)
    && (forall f, g :: f in files && g in files && f.number > g.number ==> Newer(Elements(f.run), Elements(g.run)))
  }

  /** The invariant that lookup relies on. */
  ghost predicate Layered(levels: Levels) {
    && |levels| == NUM_LEVELS
    && NewerByNumber(levels[0])
    && (forall l :: 1 <= l < |levels| ==> SortedDisjoint(levels[l]))
    && (forall l, m :: 0 <= l < m < |levels| ==> Newer(FilesEntries(levels[l]), FilesEntries(levels[m])))
  }

  function TotalFileSize(files: seq<File>): nat {
    if files == [] then 0 else TotalFileSize(files[..|files| - 1]) + files[|files| - 1].size
  }

  lemma InFile(f: File, i: nat)
    requires i < |f.run|
    ensures !Before(f.run[i].key, f.Smallest()) && !Before(f.Largest(), f.run[i].key)
  {
  }

  /** Earliest index whose largest key is at or after the given key. */
  method FindFile(files: seq<File>, key: IKey) returns (right: nat)
    requires SortedDisjoint(files)
    ensures right <= |files|
    ensures forall i :: 0 <= i < right ==> Before(files[i].Largest(), key)
    ensures forall i :: right <= i < |files| ==> !Before(files[i].Largest(), key)
  {
    var left := 0;
    right := |files|;
    while left < right
      invariant left <= right <= |files|
      invariant forall i :: 0 <= i < left ==> Before(files[i].Largest(), key)
      invariant forall i :: right <= i < |files| ==> !Before(files[i].Largest(), key)
    {
      var mid := (left + right) / 2;
      LargestOrdered(files, mid);
      if Before(files[mid].Largest(), key) {
        left := mid + 1;
      } else {
        right := mid;
      }
    }
  }

  lemma LargestOrdered(files: seq<File>, m: nat)
    requires SortedDisjoint(files) && m < |files|
    ensures forall i :: 0 <= i < m ==> Before(files[i].Largest(), files[m].Largest())
    ensures forall i :: m < i < |files| ==> Before(files[m].Largest(), files[i].Largest())
  {
  }

  predicate AfterFile(userKey: Option<UserKey>, f: File) {
    userKey.Some? && userKey.value > f.Largest().user
  }

  predicate BeforeFile(userKey: Option<UserKey>, f: File) {
    userKey.Some? && userKey.value < f.Smallest().user
  }

  predicate Overlaps(f: File, begin: Option<UserKey>, end: Option<UserKey>) {
    !AfterFile(begin, f) && !BeforeFile(end, f)
  }

  /** Whether some file meets the closed range of user keys; None is an open end. */
  method SomeFileOverlapsRange(disjointSorted: bool, files: seq<File>, smallest: Option<UserKey>,
                               largest: Option<UserKey>)
    returns (r: bool)
    requires disjointSorted ==> SortedDisjoint(files)
    ensures r <==> exists f :: f in files && Overlaps(f, smallest, largest)
  {
    if !disjointSorted {
      for i := 0 to |files|
        invariant forall j :: 0 <= j < i ==> !Overlaps(files[j], smallest, largest)
      {
        if AfterFile(smallest, files[i]) || BeforeFile(largest, files[i]) {
          // on one side of the range
        } else {
          assert Overlaps(files[i], smallest, largest);
          return true;
        }
      }
      return false;
    }
    var index := 0;
    if smallest.Some? {
      index := FindFile(files, SeekKey(smallest.value, MAX_SEQUENCE));
    }
    forall i | 0 <= i < |files| ensures i < index <==> AfterFile(smallest, files[i]) {
      assert files[i].Largest().sequence <= MAX_SEQUENCE;
    }
    if index >= |files| {
      return false;
    }
    forall i | index <= i < |files| ensures BeforeFile(largest, files[index]) ==> BeforeFile(largest, files[i]) {
      InFile(files[index], 0);
    }
    r := !BeforeFile(largest, files[index]);
    assert r ==> Overlaps(files[index], smallest, largest);
  }

  /** The answer of a single table or memtable (table.cc:216-244 with SaveValue, memtable.cc:100-134): the entry
      at the lower bound of the seek key, if it is of the right user key. */
  function RunGet(run: seq<Entry>, k: UserKey, s: nat): Option<Entry>
    requires Sorted(run)
  {
    var i := LowerBound(run, SeekKey(k, s));
    if i < |run| && run[i].key.user == k then Some(run[i]) else None
  }

  /** Only the first file whose largest key is at or after the seek key need be searched, even when the entries
      of one user key span several files of the level. */
  lemma OneFileSuffices(files: seq<File>, k: UserKey, s: nat, r: nat)
    requires SortedDisjoint(files) && r <= |files|
    requires forall i :: 0 <= i < r ==> Before(files[i].Largest(), SeekKey(k, s))
    requires forall i :: r <= i < |files| ==> !Before(files[i].Largest(), SeekKey(k, s))
    ensures DistinctKeys(FilesEntries(files))
    ensures Newest(FilesEntries(files), k, s)
            == if r < |files| && k >= files[r].Smallest().user then RunGet(files[r].run, k, s) else None
  {
    hide Newest, IsNewest;
    LevelDistinct(files);
    NewestNone(FilesEntries(files), k, s);
    forall e | e in FilesEntries(files) && Candidate(e, k, s)
      ensures r < |files| && k >= files[r].Smallest().user
      ensures var hit := RunGet(files[r].run, k, s); hit.Some? && e.key.Tag() <= hit.value.key.Tag()
    {
      CandidateInOneFile(files, k, s, r, e);
    }
    if r < |files| && RunGet(files[r].run, k, s).Some? {
      NewestByHit(files, k, s, r);
    }
  }

  lemma NewestByHit(files: seq<File>, k: UserKey, s: nat, r: nat)
    requires DistinctKeys(FilesEntries(files)) && r < |files| && RunGet(files[r].run, k, s).Some?
    requires forall e :: e in FilesEntries(files) && Candidate(e, k, s)
                         ==> e.key.Tag() <= RunGet(files[r].run, k, s).value.key.Tag()
    ensures k >= files[r].Smallest().user
    ensures Newest(FilesEntries(files), k, s) == RunGet(files[r].run, k, s)
  {
    var i := LowerBound(files[r].run, SeekKey(k, s));
    var hit := files[r].run[i];
    InFile(files[r], i);
    assert !Before(hit.key, SeekKey(k, s));
    assert files[r] in files && hit in files[r].run;
    assert IsNewest(FilesEntries(files), k, s, hit);
    NewestIs(FilesEntries(files), k, s, hit);
  }

  lemma CandidateInOneFile(files: seq<File>, k: UserKey, s: nat, r: nat, e: Entry)
    requires SortedDisjoint(files) && r <= |files| && e in FilesEntries(files) && Candidate(e, k, s)
    requires forall i :: 0 <= i < r ==> Before(files[i].Largest(), SeekKey(k, s))
    requires forall i :: r <= i < |files| ==> !Before(files[i].Largest(), SeekKey(k, s))
    ensures r < |files| && k >= files[r].Smallest().user
    ensures var hit := RunGet(files[r].run, k, s); hit.Some? && e.key.Tag() <= hit.value.key.Tag()
  {
    var i := FileOf(files, e);
    var j :| 0 <= j < |files[i].run| && files[i].run[j] == e;
    InFile(files[i], j);
    assert r <= i;
    var run := files[r].run;
    var last := |run| - 1;
    InFile(files[r], last);
    var n := LowerBound(run, SeekKey(k, s));
    assert n < |run| && !Before(run[n].key, SeekKey(k, s));
    InFile(files[r], n);
    if i == r {
      Ordered(run, n, j);
    }
  }

  lemma LevelDistinct(files: seq<File>)
    requires SortedDisjoint(files)
    ensures DistinctKeys(FilesEntries(files))
  {
  }

  // ----- Level 0 and the whole search

  function InsertNewest(files: seq<File>, f: File): (r: seq<File>)
    ensures multiset(r) == multiset(files) + multiset{f}
  {
    if files == [] || f.number > files[0].number then [f] + files
    else
      assert files == [files[0]] + files[1..];
      [files[0]] + InsertNewest(files[1..], f)
  }

  ghost predicate NewestFirst(files: seq<File>) {
    forall i, j :: 0 <= i < j < |files| ==> files[i].number >= files[j].number
  }

  lemma {:induction false} InsertKeepsOrder(files: seq<File>, f: File)
    requires NewestFirst(files)
    ensures NewestFirst(InsertNewest(files, f))
  {
    hide GoodTable;
    if files != [] && f.number <= files[0].number {
      var r := InsertNewest(files[1..], f);
      InsertKeepsOrder(files[1..], f);
      forall i | 0 <= i < |r| ensures r[i].number <= files[0].number {
        InsertMembers(files[1..], f);
        assert r[i] in r;
      }
    }
  }

  /** Searches one level; the result is its newest entry of k that the snapshot can see. */
  method SearchLevel(files: seq<File>, level: nat, k: UserKey, s: nat) returns (hit: Option<Entry>)
    requires if level == 0 then NewerByNumber(files) else SortedDisjoint(files)
    ensures DistinctKeys(FilesEntries(files)) && hit == Newest(FilesEntries(files), k, s)
  {
    hide Newest, IsNewest, NewerByNumber, SortedDisjoint;
    if level == 0 {
      // On level 0 every file that covers the key counts, the newest first.
      var tmp: seq<File> := [];
      for i := 0 to |files|
        invariant NewestFirst(tmp)
        invariant forall f :: f in tmp ==> f in files[..i]
        invariant forall f :: f in files[..i] && f.Smallest().user <= k <= f.Largest().user ==> f in tmp
      {
        if k >= files[i].Smallest().user && k <= files[i].Largest().user {
          InsertKeepsOrder(tmp, files[i]);
          InsertMembers(tmp, files[i]);
          tmp := InsertNewest(tmp, files[i]);
        }
        assert files[..i + 1] == files[..i] + [files[i]];
      }
      assert files[..|files|] == files;
      ZeroDistinct(files);
      for i := 0 to |tmp|
        invariant forall j :: 0 <= j < i ==> RunGet(tmp[j].run, k, s).None?
      {
        hit := RunGet(tmp[i].run, k, s);
        if hit.Some? {
          ZeroHit(files, tmp, k, s, i);
          return;
        }
      }
      hit := None;
      ZeroMiss(files, tmp, k, s);
    } else {
      var index := FindFile(files, SeekKey(k, s));
      OneFileSuffices(files, k, s, index);
      if index >= |files| {
        hit := None;
      } else if k < files[index].Smallest().user {
        hit := None;
      } else {
        hit := RunGet(files[index].run, k, s);
      }
    }
  }

  lemma InsertMembers(files: seq<File>, f: File)
    ensures forall g :: g in InsertNewest(files, f) <==> g in files || g == f
  {
  }

  lemma ZeroOrder(files: seq<File>, i: nat, j: nat, x: Entry, y: Entry)
    requires NewerByNumber(files) && i < |files| && j < |files| && x in files[i].run && y in files[j].run
    requires x.key.user == y.key.user
    ensures i == j || files[i].number != files[j].number
    ensures files[i].number > files[j].number ==> x.key.Tag() > y.key.Tag()
  {
  }

  lemma ZeroDistinct(files: seq<File>)
    requires NewerByNumber(files)
    ensures DistinctKeys(FilesEntries(files))
  {
    hide NewerByNumber, Sorted;
    forall x, y | x in FilesEntries(files) && y in FilesEntries(files) && x.key == y.key ensures x == y {
      var i := FileOf(files, x);
      var j := FileOf(files, y);
      SortedDistinct(files[i].run);
      assert x in Elements(files[i].run);
      ZeroOrder(files, i, j, x, y);
      ZeroOrder(files, j, i, y, x);
    }
  }

  /** A candidate lies in a file that was selected and has a hit there. */
  lemma ZeroCandidate(files: seq<File>, tmp: seq<File>, k: UserKey, s: nat, e: Entry) returns (m: nat)
    requires forall f :: f in files && f.Smallest().user <= k <= f.Largest().user ==> f in tmp
    requires e in FilesEntries(files) && Candidate(e, k, s)
    ensures m < |tmp| && e in tmp[m].run && RunGet(tmp[m].run, k, s).Some?
    ensures e.key.Tag() <= RunGet(tmp[m].run, k, s).value.key.Tag()
  {
    var i := FileOf(files, e);
    var j :| 0 <= j < |files[i].run| && files[i].run[j] == e;
    InFile(files[i], j);
    assert files[i] in files;
    m :| 0 <= m < |tmp| && tmp[m] == files[i];
    CandidatePosition(files[i].run, k, s, j);
  }

  lemma ZeroHit(files: seq<File>, tmp: seq<File>, k: UserKey, s: nat, i: nat)
    requires NewerByNumber(files) && DistinctKeys(FilesEntries(files)) && NewestFirst(tmp)
    requires forall f :: f in tmp ==> f in files
    requires forall f :: f in files && f.Smallest().user <= k <= f.Largest().user ==> f in tmp
    requires i < |tmp| && RunGet(tmp[i].run, k, s).Some?
    requires forall j :: 0 <= j < i ==> RunGet(tmp[j].run, k, s).None?
    ensures Newest(FilesEntries(files), k, s) == RunGet(tmp[i].run, k, s)
  {
    hide Newest, NewerByNumber, Sorted;
    var n := LowerBound(tmp[i].run, SeekKey(k, s));
    var hit := tmp[i].run[n];
    assert tmp[i] in files;
    var x :| 0 <= x < |files| && files[x] == tmp[i];
    assert hit in files[x].run && !Before(hit.key, SeekKey(k, s));
    forall e | e in FilesEntries(files) && Candidate(e, k, s) ensures e.key.Tag() <= hit.key.Tag() {
      var m := ZeroCandidate(files, tmp, k, s, e);
      assert tmp[m] in tmp;
      var y :| 0 <= y < |files| && files[y] == tmp[m];
      ZeroOrder(files, x, y, hit, e);
      assert i <= m;
    }
    assert IsNewest(FilesEntries(files), k, s, hit);
    NewestIs(FilesEntries(files), k, s, hit);
  }

  lemma ZeroMiss(files: seq<File>, tmp: seq<File>, k: UserKey, s: nat)
    requires forall f :: f in files && f.Smallest().user <= k <= f.Largest().user ==> f in tmp
    requires forall j :: 0 <= j < |tmp| ==> RunGet(tmp[j].run, k, s).None?
    ensures Newest(FilesEntries(files), k, s) == None
  {
  }

  lemma LayeredShape(levels: Levels)
    requires Layered(levels)
    ensures |levels| == NUM_LEVELS
  {
  }

  lemma LayeredLevel(levels: Levels, l: nat)
    requires Layered(levels) && l < NUM_LEVELS
    ensures if l == 0 then NewerByNumber(levels[l]) else SortedDisjoint(levels[l])
    ensures DistinctKeys(FilesEntries(levels[l]))
  {
    if l == 0 {
      ZeroDistinct(levels[0]);
    } else {
      LevelDistinct(levels[l]);
    }
  }

  lemma LevelOrder(levels: Levels, l: nat, m: nat, x: Entry, y: Entry)
    requires Layered(levels) && l < m < |levels| && x in FilesEntries(levels[l]) && y in FilesEntries(levels[m])
    ensures x.key.user == y.key.user ==> x.key.Tag() > y.key.Tag()
  {
  }

  /** The first n levels are newer than the next one. */
  lemma PrefixNewer(levels: Levels, n: nat)
    requires Layered(levels) && n < |levels|
    ensures Newer(Prefix(levels, n), FilesEntries(levels[n]))
  {
    hide Layered;
    forall x, y | x in Prefix(levels, n) && y in FilesEntries(levels[n]) && x.key.user == y.key.user
      ensures x.key.Tag() > y.key.Tag()
    {
      PrefixMember(levels, n, x);
      var l :| 0 <= l < n && x in FilesEntries(levels[l]);
      LevelOrder(levels, l, n, x, y);
    }
  }

  lemma {:induction false} PrefixDistinct(levels: Levels, n: nat)
    requires Layered(levels) && n <= |levels|
    ensures DistinctKeys(Prefix(levels, n))
  {
    hide Layered, NewerByNumber, SortedDisjoint, Newest;
    LayeredShape(levels);
    if n > 0 {
      PrefixDistinct(levels, n - 1);
      PrefixNewer(levels, n - 1);
      LayeredLevel(levels, n - 1);
      NewestLayered(Prefix(levels, n - 1), FilesEntries(levels[n - 1]), 0.0, 0);
    }
  }

  lemma PrefixStep(levels: Levels, l: nat, k: UserKey, s: nat)
    requires Layered(levels) && l < |levels|
    ensures var above := Newest(Prefix(levels, l), k, s);
            Newest(Prefix(levels, l + 1), k, s) == if above.Some? then above else Newest(FilesEntries(levels[l]), k, s)
  {
    hide Layered, NewerByNumber, SortedDisjoint, Newest;
    LayeredShape(levels);
    PrefixDistinct(levels, l);
    PrefixNewer(levels, l);
    LayeredLevel(levels, l);
    NewestLayered(Prefix(levels, l), FilesEntries(levels[l]), k, s);
  }

  /** Once a hit is found the deeper levels are irrelevant. */
  lemma {:induction false} PrefixHit(levels: Levels, n: nat, m: nat, k: UserKey, s: nat)
    requires Layered(levels) && n <= m <= |levels| && Newest(Prefix(levels, n), k, s).Some?
    ensures Newest(Prefix(levels, m), k, s) == Newest(Prefix(levels, n), k, s)
  {
    hide Layered, Newest;
    if n < m {
      PrefixHit(levels, n, m - 1, k, s);
      PrefixStep(levels, m - 1, k, s);
    }
  }

  /** Version::Get: searching level by level finds the newest visible entry of the whole version. */
  method Get(levels: Levels, k: UserKey, s: nat) returns (hit: Option<Entry>)
    requires Layered(levels)
    ensures DistinctKeys(LevelsEntries(levels)) && hit == Newest(LevelsEntries(levels), k, s)
  {
    hide Newest, IsNewest, Layered, NewerByNumber, SortedDisjoint;
    LayeredShape(levels);
    NewestNone(Prefix(levels, 0), k, s);
    PrefixDistinct(levels, |levels|);
    for level := 0 to NUM_LEVELS
      invariant Newest(Prefix(levels, level), k, s) == None
    {
      LayeredLevel(levels, level);
      hit := SearchLevel(levels[level], level, k, s);
      PrefixStep(levels, level, k, s);
      if hit.Some? {
        PrefixHit(levels, level + 1, |levels|, k, s);
        return;
      }
    }
    hit := None;
  }
}
