/** db_impl.cc, DoCompactionWork: which entries a compaction drops, and why no reader notices. */
module CompactionWork {
  import opened Keys
  import opened Versions

  // ----- What is dropped

  /** No file of the levels below the compaction's output covers the user key. */
  ghost predicate BaseLevel(levels: Levels, level: nat, k: UserKey) {
    forall l, i :: level + 2 <= l < |levels| && 0 <= i < |levels[l]| ==> !Covers(levels[l][i], k)
  }

  predicate Covers(f: File, k: UserKey) {
    f.Smallest().user <= k <= f.Largest().user
  }

  ghost function BaseOf(levels: Levels, level: nat): UserKey -> bool {
    k => BaseLevel(levels, level, k)
  }

  /** Rule (A): a newer entry of the same key is already old enough for every reader. */
  ghost predicate Hidden(input: seq<Entry>, s: nat, i: nat)
    requires i < |input|
  {
    i > 0 && input[i - 1].key.user == input[i].key.user && input[i - 1].key.sequence <= s
  }

  /** A tombstone that every reader sees and below which nothing is left to hide. */
  ghost predicate Obsolete(base: UserKey -> bool, e: Entry, s: nat) {
    e.key.kind.TypeDeletion? && e.key.sequence <= s && base(e.key.user)
  }

  ghost predicate Dropped(input: seq<Entry>, s: nat, base: UserKey -> bool, i: nat)
    requires i < |input|
  {
    Hidden(input, s, i) || Obsolete(base, input[i], s)
  }

  /** The entries kept among the first n. */
  ghost function Kept(input: seq<Entry>, s: nat, base: UserKey -> bool, n: nat): seq<Entry>
    requires n <= |input|
  {
    if n == 0 then []
    else if Dropped(input, s, base, n - 1) then Kept(input, s, base, n - 1)
    else Kept(input, s, base, n - 1) + [input[n - 1]]
  }

  lemma {:induction false} KeptMember(input: seq<Entry>, s: nat, base: UserKey -> bool, n: nat, e: Entry)
    requires n <= |input|
    ensures e in Kept(input, s, base, n) <==> exists i :: 0 <= i < n && input[i] == e && !Dropped(input, s, base, i)
  {
    if n > 0 {
      KeptMember(input, s, base, n - 1, e);
    }
  }

  lemma {:induction false} KeptSorted(input: seq<Entry>, s: nat, base: UserKey -> bool, n: nat)
    requires Sorted(input) && n <= |input|
    ensures Sorted(Kept(input, s, base, n))
  {
    if n > 0 {
      KeptSorted(input, s, base, n - 1);
      var kept := Kept(input, s, base, n - 1);
      forall i | 0 <= i < |kept| ensures Before(kept[i].key, input[n - 1].key) {
        KeptMember(input, s, base, n - 1, kept[i]);
        var j :| 0 <= j < n - 1 && input[j] == kept[i] && !Dropped(input, s, base, j);
        Ordered(input, j, n - 1);
      }
    }
  }

  /** Which entries that is, said of each entry alone: none that a newer entry of its key hides from every reader, and
      no tombstone that every reader sees and no deeper file's range reaches. */
  lemma KeptExactly(input: seq<Entry>, s: nat, levels: Levels, level: nat, e: Entry)
    requires Sorted(input)
    ensures e in Kept(input, s, BaseOf(levels, level), |input|) <==>
              && e in input
              && !(exists x :: x in input && x.key.user == e.key.user && x.key.Tag() > e.key.Tag()
                               && x.key.sequence <= s)
              && !(e.key.kind == TypeDeletion && e.key.sequence <= s && NoDeeperFile(levels, level, e.key.user))
  {
    hide Kept, Sorted, NoDeeperFile, BaseLevel;
    KeptMember(input, s, BaseOf(levels, level), |input|, e);
    BaseByRanges(levels, level, e.key.user);
    forall i | 0 <= i < |input| && input[i] == e
      ensures Hidden(input, s, i) <==>
                exists x :: x in input && x.key.user == e.key.user && x.key.Tag() > e.key.Tag() && x.key.sequence <= s
    {
      HiddenByNewer(input, s, i);
    }
  }

  /** No file two or more levels down has the user key in its range. */
  ghost predicate NoDeeperFile(levels: Levels, level: nat, k: UserKey) {
    forall l, f: File :: level + 2 <= l < |levels| && f in levels[l] ==> k < f.Smallest().user || f.Largest().user < k
  }

  lemma BaseByRanges(levels: Levels, level: nat, k: UserKey)
    ensures BaseLevel(levels, level, k) <==> NoDeeperFile(levels, level, k)
  {
    hide GoodTable;
    if BaseLevel(levels, level, k) {
      forall l, f: File | level + 2 <= l < |levels| && f in levels[l]
        ensures k < f.Smallest().user || f.Largest().user < k
      {
        var i :| 0 <= i < |levels[l]| && levels[l][i] == f;
        assert !Covers(levels[l][i], k);
      }
    }
  }

  lemma HiddenByNewer(input: seq<Entry>, s: nat, i: nat)
    requires Sorted(input) && i < |input|
    ensures var e := input[i];
            Hidden(input, s, i) <==>
              exists x :: x in input && x.key.user == e.key.user && x.key.Tag() > e.key.Tag() && x.key.sequence <= s
  {
    hide Sorted;
    var e := input[i];
    if Hidden(input, s, i) {
      Ordered(input, i - 1, i);
      assert input[i - 1] in input;
    }
    if x :| x in input && x.key.user == e.key.user && x.key.Tag() > e.key.Tag() && x.key.sequence <= s {
      var j :| 0 <= j < |input| && input[j] == x;
      Ordered(input, j, i);
      Ordered(input, j, i - 1);
      Ordered(input, i - 1, i);
    }
  }

  // ----- Nobody notices

  ghost predicate SameViews(all: set<Entry>, all': set<Entry>, s: nat) {
    forall k, t :: t >= s ==> View(Newest(all', k, t)) == View(Newest(all, k, t))
  }

  /** The newest outside entry that the oldest snapshot sees below a dropped tombstone is not a value. */
  ghost predicate NothingUncovered(input: seq<Entry>, s: nat, base: UserKey -> bool, outside: set<Entry>) {
    forall i :: 0 <= i < |input| && Obsolete(base, input[i], s) && !Hidden(input, s, i) ==>
                  !Uncovers(input[i], s, outside)
  }

  ghost predicate Uncovers(t: Entry, s: nat, outside: set<Entry>) {
    var c := Newest(outside, t.key.user, s);
    c.Some? && c.value.key.kind.TypeValue? && c.value.key.Tag() < t.key.Tag()
  }

  /** Entries of the tombstone's key that follow it in the input are hidden by it or by one another. */
  lemma HiddenAfter(input: seq<Entry>, s: nat, i: nat, j: nat)
    requires Sorted(input) && i < j < |input| && input[i].key.user == input[j].key.user && input[i].key.sequence <= s
    ensures Hidden(input, s, j)
  {
  }

  /** The newest entry of all, if it is dropped, is a tombstone that only outside entries follow. */
  lemma DroppedNewest(input: seq<Entry>, s: nat, base: UserKey -> bool, outside: set<Entry>, k: UserKey, t: nat,
                      e: Entry)
    returns (i: nat)
    requires Sorted(input) && t >= s && DistinctKeys(Elements(input) + outside)
    requires IsNewest(Elements(input) + outside, k, t, e) && e !in Elements(Kept(input, s, base, |input|)) + outside
    ensures i < |input| && input[i] == e && Obsolete(base, e, s) && !Hidden(input, s, i)
    ensures forall c :: c in Elements(Kept(input, s, base, |input|)) && Candidate(c, k, t) ==> false
  {
    assert e in input;
    i :| 0 <= i < |input| && input[i] == e;
    KeptMember(input, s, base, |input|, e);
    if i > 0 {
      Ordered(input, i - 1, i);
      assert input[i - 1] in Elements(input) + outside;
    }
    forall c | c in Elements(Kept(input, s, base, |input|)) && Candidate(c, k, t) ensures false {
      KeptMember(input, s, base, |input|, c);
      var j :| 0 <= j < |input| && input[j] == c && !Dropped(input, s, base, j);
      assert c in Elements(input) + outside;
      Ordered(input, i, j);
      if i < j {
        HiddenAfter(input, s, i, j);
      }
    }
  }

  /** Replacing the input of a compaction by what it keeps changes what no reader at the oldest snapshot or later
      sees, exactly when no dropped tombstone uncovers a value that stays outside the compaction. */
  lemma CompactionMeaning(input: seq<Entry>, s: nat, base: UserKey -> bool, outside: set<Entry>)
    requires Sorted(input) && DistinctKeys(Elements(input) + outside)
    ensures SameViews(Elements(input) + outside, Elements(Kept(input, s, base, |input|)) + outside, s)
            <==> NothingUncovered(input, s, base, outside)
  {
    hide Newest, IsNewest, Kept, Sorted;
    if NothingUncovered(input, s, base, outside) {
      forall k, t | t >= s
        ensures View(Newest(Elements(Kept(input, s, base, |input|)) + outside, k, t))
                  == View(Newest(Elements(input) + outside, k, t))
      {
        ViewKept(input, s, base, outside, k, t);
      }
    } else {
      var i :| 0 <= i < |input| && Obsolete(base, input[i], s) && !Hidden(input, s, i)
          && Uncovers(input[i], s, outside);
      ViewLost(input, s, base, outside, i);
      assert View(Newest(Elements(Kept(input, s, base, |input|)) + outside, input[i].key.user, s))
             != View(Newest(Elements(input) + outside, input[i].key.user, s));
    }
  }

  lemma KeptSubset(input: seq<Entry>, s: nat, base: UserKey -> bool)
    ensures Elements(Kept(input, s, base, |input|)) <= Elements(input)
  {
    forall e | e in Elements(Kept(input, s, base, |input|)) ensures e in Elements(input) {
      KeptMember(input, s, base, |input|, e);
    }
  }

  lemma ViewKept(input: seq<Entry>, s: nat, base: UserKey -> bool, outside: set<Entry>, k: UserKey, t: nat)
    requires Sorted(input) && t >= s && DistinctKeys(Elements(input) + outside)
    requires NothingUncovered(input, s, base, outside)
    ensures View(Newest(Elements(Kept(input, s, base, |input|)) + outside, k, t))
              == View(Newest(Elements(input) + outside, k, t))
  {
    hide Newest, Kept, Sorted;
    var all, all' := Elements(input) + outside, Elements(Kept(input, s, base, |input|)) + outside;
    KeptSubset(input, s, base);
    NewestNone(all, k, t);
    NewestNone(all', k, t);
    var n := Newest(all, k, t);
    if n.Some? {
      var e := n.value;
      if e in all' {
        assert IsNewest(all', k, t, e);
        NewestIs(all', k, t, e);
      } else {
        var i := DroppedNewest(input, s, base, outside, k, t, e);
        OnlyOutside(input, s, base, outside, k, t, e);
        assert !Uncovers(input[i], s, outside);
      }
    }
  }

  /** With the tombstone e gone, what is left for its key is what the oldest snapshot sees outside. */
  lemma OnlyOutside(input: seq<Entry>, s: nat, base: UserKey -> bool, outside: set<Entry>, k: UserKey, t: nat, e: Entry)
    requires Sorted(input) && t >= s && DistinctKeys(Elements(input) + outside)
    requires IsNewest(Elements(input) + outside, k, t, e) && e !in Elements(Kept(input, s, base, |input|)) + outside
    ensures Newest(Elements(Kept(input, s, base, |input|)) + outside, k, t) == Newest(outside, k, s)
    ensures Newest(outside, k, s).Some? ==> Newest(outside, k, s).value.key.Tag() < e.key.Tag()
  {
    hide Newest, Kept, Sorted;
    var all' := Elements(Kept(input, s, base, |input|)) + outside;
    KeptSubset(input, s, base);
    var i := DroppedNewest(input, s, base, outside, k, t, e);
    NewestNone(all', k, t);
    NewestNone(outside, k, s);
    forall c | c in all' && Candidate(c, k, t) ensures c in outside && Candidate(c, k, s) && c.key.Tag() < e.key.Tag() {
      assert c in Elements(input) + outside;
      if c.key.Tag() == e.key.Tag() {
        SameTag(c.key, e.key);
      }
    }
    var n := Newest(outside, k, s);
    if n.Some? {
      assert IsNewest(all', k, t, n.value);
      NewestIs(all', k, t, n.value);
    }
  }

  lemma ViewLost(input: seq<Entry>, s: nat, base: UserKey -> bool, outside: set<Entry>, i: nat)
    requires Sorted(input) && DistinctKeys(Elements(input) + outside) && i < |input|
    requires Obsolete(base, input[i], s) && !Hidden(input, s, i) && Uncovers(input[i], s, outside)
    ensures View(Newest(Elements(Kept(input, s, base, |input|)) + outside, input[i].key.user, s))
            != View(Newest(Elements(input) + outside, input[i].key.user, s))
  {
    hide Newest, Kept, Sorted;
    var e, k := input[i], input[i].key.user;
    var all := Elements(input) + outside;
    var c := Newest(outside, k, s).value;
    forall x | x in all && Candidate(x, k, s) ensures x.key.Tag() <= e.key.Tag() {
      if x in input {
        var j :| 0 <= j < |input| && input[j] == x;
        Ordered(input, i, j);
        if j < i {
          HiddenAfter(input, s, j, i);
        }
      }
    }
    assert IsNewest(all, k, s, e);
    NewestIs(all, k, s, e);
    assert e !in outside;
    KeptMember(input, s, base, |input|, e);
    forall j | 0 <= j < |input| && input[j] == e ensures j == i {
      Ordered(input, i, j);
    }
    OnlyOutside(input, s, base, outside, k, s, e);
  }

  // ----- Where output files end

  /** How many of the files end before the key. */
  function Passed(files: seq<File>, key: IKey): (n: nat)
    ensures n <= |files| && (forall i :: 0 <= i < n ==> Before(files[i].Largest(), key))
    ensures n < |files| ==> !Before(files[n].Largest(), key)
  {
    if files == [] || !Before(files[0].Largest(), key) then 0 else 1 + Passed(files[1..], key)
  }

  lemma PassedIs(files: seq<File>, key: IKey, n: nat)
    requires n <= |files| && (forall i :: 0 <= i < n ==> Before(files[i].Largest(), key))
    requires n < |files| ==> !Before(files[n].Largest(), key)
    ensures Passed(files, key) == n
  {
    var m := Passed(files, key);
    if m < |files| {
      assert !Before(files[m].Largest(), key);
    }
  }

  function SizeBetween(files: seq<File>, a: nat, b: nat): nat {
    if a <= b <= |files| then TotalFileSize(files[a..b]) else 0
  }

  /** What decides where a compaction cuts its output: the files two levels down and how much of them one output may
      overlap, and when an output is full. */
  datatype Cutting = Cutting(input: seq<Entry>, s: nat, base: UserKey -> bool, grandparents: seq<File>, maxOverlap: nat,
                             full: seq<Entry> -> bool)

  /** The grandparent file up to which the overlap was counted when the count last started, before input entry i. */
  function Since(c: Cutting, i: nat): nat
    requires i < |c.input|
    decreases i, 0
  {
    if i == 0 then Passed(c.grandparents, c.input[0].key)
    else if Stops(c, i - 1) then Passed(c.grandparents, c.input[i - 1].key) else Since(c, i - 1)
  }

  /** The output ends before input entry i. */
  predicate Stops(c: Cutting, i: nat)
    requires i < |c.input|
    decreases i, 1
  {
    SizeBetween(c.grandparents, Since(c, i), Passed(c.grandparents, c.input[i].key)) > c.maxOverlap
  }

  /** That is so when the grandparents passed since the last such place, or since the first key, are larger than the
      limit together. */
  lemma {:induction false} StopsBySize(c: Cutting, j: nat, i: nat)
    requires j < i < |c.input| && (j == 0 || Stops(c, j)) && forall k :: j < k < i ==> !Stops(c, k)
    ensures !Stops(c, 0)
    ensures Stops(c, i) <==>
              SizeBetween(c.grandparents, Passed(c.grandparents, c.input[j].key),
                          Passed(c.grandparents, c.input[i].key))
              > c.maxOverlap
  {
    SinceStart(c, j, i);
    NoSize(c.grandparents, Passed(c.grandparents, c.input[0].key));
  }

  lemma {:induction false} SinceStart(c: Cutting, j: nat, i: nat)
    requires j < i < |c.input| && (j == 0 || Stops(c, j)) && forall k :: j < k < i ==> !Stops(c, k)
    ensures Since(c, i) == Passed(c.grandparents, c.input[j].key)
  {
    NoSize(c.grandparents, Passed(c.grandparents, c.input[0].key));
    if j + 1 < i {
      SinceStart(c, j, i - 1);
    }
  }

  lemma NoSize(files: seq<File>, a: nat)
    ensures SizeBetween(files, a, a) == 0
  {
    assert a <= |files| ==> files[a..a] == [];
  }

  /** The entries kept from index a on up to index b. */
  ghost function KeptFrom(c: Cutting, a: nat, b: nat): seq<Entry>
    requires b <= |c.input|
  {
    if a >= b then []
    else KeptFrom(c, a, b - 1) + if Dropped(c.input, c.s, c.base, b - 1) then [] else [c.input[b - 1]]
  }

  /** An output in the making: nothing ended it since its first entry. */
  ghost predicate Grows(c: Cutting, a: nat, b: nat, run: seq<Entry>) {
    && a <= b <= |c.input| && run == KeptFrom(c, a, b)
    && (forall j :: a <= j < b && Stops(c, j) ==> KeptFrom(c, a, j) == [])
    && forall k :: 0 < k < |run| ==> !c.full(run[..k])
  }

  /** A finished output: it is full, or the next entry stops it, or the input is at its end. */
  ghost predicate Ended(c: Cutting, a: nat, b: nat, run: seq<Entry>) {
    Grows(c, a, b, run) && run != [] && (b == |c.input| || c.full(run) || Stops(c, b))
  }

  function StartOf(ends: seq<nat>, i: nat): nat {
    if 0 < i <= |ends| then ends[i - 1] else 0
  }

  /** Every output took the kept entries from where the one before ended, up to the first place that ends one. */
  ghost predicate WellCut(c: Cutting, outputs: seq<seq<Entry>>, ends: seq<nat>) {
    |ends| == |outputs| && forall i :: 0 <= i < |outputs| ==> Ended(c, StartOf(ends, i), ends[i], outputs[i])
  }

  lemma WellCutMore(c: Cutting, outputs: seq<seq<Entry>>, ends: seq<nat>, b: nat, run: seq<Entry>)
    requires WellCut(c, outputs, ends) && Ended(c, StartOf(ends, |ends|), b, run)
    ensures WellCut(c, outputs + [run], ends + [b])
  {
    hide Ended;
    forall i | 0 <= i <= |outputs| ensures StartOf(ends + [b], i) == StartOf(ends, i) {
    }
  }

  lemma GrowsNext(c: Cutting, a: nat, b: nat, run: seq<Entry>)
    requires Grows(c, a, b, run) && b < |c.input| && (run != [] ==> !c.full(run) && !Stops(c, b))
    ensures Grows(c, a, b + 1, run + if Dropped(c.input, c.s, c.base, b) then [] else [c.input[b]])
  {
    hide Stops, Dropped;
    if Dropped(c.input, c.s, c.base, b) {
      assert run + [] == run;
    } else {
      var longer := run + [c.input[b]];
      forall k | 0 < k < |longer| ensures !c.full(longer[..k]) {
        assert longer[..k] == run[..k] && run[..|run|] == run;
      }
    }
  }

  lemma GrowsNew(c: Cutting, a: nat)
    requires a <= |c.input|
    ensures Grows(c, a, a, [])
  {
  }

  /** The outputs so far and the one in the making, with the first b entries handled. */
  ghost predicate Cut(c: Cutting, outputs: seq<seq<Entry>>, ends: seq<nat>, builder: seq<Entry>, b: nat) {
    && WellCut(c, outputs, ends) && Grows(c, StartOf(ends, |ends|), b, builder)
    && (builder != [] ==> !c.full(builder))
  }

  lemma CutStart(c: Cutting)
    ensures Cut(c, [], [], [], 0)
  {
    GrowsNew(c, 0);
  }

  /** The builder with the next entry, if that is kept; it may be full now. */
  ghost predicate Grown(c: Cutting, outputs: seq<seq<Entry>>, ends: seq<nat>, builder: seq<Entry>, b: nat) {
    WellCut(c, outputs, ends) && Grows(c, StartOf(ends, |ends|), b, builder)
  }

  lemma CutStep(c: Cutting, outputs: seq<seq<Entry>>, ends: seq<nat>, builder: seq<Entry>, i: nat)
    requires Cut(c, outputs, ends, builder, i) && i < |c.input| && (builder != [] ==> !Stops(c, i))
    ensures if Hidden(c.input, c.s, i) || Obsolete(c.base, c.input[i], c.s) then Cut(c, outputs, ends, builder, i + 1)
            else
              && Grown(c, outputs, ends, builder + [c.input[i]], i + 1)
              && (!c.full(builder + [c.input[i]]) ==> Cut(c, outputs, ends, builder + [c.input[i]], i + 1))
  {
    hide Stops, Grows, WellCut, Hidden, Obsolete;
    GrowsNext(c, StartOf(ends, |ends|), i, builder);
    assert builder + [] == builder;
  }

  lemma CutEnd(c: Cutting, outputs: seq<seq<Entry>>, ends: seq<nat>, builder: seq<Entry>, b: nat)
    requires Cut(c, outputs, ends, builder, b) && builder != [] && b <= |c.input| && (b == |c.input| || Stops(c, b))
    ensures Cut(c, outputs + [builder], ends + [b], [], b)
  {
    hide Stops, Grows, WellCut;
    WellCutMore(c, outputs, ends, b, builder);
    GrowsNew(c, b);
  }

  lemma CutFull(c: Cutting, outputs: seq<seq<Entry>>, ends: seq<nat>, builder: seq<Entry>, b: nat)
    requires Grown(c, outputs, ends, builder, b) && builder != [] && b <= |c.input| && c.full(builder)
    ensures Cut(c, outputs + [builder], ends + [b], [], b)
  {
    hide Stops, Grows, WellCut;
    WellCutMore(c, outputs, ends, b, builder);
    GrowsNew(c, b);
  }

  lemma CutDone(c: Cutting, outputs: seq<seq<Entry>>, ends: seq<nat>, builder: seq<Entry>)
    requires Cut(c, outputs, ends, builder, |c.input|)
    ensures WellCut(c, outputs, ends)
  {
  }

  // ----- The work itself

  class Compaction {
    const levels: Levels  // the input version
    const level: nat
    const grandparents: seq<File>
    const maxOverlap: nat
    const levelPtrs: array<nat>
    var grandparentIndex: nat
    var seenKey: bool
    var overlappedBytes: nat
    ghost var last: Option<UserKey>  // the key asked about last
    ghost var since: nat  // where the count of overlapped bytes started

    ghost predicate Valid()
      reads `last, levelPtrs
    {
      && |levels| == NUM_LEVELS && levelPtrs.Length == NUM_LEVELS && level + 1 < NUM_LEVELS
      && (forall l :: 1 <= l < |levels| ==> SortedDisjoint(levels[l]))
      && (forall l :: 0 <= l < |levels| ==> levelPtrs[l] <= |levels[l]|)
      && (forall l, i :: 0 <= l < |levels| && 0 <= i < levelPtrs[l] ==>
              last.Some? && levels[l][i].Largest().user < last.value)
    }

    ghost predicate Counts()
      reads `grandparentIndex, `seenKey, `overlappedBytes, `since
    {
      && since <= grandparentIndex <= |grandparents|
      && overlappedBytes == SizeBetween(grandparents, since, grandparentIndex)
      && (!seenKey ==> grandparentIndex == 0)
    }

    constructor (levels: Levels, level: nat, grandparents: seq<File>, maxOverlap: nat)
      requires Layered(levels) && level + 1 < NUM_LEVELS
      ensures Valid() && last == None && Counts() && !seenKey && fresh(levelPtrs)
      ensures this.levels == levels && this.level == level
      ensures this.grandparents == grandparents && this.maxOverlap == maxOverlap
    {
      this.levels, this.level, this.grandparents, this.maxOverlap := levels, level, grandparents, maxOverlap;
      levelPtrs := new nat[NUM_LEVELS](i => 0);
      grandparentIndex, seenKey, overlappedBytes := 0, false, 0;
      last, since := None, 0;
      new;
      NoSize(grandparents, 0);
    }

    /** Exact for keys asked about in ascending order, although its pointers only move forward. */
    method IsBaseLevelForKey(k: UserKey) returns (r: bool)
      requires Valid() && (last.Some? ==> last.value <= k)
      modifies `last, levelPtrs
      ensures Valid() && last == Some(k)
      ensures r <==> BaseLevel(levels, level, k)
    {
      hide GoodTable, Sorted, SortedDisjoint;
      last := Some(k);
      for l := level + 2 to NUM_LEVELS
        invariant Valid() && last == Some(k)
        invariant forall m, i :: level + 2 <= m < l && 0 <= i < |levels[m]| ==> !Covers(levels[m][i], k)
      {
        var files := levels[l];
        while levelPtrs[l] < |files|
          invariant Valid() && last == Some(k)
          decreases |files| - levelPtrs[l]
        {
          var f := files[levelPtrs[l]];
          if k <= f.Largest().user {
            if k >= f.Smallest().user {
              assert Covers(levels[l][levelPtrs[l]], k);
              return false;
            }
            CoversNone(files, levelPtrs[l], k);
            break;
          }
          levelPtrs[l] := levelPtrs[l] + 1;
        }
        assert forall i :: 0 <= i < |files| ==> !Covers(files[i], k);
      }
      r := true;
    }

    static lemma CoversNone(files: seq<File>, p: nat, k: UserKey)
      requires SortedDisjoint(files) && p < |files| && k < files[p].Smallest().user
      ensures forall i :: p <= i < |files| ==> !Covers(files[i], k)
    {
    }

    /** For keys in ascending order: the grandparents passed since the count started, or since the first key, against
        the limit; beyond it the count starts anew. */
    method ShouldStopBefore(key: IKey) returns (r: bool)
      requires Counts() && grandparentIndex <= Passed(grandparents, key)
      modifies `grandparentIndex, `seenKey, `overlappedBytes, `since
      ensures Counts() && seenKey && grandparentIndex == Passed(grandparents, key)
      ensures var from := if old(seenKey) then old(since) else grandparentIndex;
              && (r <==> SizeBetween(grandparents, from, grandparentIndex) > maxOverlap)
              && since == if r then grandparentIndex else from
    {
      hide GoodTable, Before, SizeBetween;
      while grandparentIndex < |grandparents| && Before(grandparents[grandparentIndex].Largest(), key)
        invariant grandparentIndex <= Passed(grandparents, key) && seenKey == old(seenKey)
        invariant if seenKey then
                    && since == old(since) <= grandparentIndex
                    && overlappedBytes == SizeBetween(grandparents, since, grandparentIndex)
                  else overlappedBytes == old(overlappedBytes)
        decreases |grandparents| - grandparentIndex
      {
        if seenKey {
          SizeStep(grandparents, since, grandparentIndex);
          overlappedBytes := overlappedBytes + grandparents[grandparentIndex].size;
        }
        grandparentIndex := grandparentIndex + 1;
      }
      NoSize(grandparents, old(since));
      NoSize(grandparents, grandparentIndex);
      if !seenKey {
        since := grandparentIndex;
      }
      seenKey := true;
      if overlappedBytes > maxOverlap {
        overlappedBytes := 0;
        since := grandparentIndex;
        return true;
      }
      return false;
    }

    static lemma SizeStep(files: seq<File>, a: nat, b: nat)
      requires a <= b < |files|
      ensures SizeBetween(files, a, b + 1) == SizeBetween(files, a, b) + files[b].size
    {
      assert files[a..b + 1][..b - a] == files[a..b];
    }

    ghost function CuttingOf(input: seq<Entry>, s: nat, full: seq<Entry> -> bool): Cutting {
      Cutting(input, s, BaseOf(levels, level), grandparents, maxOverlap, full)
    }

    /** Passes over the merged input, dropping what no reader can see, and splits the rest into output files.  full
        stands for the size that ends an output file.  The largest sequence number marks a key's first occurrence, so a
        snapshot at that number would drop everything. */
    method DoCompactionWork(input: seq<Entry>, smallestSnapshot: nat, full: seq<Entry> -> bool)
      returns (outputs: seq<seq<Entry>>, ghost ends: seq<nat>)
      requires Valid() && last == None && Counts() && !seenKey
      requires Sorted(input) && forall e <- input :: e.key.sequence <= MAX_SEQUENCE
      modifies this, levelPtrs
      ensures Flatten(outputs)
              == if smallestSnapshot < MAX_SEQUENCE then Kept(input, smallestSnapshot, BaseOf(levels, level), |input|)
                 else []
      ensures forall i :: 0 <= i < |outputs| ==> outputs[i] != []
      ensures smallestSnapshot < MAX_SEQUENCE ==> WellCut(CuttingOf(input, smallestSnapshot, full), outputs, ends)
      ensures smallestSnapshot < MAX_SEQUENCE ==>
                forall e :: e in Flatten(outputs) <==>
                  && e in input
                  && !(exists x :: x in input && x.key.user == e.key.user && x.key.Tag() > e.key.Tag()
                                   && x.key.sequence <= smallestSnapshot)
                  && !(e.key.kind == TypeDeletion && e.key.sequence <= smallestSnapshot
                       && NoDeeperFile(levels, level, e.key.user))
      ensures smallestSnapshot < MAX_SEQUENCE ==>
                forall x, y :: (x in Flatten(outputs) && y in Flatten(outputs) && x.key.user == y.key.user
                                && x.key.sequence <= smallestSnapshot && y.key.sequence <= smallestSnapshot) ==> x == y
    {
      hide *;
      outputs, ends := SplitKept(input, smallestSnapshot, full);
      if smallestSnapshot < MAX_SEQUENCE {
        forall e { KeptExactly(input, smallestSnapshot, levels, level, e); }
        forall x, y | x in Flatten(outputs) && y in Flatten(outputs) && x.key.user == y.key.user
            && x.key.sequence <= smallestSnapshot && y.key.sequence <= smallestSnapshot
          ensures x == y
        {
          OneOfEqualTags(input, x, y);
        }
      }
    }

    static lemma OneOfEqualTags(input: seq<Entry>, x: Entry, y: Entry)
      requires Sorted(input) && x in input && y in input && x.key.user == y.key.user
      ensures x == y || x.key.Tag() < y.key.Tag() || y.key.Tag() < x.key.Tag()
    {
      hide Sorted;
      SortedDistinct(input);
      assert x in Elements(input) && y in Elements(input);
      if x.key.Tag() == y.key.Tag() {
        SameTag(x.key, y.key);
      }
    }

    method SplitKept(input: seq<Entry>, smallestSnapshot: nat, full: seq<Entry> -> bool)
      returns (outputs: seq<seq<Entry>>, ghost ends: seq<nat>)
      requires Valid() && last == None && Counts() && !seenKey
      requires Sorted(input) && forall e <- input :: e.key.sequence <= MAX_SEQUENCE
      modifies this, levelPtrs
      ensures Flatten(outputs)
              == if smallestSnapshot < MAX_SEQUENCE then Kept(input, smallestSnapshot, BaseOf(levels, level), |input|)
                 else []
      ensures forall i :: 0 <= i < |outputs| ==> outputs[i] != []
      ensures smallestSnapshot < MAX_SEQUENCE ==> WellCut(CuttingOf(input, smallestSnapshot, full), outputs, ends)
    {
      hide Sorted, SortedDisjoint, GoodTable, BaseLevel, BaseOf, Flatten, Kept, Dropped, Obsolete, Before, Cut, Grown,
           Stops, Since, Counts, Counted, WellCut, Hidden, Valid;
      ghost var c, sees := CuttingOf(input, smallestSnapshot, full), smallestSnapshot < MAX_SEQUENCE;
      outputs, ends := [], [];
      var builder: seq<Entry> := [];
      var currentUserKey: Option<UserKey> := None;
      var lastSequenceForKey := MAX_SEQUENCE;
      FlattenNone();
      KeptNone(input, smallestSnapshot, BaseOf(levels, level));
      CutStart(c);
      NothingCounted(c);
      for i := 0 to |input|
        invariant Valid() && (last.Some? ==> i > 0 && last.value <= input[i - 1].key.user)
        invariant Counts() && Counted(c, i)
        invariant i == 0 ==> currentUserKey == None && lastSequenceForKey == MAX_SEQUENCE
        invariant i > 0 ==>
                    currentUserKey == Some(input[i - 1].key.user) && lastSequenceForKey == input[i - 1].key.sequence
        invariant Flatten(outputs) + builder
                  == if sees then Kept(input, smallestSnapshot, BaseOf(levels, level), i) else []
        invariant forall j :: 0 <= j < |outputs| ==> outputs[j] != []
        invariant sees ==> Cut(c, outputs, ends, builder, i)
      {
        var e := input[i];
        if i > 0 {
          SortedStep(input, i);
        }
        var stop := StopBefore(e.key, c, i);
        if stop && builder != [] {
          outputs, ends, builder := StopOutput(outputs, ends, builder, c, i, sees);
        }
        if currentUserKey.None? || e.key.user != currentUserKey.value {
          // A user key not met before
          currentUserKey := Some(e.key.user);
          lastSequenceForKey := MAX_SEQUENCE;
        }
        var drop := DropEntry(e, lastSequenceForKey, smallestSnapshot);
        KeptStep(input, smallestSnapshot, BaseOf(levels, level), i);
        HiddenIs(input, smallestSnapshot, i);
        lastSequenceForKey := e.key.sequence;
        if sees {
          CutStep(c, outputs, ends, builder, i);
        }
        if !drop {
          outputs, ends, builder := AddToOutput(outputs, ends, builder, e, full, c, i, sees);
        }
      }
      if builder != [] {
        outputs, ends, builder := StopOutput(outputs, ends, builder, c, |input|, sees);
      }
      if sees {
        CutDone(c, outputs, ends, builder);
      }
    }

    static lemma HiddenIs(input: seq<Entry>, s: nat, i: nat)
      requires i < |input|
      ensures Hidden(input, s, i) <==>
                i > 0 && input[i - 1].key.user == input[i].key.user && input[i - 1].key.sequence <= s
    {
    }

    method AddToOutput(outputs: seq<seq<Entry>>, ghost ends: seq<nat>, builder: seq<Entry>, e: Entry,
                       full: seq<Entry> -> bool, ghost c: Cutting, ghost i: nat, ghost sees: bool)
      returns (outputs': seq<seq<Entry>>, ghost ends': seq<nat>, builder': seq<Entry>)
      requires (forall j :: 0 <= j < |outputs| ==> outputs[j] != []) && c.full == full && i < |c.input|
      requires sees ==>
                 && Grown(c, outputs, ends, builder + [e], i + 1)
                 && (!full(builder + [e]) ==> Cut(c, outputs, ends, builder + [e], i + 1))
      ensures Flatten(outputs') + builder' == Flatten(outputs) + builder + [e]
      ensures forall j :: 0 <= j < |outputs'| ==> outputs'[j] != []
      ensures sees ==> Cut(c, outputs', ends', builder', i + 1)
    {
      hide Flatten, Grown, Cut;
      outputs', ends', builder' := outputs, ends, builder + [e];
      if full(builder') {
        if sees {
          CutFull(c, outputs, ends, builder', i + 1);
        }
        outputs', ends', builder' := FinishOutput(outputs', ends', builder', i + 1);
      }
    }

    method StopOutput(outputs: seq<seq<Entry>>, ghost ends: seq<nat>, builder: seq<Entry>, ghost c: Cutting,
                      ghost i: nat, ghost sees: bool)
      returns (outputs': seq<seq<Entry>>, ghost ends': seq<nat>, builder': seq<Entry>)
      requires builder != [] && (forall j :: 0 <= j < |outputs| ==> outputs[j] != []) && i <= |c.input|
      requires sees ==> Cut(c, outputs, ends, builder, i) && (i == |c.input| || Stops(c, i))
      ensures builder' == [] && Flatten(outputs') + [] == Flatten(outputs') == Flatten(outputs) + builder
      ensures forall j :: 0 <= j < |outputs'| ==> outputs'[j] != []
      ensures sees ==> Cut(c, outputs', ends', builder', i)
    {
      hide Flatten, Cut, Stops;
      if sees {
        CutEnd(c, outputs, ends, builder, i);
      }
      outputs', ends', builder' := FinishOutput(outputs, ends, builder, i);
    }

    method DropEntry(e: Entry, lastSequenceForKey: nat, smallestSnapshot: nat) returns (drop: bool)
      requires Valid() && (last.Some? ==> last.value <= e.key.user)
      modifies `last, levelPtrs
      ensures Valid() && (last == old(last) || last == Some(e.key.user))
      ensures drop <==> lastSequenceForKey <= smallestSnapshot || Obsolete(BaseOf(levels, level), e, smallestSnapshot)
    {
      drop := false;
      if lastSequenceForKey <= smallestSnapshot {
        drop := true;
      } else if e.key.kind.TypeDeletion? && e.key.sequence <= smallestSnapshot {
        drop := IsBaseLevelForKey(e.key.user);
      }
    }

    method FinishOutput(outputs: seq<seq<Entry>>, ghost ends: seq<nat>, builder: seq<Entry>, ghost end: nat)
      returns (outputs': seq<seq<Entry>>, ghost ends': seq<nat>, builder': seq<Entry>)
      requires builder != [] && forall j :: 0 <= j < |outputs| ==> outputs[j] != []
      ensures builder' == [] && outputs' == outputs + [builder] && ends' == ends + [end]
      ensures Flatten(outputs') + [] == Flatten(outputs') == Flatten(outputs) + builder
      ensures forall j :: 0 <= j < |outputs'| ==> outputs'[j] != []
    {
      assert (outputs + [builder])[..|outputs|] == outputs;
      outputs', ends', builder' := outputs + [builder], ends + [end], [];
    }

    /** The count stands where the entries before i leave it. */
    ghost predicate Counted(c: Cutting, i: nat)
      requires i <= |c.input|
      reads `grandparentIndex, `seenKey, `since
    {
      && c.grandparents == grandparents && c.maxOverlap == maxOverlap
      && (seenKey <==> i > 0)
      && (i > 0 ==> grandparentIndex == Passed(grandparents, c.input[i - 1].key)
                    && since == if Stops(c, i - 1) then grandparentIndex else Since(c, i - 1))
    }

    lemma NothingCounted(c: Cutting)
      requires !seenKey && c.grandparents == grandparents && c.maxOverlap == maxOverlap
      ensures Counted(c, 0)
    {
    }

    method StopBefore(key: IKey, ghost c: Cutting, ghost i: nat) returns (r: bool)
      requires i < |c.input| && key == c.input[i].key && Sorted(c.input) && Counts() && Counted(c, i)
      modifies `grandparentIndex, `seenKey, `overlappedBytes, `since
      ensures Counts() && Counted(c, i + 1) && r == Stops(c, i)
    {
      hide Sorted, GoodTable, Before, SizeBetween;
      if i > 0 {
        PassedGrows(grandparents, c.input, i);
      }
      r := ShouldStopBefore(key);
    }

    static lemma PassedGrows(files: seq<File>, input: seq<Entry>, i: nat)
      requires Sorted(input) && 0 < i < |input|
      ensures Passed(files, input[i - 1].key) <= Passed(files, input[i].key)
    {
      hide GoodTable, Sorted;
      Ordered(input, i - 1, i);
      var m := Passed(files, input[i].key);
      if m < |files| {
        assert !Before(files[m].Largest(), input[i].key);
      }
    }

    static lemma KeptNone(input: seq<Entry>, s: nat, base: UserKey -> bool)
      ensures Kept(input, s, base, 0) == []
    {
    }

    static lemma KeptStep(input: seq<Entry>, s: nat, base: UserKey -> bool, i: nat)
      requires i < |input|
      ensures Kept(input, s, base, i + 1)
              == Kept(input, s, base, i) + if Hidden(input, s, i) || Obsolete(base, input[i], s) then [] else [input[i]]
    {
    }

    static lemma SortedStep(input: seq<Entry>, i: nat)
      requires Sorted(input) && 0 < i < |input|
      ensures input[i - 1].key.user <= input[i].key.user
    {
    }
  }

  ghost function Flatten(outputs: seq<seq<Entry>>): seq<Entry> {
    if outputs == [] then [] else Flatten(outputs[..|outputs| - 1]) + outputs[|outputs| - 1]
  }

  lemma FlattenNone()
    ensures Flatten([]) == []
  {
  }
}
