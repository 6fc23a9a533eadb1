/** Internal keys, their order, sorted runs of entries, and the meaning of a lookup.

    A user key is a real number.  Every countable total order embeds in the order of the reals, so a
    statement for all real keys holds for every user comparator; Comparators.BytewiseEmbeds gives the
    embedding for the default, bytewise one. */
module Keys {
  datatype Option<+T> = None | Some(value: T)

  type Byte = b: int | 0 <= b < 256

  type Bytes = seq<Byte>

  type UserKey = real

  datatype ValueType = TypeDeletion | TypeValue

  // The largest sequence number that leaves room for the type byte in 64 bits.
  const MAX_SEQUENCE: nat := 0xFF_FFFF_FFFF_FFFF

  datatype IKey = IKey(user: UserKey, sequence: nat, kind: ValueType) {
    /** The trailing word of the encoded key: sequence number above, type below. */
    function Tag(): nat {
      sequence * 256 + if kind.TypeValue? then 1 else 0
    }
  }

  datatype Entry = Entry(key: IKey, value: Bytes)

  /** Increasing user key, then decreasing tag. */
  predicate Before(a: IKey, b: IKey) {
    a.user < b.user || (a.user == b.user && a.Tag() > b.Tag())
  }

  lemma SameTag(a: IKey, b: IKey)
    requires a.user == b.user && a.Tag() == b.Tag()
    ensures a == b
  {
    assert a.sequence == b.sequence;
  }

  ghost predicate Sorted(run: seq<Entry>) {
    forall i, j :: 0 <= i < j < |run| ==> Before(run[i].key, run[j].key)
  }

  lemma SortedJoin(a: seq<Entry>, b: seq<Entry>)
    requires Sorted(a) && Sorted(b) && forall x, y | x in a && y in b :: Before(x.key, y.key)
    ensures Sorted(a + b)
  {
  }

  lemma SortedParts(a: seq<Entry>, b: seq<Entry>)
    requires Sorted(a + b)
    ensures Sorted(a) && Sorted(b)
  {
    assert forall i :: 0 <= i < |a| ==> (a + b)[i] == a[i];
    assert forall i :: 0 <= i < |b| ==> (a + b)[|a| + i] == b[i];
  }

  lemma Ordered(run: seq<Entry>, i: nat, j: nat)
    requires Sorted(run) && i < |run| && j < |run|
    ensures i < j <==> Before(run[i].key, run[j].key)
    ensures j < i <==> Before(run[j].key, run[i].key)
  {
  }

  /** The first position whose key is at or after the target. */
  function LowerBound(run: seq<Entry>, target: IKey): (n: nat)
    requires Sorted(run)
    ensures n <= |run|
    ensures forall i :: 0 <= i < n ==> Before(run[i].key, target)
    ensures forall i :: n <= i < |run| ==> !Before(run[i].key, target)
  {
    if run == [] || !Before(run[0].key, target) then 0 else 1 + LowerBound(run[1..], target)
  }

  lemma LowerBoundIs(run: seq<Entry>, target: IKey, p: nat)
    requires Sorted(run) && p <= |run|
    requires forall i :: 0 <= i < p ==> Before(run[i].key, target)
    requires p < |run| ==> !Before(run[p].key, target)
    ensures LowerBound(run, target) == p
  {
    var q := LowerBound(run, target);
    if p < |run| {
      assert !Before(run[p].key, target);
    }
    if q < |run| {
      assert !Before(run[q].key, target);
    }
  }

  /** The key that a lookup of user key k at snapshot s seeks to: it sorts before every entry of k that the
      snapshot may see and after every entry of k that it may not. */
  function SeekKey(k: UserKey, s: nat): IKey {
    IKey(k, s, TypeValue)
  }

  ghost predicate Candidate(e: Entry, k: UserKey, s: nat) {
    e.key.user == k && e.key.sequence <= s
  }

  /** e is the newest entry of k that snapshot s can see in es. */
  ghost predicate IsNewest(es: set<Entry>, k: UserKey, s: nat, e: Entry) {
    e in es && Candidate(e, k, s) && forall x <- es | Candidate(x, k, s) :: x.key.Tag() <= e.key.Tag()
  }

  ghost predicate DistinctKeys(es: set<Entry>) {
    forall x, y :: x in es && y in es && x.key == y.key ==> x == y
  }

  ghost function Newest(es: set<Entry>, k: UserKey, s: nat): (r: Option<Entry>)
    ensures r.Some? ==> IsNewest(es, k, s, r.value)
  {
    if e :| IsNewest(es, k, s, e) then Some(e) else None
  }

  /** What a reader of the database sees: a deletion looks like an absence. */
  function View(r: Option<Entry>): Option<Bytes> {
    if r.Some? && r.value.key.kind.TypeValue? then Some(r.value.value) else None
  }

  lemma NewestExists(es: set<Entry>, k: UserKey, s: nat, x: Entry)
    requires x in es && Candidate(x, k, s)
    ensures Newest(es, k, s).Some?
  {
    var best := x;
    var rest := es;
    while exists y :: y in rest && Candidate(y, k, s) && y.key.Tag() > best.key.Tag()
      invariant best in es && Candidate(best, k, s) && rest <= es
      invariant forall y :: y in es && y !in rest ==> !Candidate(y, k, s) || y.key.Tag() <= best.key.Tag()
      decreases |rest|
    {
      var y :| y in rest && Candidate(y, k, s) && y.key.Tag() > best.key.Tag();
      best, rest := y, rest - {y};
    }
    assert IsNewest(es, k, s, best);
  }

  /** With distinct keys the newest entry is unique, so exhibiting it determines Newest. */
  lemma NewestIs(es: set<Entry>, k: UserKey, s: nat, e: Entry)
    requires DistinctKeys(es) && IsNewest(es, k, s, e)
    ensures Newest(es, k, s) == Some(e)
  {
    var r := Newest(es, k, s);
    assert r.Some?;
    SameTag(r.value.key, e.key);
  }

  lemma NewestNone(es: set<Entry>, k: UserKey, s: nat)
    ensures Newest(es, k, s).None? <==> forall x <- es :: !Candidate(x, k, s)
  {
    if x :| x in es && Candidate(x, k, s) {
      NewestExists(es, k, s, x);
    }
  }

  ghost function Elements(run: seq<Entry>): set<Entry> {
    set e | e in run
  }

  lemma SortedDistinct(run: seq<Entry>)
    requires Sorted(run)
    ensures DistinctKeys(Elements(run))
  {
  }

  /** In a sorted run the newest visible entry is the one at the lower bound of the seek key, if that entry
      has the right user key, and otherwise there is none. */
  lemma NewestInRun(run: seq<Entry>, k: UserKey, s: nat)
    requires Sorted(run)
    ensures var i := LowerBound(run, SeekKey(k, s));
            Newest(Elements(run), k, s) == if i < |run| && run[i].key.user == k then Some(run[i]) else None
  {
    hide Sorted, Newest, IsNewest;
    var i := LowerBound(run, SeekKey(k, s));
    SortedDistinct(run);
    NewestNone(Elements(run), k, s);
    forall j | 0 <= j < |run|
      ensures Candidate(run[j], k, s) ==> i <= j && run[i].key.user == k && run[j].key.Tag() <= run[i].key.Tag()
    {
      CandidatePosition(run, k, s, j);
    }
    if i < |run| && run[i].key.user == k {
      NewestIsAt(run, k, s, i);
    }
  }

  lemma CandidatePosition(run: seq<Entry>, k: UserKey, s: nat, j: nat)
    requires Sorted(run) && j < |run|
    ensures var i := LowerBound(run, SeekKey(k, s));
            Candidate(run[j], k, s) ==> i <= j && run[i].key.user == k && run[j].key.Tag() <= run[i].key.Tag()
  {
    var i := LowerBound(run, SeekKey(k, s));
    if i < |run| {
      Ordered(run, i, j);
      assert !Before(run[i].key, SeekKey(k, s));
    }
  }

  lemma NewestIsAt(run: seq<Entry>, k: UserKey, s: nat, i: nat)
    requires DistinctKeys(Elements(run)) && i < |run| && Candidate(run[i], k, s)
    requires forall j :: 0 <= j < |run| && Candidate(run[j], k, s) ==> run[j].key.Tag() <= run[i].key.Tag()
    ensures Newest(Elements(run), k, s) == Some(run[i])
  {
    assert IsNewest(Elements(run), k, s, run[i]);
    NewestIs(Elements(run), k, s, run[i]);
  }

  /** Every entry of a is newer than every entry of b with the same user key. */
  ghost predicate Newer(a: set<Entry>, b: set<Entry>) {
    forall x, y :: x in a && y in b && x.key.user == y.key.user ==> x.key.Tag() > y.key.Tag()
  }

  /** Searching newer data first and stopping at the first hit finds the newest entry of the union. */
  lemma NewestLayered(a: set<Entry>, b: set<Entry>, k: UserKey, s: nat)
    requires DistinctKeys(a) && DistinctKeys(b) && Newer(a, b)
    ensures DistinctKeys(a + b)
    ensures Newest(a + b, k, s) == if Newest(a, k, s).Some? then Newest(a, k, s) else Newest(b, k, s)
  {
    NewestNone(a, k, s);
    NewestNone(b, k, s);
    NewestNone(a + b, k, s);
    if Newest(a, k, s).Some? {
      assert IsNewest(a + b, k, s, Newest(a, k, s).value);
      NewestIs(a + b, k, s, Newest(a, k, s).value);
    } else if Newest(b, k, s).Some? {
      assert IsNewest(a + b, k, s, Newest(b, k, s).value);
      NewestIs(a + b, k, s, Newest(b, k, s).value);
    }
  }
}
