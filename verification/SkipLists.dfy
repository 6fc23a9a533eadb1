/** skiplist.h: the memtable's skip list, whose writer publishes links one at a time while readers walk the list
    without a lock.  A node is a position in the arena; position 0 is the head, and a link to 0 is the null link. */
module SkipLists {
  import opened Keys
  import opened Randoms

  const MAX_HEIGHT: nat := 12

  datatype Node = Node(entry: Entry, height: nat)

  /** next[l][x] is the link of node x at level l; linked[l] says which nodes level l has. */
  datatype State = State(nodes: seq<Node>, next: seq<seq<nat>>, maxHeight: nat, linked: seq<set<nat>>) {
    ghost predicate Shape() {
      && nodes != [] && 1 <= maxHeight <= MAX_HEIGHT
      && |next| == |linked| == MAX_HEIGHT
      && (forall l :: 0 <= l < MAX_HEIGHT ==> |next[l]| == |nodes|)
      && (forall l :: 0 <= l < MAX_HEIGHT ==> Members(linked[l], l))
    }

    ghost predicate Members(level: set<nat>, l: nat) {
      forall x :: x in level ==> 0 < x < |nodes| && l < nodes[x].height
    }

    function Key(x: nat): IKey
      requires x < |nodes|
    {
      nodes[x].entry.key
    }

    /** Node x, possibly the head, lies before node y in list order. */
    predicate InOrder(x: nat, y: nat)
      requires x < |nodes| && 0 < y < |nodes|
    {
      x == 0 || Before(Key(x), Key(y))
    }

    /** The link of x at level l leads to the next node of that level. */
    ghost predicate Link(l: nat, x: nat)
      requires Shape() && l < MAX_HEIGHT && x < |nodes|
    {
      var y := next[l][x];
      && (y != 0 ==> y in linked[l] && InOrder(x, y))
      && forall z <- linked[l] :: InOrder(x, z) ==> y != 0 && (z == y || InOrder(y, z))
    }

    ghost predicate OnLevel(l: nat, x: nat)
      requires Shape() && l < MAX_HEIGHT
    {
      x == 0 || x in linked[l]
    }

    ghost predicate Level(l: nat)
      requires Shape() && l < MAX_HEIGHT
    {
      forall x :: OnLevel(l, x) ==> Link(l, x)
    }

    ghost predicate Nested(l: nat)
      requires Shape() && l < MAX_HEIGHT
    {
      && (0 < l ==> linked[l] <= linked[l - 1])
      && (maxHeight <= l ==> linked[l] == {})
    }

    ghost predicate Distinct()
      requires Shape()
    {
      forall x, y | x in linked[0] && y in linked[0] && x != y :: InOrder(x, y) || InOrder(y, x)
    }

    /** Each level is a strictly sorted list, and a sublist of the one below. */
    ghost predicate Inv() {
      && Shape() && Distinct()
      && (forall l :: 0 <= l < MAX_HEIGHT ==> Level(l))
      && (forall l :: 0 <= l < MAX_HEIGHT ==> Nested(l))
    }

    /** Node y is the answer to a search: the first node of the list at or after the key, or none. */
    ghost predicate FirstAtOrAfter(key: IKey, y: nat)
      requires Shape()
    {
      && (y != 0 ==> y in linked[0] && !Before(Key(y), key))
      && forall z <- linked[0] :: !Before(Key(z), key) ==> y != 0 && (z == y || InOrder(y, z))
    }

    /** The node at which a search for the key may stand: before the key, on level l. */
    ghost predicate Reached(l: nat, x: nat, key: IKey)
      requires Shape() && l < MAX_HEIGHT
    {
      OnLevel(l, x) && (x == 0 || Before(Key(x), key))
    }
  }

  lemma {:induction false} LevelOf(s: State, l: nat)
    requires s.Inv() && l < MAX_HEIGHT
    ensures s.Level(l) && s.Nested(l)
  {
  }

  lemma {:induction false} Below(s: State, l: nat, m: nat)
    requires s.Inv() && m <= l < MAX_HEIGHT
    ensures s.linked[l] <= s.linked[m]
  {
    if m < l {
      LevelOf(s, l);
      Below(s, l - 1, m);
    }
  }

  // ----- The writer's steps

  function NewNode(s: State, e: Entry, height: nat): State {
    s.(nodes := s.nodes + [Node(e, height)], next := seq(|s.next|, l requires 0 <= l < |s.next| => s.next[l] + [0]))
  }

  function SetLink(s: State, l: nat, x: nat, y: nat): State
    requires l < |s.next| && x < |s.next[l]|
  {
    var row: seq<nat> := s.next[l][x := y];
    s.(next := s.next[l := row])
  }

  /** prev[l]->SetNext(l, x): from here on, readers find x at level l. */
  function Publish(s: State, l: nat, x: nat, prev: nat): State
    requires l < |s.next| && prev < |s.next[l]| && l < |s.linked|
  {
    SetLink(s, l, prev, x).(linked := s.linked[l := s.linked[l] + {x}])
  }

  lemma {:induction false} RaiseKeeps(s: State, height: nat)
    requires s.Inv() && s.maxHeight <= height <= MAX_HEIGHT
    ensures s.(maxHeight := height).Inv()
  {
    var t := s.(maxHeight := height);
    assert t.Shape();
    forall l | 0 <= l < MAX_HEIGHT
      ensures t.Level(l) && t.Nested(l)
    {
      LevelOf(s, l);
      forall x | t.OnLevel(l, x)
        ensures t.Link(l, x)
      {
        assert s.OnLevel(l, x) && s.Link(l, x);
      }
    }
  }

  lemma {:induction false} NewNodeKeeps(s: State, e: Entry, height: nat)
    requires s.Inv()
    ensures NewNode(s, e, height).Inv()
  {
    var t := NewNode(s, e, height);
    assert forall x :: 0 <= x < |s.nodes| ==> t.nodes[x] == s.nodes[x];
    assert t.Shape();
    forall l | 0 <= l < MAX_HEIGHT
      ensures t.Level(l) && t.Nested(l)
    {
      LevelOf(s, l);
      forall x | t.OnLevel(l, x)
        ensures t.Link(l, x)
      {
        assert s.OnLevel(l, x) && s.Link(l, x);
      }
    }
  }

  /** A link of a node that the level does not have yet is invisible. */
  lemma {:induction false} SetLinkKeeps(s: State, l: nat, x: nat, y: nat)
    requires s.Inv() && l < MAX_HEIGHT && 0 < x < |s.nodes| && x !in s.linked[l]
    ensures SetLink(s, l, x, y).Inv()
  {
    var t := SetLink(s, l, x, y);
    assert t.Shape();
    forall m | 0 <= m < MAX_HEIGHT
      ensures t.Level(m) && t.Nested(m)
    {
      LevelOf(s, m);
      forall u | t.OnLevel(m, u)
        ensures t.Link(m, u)
      {
        assert s.OnLevel(m, u) && s.Link(m, u);
      }
    }
  }

  /** prev is the last node of level l before x, and x's link already leads to the node behind it. */
  ghost predicate ReadyToPublish(s: State, l: nat, x: nat, prev: nat)
    requires s.Shape()
  {
    && l < s.maxHeight && 0 < x < |s.nodes| && l < s.nodes[x].height && x !in s.linked[l]
    && (0 < l ==> x in s.linked[l - 1])
    && s.OnLevel(l, prev) && s.InOrder(prev, x)
    && s.next[l][x] == s.next[l][prev]
    && var y := s.next[l][prev]; y != 0 ==> y < |s.nodes| && s.InOrder(x, y)
  }

  lemma {:induction false} PublishKeeps(s: State, l: nat, x: nat, prev: nat)
    requires s.Inv() && ReadyToPublish(s, l, x, prev)
    ensures Publish(s, l, x, prev).Inv()
  {
    var t := Publish(s, l, x, prev);
    assert t.Shape();
    forall m | 0 <= m < MAX_HEIGHT
      ensures t.Level(m) && t.Nested(m)
    {
      PublishLevel(s, l, x, prev, m);
    }
    if l == 0 {
      LevelOf(s, 0);
      assert s.Link(0, prev);
    }
  }

  lemma {:induction false} PublishLevel(s: State, l: nat, x: nat, prev: nat, m: nat)
    requires s.Inv() && ReadyToPublish(s, l, x, prev) && m < MAX_HEIGHT
    ensures Publish(s, l, x, prev).Shape()
    ensures Publish(s, l, x, prev).Level(m) && Publish(s, l, x, prev).Nested(m)
  {
    var t := Publish(s, l, x, prev);
    assert t.Shape();
    LevelOf(s, m);
    if 0 < m {
      LevelOf(s, m - 1);
    }
    forall u | t.OnLevel(m, u)
      ensures t.Link(m, u)
    {
      if m != l {
        assert s.OnLevel(m, u) && s.Link(m, u);
      } else {
        PublishLink(s, l, x, prev, u);
      }
    }
  }

  lemma {:induction false} PublishLink(s: State, l: nat, x: nat, prev: nat, u: nat)
    requires s.Inv() && ReadyToPublish(s, l, x, prev)
    requires Publish(s, l, x, prev).Shape() && Publish(s, l, x, prev).OnLevel(l, u)
    ensures Publish(s, l, x, prev).Link(l, u)
  {
    var t := Publish(s, l, x, prev);
    LevelOf(s, l);
    Below(s, l, 0);
    assert s.Link(l, prev);
    assert u != x ==> s.OnLevel(l, u) && s.Link(l, u);
    var y := t.next[l][u];
    forall z | z in t.linked[l] && t.InOrder(u, z)
      ensures y != 0 && (z == y || t.InOrder(y, z))
    {
      if u != x && u != prev && z == x {
        PrevIsAfter(s, l, x, prev, u);
      }
    }
  }

  /** A node before x, other than prev, lies before prev. */
  lemma {:induction false} PrevIsAfter(s: State, l: nat, x: nat, prev: nat, u: nat)
    requires s.Inv() && ReadyToPublish(s, l, x, prev) && s.OnLevel(l, u) && u != prev && s.InOrder(u, x)
    ensures prev != 0 && s.InOrder(u, prev)
  {
    LevelOf(s, l);
    Below(s, l, 0);
    assert s.Link(l, prev);
  }

  ghost predicate Extends(s: State, t: State)
    requires s.Shape() && t.Shape()
  {
    && s.nodes <= t.nodes && s.maxHeight <= t.maxHeight
    && forall l :: 0 <= l < MAX_HEIGHT ==> s.linked[l] <= t.linked[l]
  }

  /** One store of the writer. */
  datatype Store =
    | Raise(height: nat)
    | Allocate(e: Entry, h: nat)
    | Private(l: nat, x: nat, y: nat)
    | Public(l: nat, x: nat, prev: nat)

  ghost predicate Allowed(s: State, w: Store)
    requires s.Inv()
  {
    match w
    case Raise(h) => s.maxHeight <= h <= MAX_HEIGHT
    case Allocate(e, h) => true
    case Private(l, x, y) => l < MAX_HEIGHT && 0 < x < |s.nodes| && x !in s.linked[l]
    case Public(l, x, prev) => ReadyToPublish(s, l, x, prev)
  }

  ghost function Apply(s: State, w: Store): State
    requires s.Inv() && Allowed(s, w)
  {
    match w
    case Raise(h) => s.(maxHeight := h)
    case Allocate(e, h) => NewNode(s, e, h)
    case Private(l, x, y) => SetLink(s, l, x, y)
    case Public(l, x, prev) => Publish(s, l, x, prev)
  }

  /** Every state in between keeps the invariant. */
  lemma {:induction false} StoreKeeps(s: State, w: Store)
    requires s.Inv() && Allowed(s, w)
    ensures Apply(s, w).Inv() && Extends(s, Apply(s, w))
    ensures Apply(s, w).linked[0] == s.linked[0] || (w.Public? && Apply(s, w).linked[0] == s.linked[0] + {w.x})
  {
    match w
    case Raise(h) => RaiseKeeps(s, h);
    case Allocate(e, h) => NewNodeKeeps(s, e, h);
    case Private(l, x, y) => SetLinkKeeps(s, l, x, y);
    case Public(l, x, prev) => PublishKeeps(s, l, x, prev);
  }

  ghost predicate OneStore(s: State, t: State) {
    s.Inv() && exists w: Store :: Allowed(s, w) && t == Apply(s, w)
  }

  /** The states of a run of the writer, one store after the other. */
  ghost predicate Trace(trace: seq<State>) {
    && trace != [] && (forall i :: 0 <= i < |trace| ==> trace[i].Inv())
    && forall i :: 0 <= i < |trace| - 1 ==> OneStore(trace[i], trace[i + 1])
  }

  /** prev is the last node of level l before the key. */
  ghost predicate LastBefore(s: State, l: nat, prev: nat, key: IKey)
    requires s.Shape() && l < MAX_HEIGHT
  {
    && prev < |s.nodes| && s.Reached(l, prev, key)
    && var y := s.next[l][prev]; y != 0 ==> y < |s.nodes| && !Before(s.Key(y), key)
  }

  // ----- A reader among the writer's steps

  /** The states that the reader's loads see, one a load: the writer may take any steps in between. */
  ghost predicate History(states: seq<State>) {
    && (forall i :: 0 <= i < |states| ==> states[i].Inv())
    && forall i, j :: 0 <= i <= j < |states| ==> Extends(states[i], states[j])
  }

  lemma ExtendsTransitive(s: State, t: State, u: State)
    requires s.Shape() && t.Shape() && u.Shape() && Extends(s, t) && Extends(t, u)
    ensures Extends(s, u)
  {
  }

  lemma {:induction false} TraceExtends(trace: seq<State>, i: nat, j: nat)
    requires Trace(trace) && i <= j < |trace|
    ensures trace[i].Shape() && trace[j].Shape() && Extends(trace[i], trace[j])
    decreases j
  {
    hide Extends, State.Inv, Apply, Allowed;
    InvShape(trace[i]);
    InvShape(trace[j]);
    if i == j {
      ExtendsItself(trace[i]);
    } else {
      TraceExtends(trace, i, j - 1);
      assert OneStore(trace[j - 1], trace[j]);
      var w: Store :| Allowed(trace[j - 1], w) && trace[j] == Apply(trace[j - 1], w);
      StoreKeeps(trace[j - 1], w);
      ExtendsTransitive(trace[i], trace[j - 1], trace[j]);
    }
  }

  lemma ExtendsItself(s: State)
    requires s.Shape()
    ensures Extends(s, s)
  {
  }

  /** Any loads, in order, among the stores of the writer see a history: load number i comes after moments[i] stores. */
  ghost predicate Moments(moments: seq<nat>, trace: seq<State>) {
    && (forall i :: 0 <= i < |moments| ==> moments[i] < |trace|)
    && forall i, j :: 0 <= i <= j < |moments| ==> moments[i] <= moments[j]
  }

  function Seen(trace: seq<State>, moments: seq<nat>): seq<State>
    requires Moments(moments, trace)
  {
    seq(|moments|, i requires 0 <= i < |moments| => trace[moments[i]])
  }

  lemma {:induction false} SeenIsHistory(trace: seq<State>, moments: seq<nat>)
    requires Trace(trace) && Moments(moments, trace)
    ensures History(Seen(trace, moments))
  {
    hide Extends, State.Inv, OneStore;
    var states := Seen(trace, moments);
    forall i, j | 0 <= i <= j < |states|
      ensures states[i].Shape() && states[j].Shape() && Extends(states[i], states[j])
    {
      TraceExtends(trace, moments[i], moments[j]);
    }
  }

  function Load(s: State, l: nat, x: nat): nat {
    if l < |s.next| && x < |s.next[l]| then s.next[l][x] else 0
  }

  predicate KeyIsAfterNode(s: State, key: IKey, x: nat) {
    x != 0 && x < |s.nodes| && Before(s.Key(x), key)
  }

  /** Where a search ends: the node before the key, the one behind that, and the number of the last load. */
  datatype Hit = Hit(before: nat, node: nat, load: nat)

  /** FindGreaterOrEqual, which returns node, and FindLessThan, which returns before, from node x on level l: the loads
      from number i on see the given states; None if the states run out first. */
  function Search(states: seq<State>, i: nat, key: IKey, l: nat, x: nat): (r: Option<Hit>)
    decreases |states| - i
  {
    if i >= |states| then None
    else
      var next := Load(states[i], l, x);
      if KeyIsAfterNode(states[i], key, next) then Search(states, i + 1, key, l, next)
      else if l == 0 then Some(Hit(x, next, i))
      else Search(states, i + 1, key, l - 1, x)
  }

  /** FindLast in the same way: the last node and the number of the last load. */
  function SearchLast(states: seq<State>, i: nat, l: nat, x: nat): (r: Option<(nat, nat)>)
    decreases |states| - i
  {
    if i >= |states| then None
    else
      var next := Load(states[i], l, x);
      if next != 0 then SearchLast(states, i + 1, l, next)
      else if l == 0 then Some((x, i))
      else SearchLast(states, i + 1, l - 1, x)
  }

  lemma {:induction false} LoadLink(s: State, l: nat, x: nat)
    requires s.Inv() && l < MAX_HEIGHT && s.OnLevel(l, x)
    ensures s.Link(l, x) && Load(s, l, x) == s.next[l][x]
    ensures Load(s, l, x) != 0 ==>
              s.OnLevel(l, Load(s, l, x)) && Load(s, l, x) < |s.nodes| && s.InOrder(x, Load(s, l, x))
  {
    LevelOf(s, l);
    assert s.Link(l, x);
  }

  /** A search that runs while the writer works finds what was there at its last load: the first node of the list at or
      after the key, and the last one before it, at that moment. */
  lemma {:induction false} SearchIsAtomic(states: seq<State>, i: nat, key: IKey, l: nat, x: nat)
    requires History(states) && i <= |states| && l < MAX_HEIGHT
    requires i < |states| ==> states[i].Reached(l, x, key)
    ensures var r := Search(states, i, key, l, x);
            r.Some? ==>
              && i <= r.value.load < |states| && states[r.value.load].FirstAtOrAfter(key, r.value.node)
              && LastBefore(states[r.value.load], 0, r.value.before, key)
    decreases |states| - i
  {
    if i < |states| {
      var s := states[i];
      LoadLink(s, l, x);
      var next := Load(s, l, x);
      if KeyIsAfterNode(s, key, next) {
        if i + 1 < |states| {
          StillReached(s, states[i + 1], l, next, key);
        }
        SearchIsAtomic(states, i + 1, key, l, next);
      } else if l == 0 {
        FoundFirst(s, x, key);
      } else {
        LevelOf(s, l);
        if i + 1 < |states| {
          StillReached(s, states[i + 1], l - 1, x, key);
        }
        SearchIsAtomic(states, i + 1, key, l - 1, x);
      }
    }
  }

  lemma {:induction false} StillReached(s: State, t: State, l: nat, x: nat, key: IKey)
    requires s.Inv() && t.Inv() && Extends(s, t) && l < MAX_HEIGHT && s.Reached(l, x, key)
    ensures t.Reached(l, x, key)
  {
  }

  lemma {:induction false} FoundFirst(s: State, x: nat, key: IKey)
    requires s.Inv() && s.Reached(0, x, key) && !KeyIsAfterNode(s, key, s.next[0][x])
    ensures s.FirstAtOrAfter(key, s.next[0][x]) && LastBefore(s, 0, x, key)
  {
    LoadLink(s, 0, x);
  }

  lemma {:induction false} StillOnLevel(s: State, t: State, l: nat, x: nat)
    requires s.Inv() && t.Inv() && Extends(s, t) && l < MAX_HEIGHT && s.OnLevel(l, x)
    ensures t.OnLevel(l, x) && (0 < l ==> t.OnLevel(l - 1, x))
  {
    LevelOf(t, l);
  }

  /** FindLast among the writer's stores finds the last node of the list at its last load. */
  lemma {:induction false} SearchLastIsAtomic(states: seq<State>, i: nat, l: nat, x: nat)
    requires History(states) && i <= |states| && l < MAX_HEIGHT
    requires i < |states| ==> states[i].OnLevel(l, x)
    ensures var r := SearchLast(states, i, l, x);
            r.Some? ==>
              && i <= r.value.1 < |states| && states[r.value.1].OnLevel(0, r.value.0)
              && forall z <- states[r.value.1].linked[0] :: !states[r.value.1].InOrder(r.value.0, z)
    decreases |states| - i
  {
    if i < |states| {
      var s := states[i];
      LoadLink(s, l, x);
      var next := Load(s, l, x);
      if next != 0 {
        if i + 1 < |states| {
          StillOnLevel(s, states[i + 1], l, next);
        }
        SearchLastIsAtomic(states, i + 1, l, next);
      } else if l > 0 {
        if i + 1 < |states| {
          StillOnLevel(s, states[i + 1], l, x);
        }
        SearchLastIsAtomic(states, i + 1, l - 1, x);
      }
    }
  }

  /** So whatever stores a writer does between the loads of a search from the head, the search answers for the list as
      it was after some number of those stores. */
  lemma {:induction false} SearchDuringWrites(trace: seq<State>, moments: seq<nat>, key: IKey, l: nat)
    requires Trace(trace) && Moments(moments, trace) && l < MAX_HEIGHT
    ensures var r := Search(Seen(trace, moments), 0, key, l, 0);
            r.Some? ==>
              && r.value.load < |moments|
              && trace[moments[r.value.load]].Inv() && trace[moments[r.value.load]].FirstAtOrAfter(key, r.value.node)
              && LastBefore(trace[moments[r.value.load]], 0, r.value.before, key)
    ensures var r := SearchLast(Seen(trace, moments), 0, l, 0);
            r.Some? ==>
              && r.value.1 < |moments| && trace[moments[r.value.1]].Inv()
                  && trace[moments[r.value.1]].OnLevel(0, r.value.0)
              && forall z <- trace[moments[r.value.1]].linked[0] :: !trace[moments[r.value.1]].InOrder(r.value.0, z)
  {
    hide Search, SearchLast, Trace, LastBefore;
    SeenIsHistory(trace, moments);
    SearchIsAtomic(Seen(trace, moments), 0, key, l, 0);
    SearchLastIsAtomic(Seen(trace, moments), 0, l, 0);
  }

  // ----- How many loads a search needs

  ghost function Behind(s: State, x: nat): set<nat>
    requires s.Shape() && x < |s.nodes|
  {
    set z | z in s.linked[0] && s.InOrder(x, z)
  }

  lemma {:induction false} BehindShrinks(s: State, x: nat, y: nat)
    requires s.Inv() && x < |s.nodes| && y in s.linked[0] && s.InOrder(x, y)
    ensures |Behind(s, y)| < |Behind(s, x)|
  {
    assert Behind(s, y) < Behind(s, x) by {
      assert y in Behind(s, x) && y !in Behind(s, y);
    }
    SmallerSet(Behind(s, y), Behind(s, x));
  }

  lemma SmallerSet(a: set<nat>, b: set<nat>)
    requires a < b
    ensures |a| < |b|
  {
    assert b == a + (b - a);
  }

  /** A search needs at most one load for each level left and one for each node behind it: the writer cannot hold it up
      otherwise. */
  lemma {:induction false} SearchEnds(states: seq<State>, i: nat, key: IKey, l: nat, x: nat)
    requires History(states) && i < |states| && l < MAX_HEIGHT && states[i].Reached(l, x, key)
    requires x < |states[|states| - 1].nodes| && i + l + |Behind(states[|states| - 1], x)| < |states|
    ensures Search(states, i, key, l, x).Some?
    decreases |states| - i
  {
    var s, last := states[i], states[|states| - 1];
    LoadLink(s, l, x);
    var next := Load(s, l, x);
    if KeyIsAfterNode(s, key, next) {
      Below(s, l, 0);
      assert Extends(s, last);
      BehindShrinks(last, x, next);
      StillReached(s, states[i + 1], l, next, key);
      SearchEnds(states, i + 1, key, l, next);
    } else if l > 0 {
      LevelOf(s, l);
      StillReached(s, states[i + 1], l - 1, x, key);
      SearchEnds(states, i + 1, key, l - 1, x);
    }
  }

  lemma {:induction false} SearchLastEnds(states: seq<State>, i: nat, l: nat, x: nat)
    requires History(states) && i < |states| && l < MAX_HEIGHT && states[i].OnLevel(l, x)
    requires x < |states[|states| - 1].nodes| && i + l + |Behind(states[|states| - 1], x)| < |states|
    ensures SearchLast(states, i, l, x).Some?
    decreases |states| - i
  {
    var s, last := states[i], states[|states| - 1];
    LoadLink(s, l, x);
    var next := Load(s, l, x);
    if next != 0 {
      Below(s, l, 0);
      assert Extends(s, last);
      BehindShrinks(last, x, next);
      StillOnLevel(s, states[i + 1], l, next);
      SearchLastEnds(states, i + 1, l, next);
    } else if l > 0 {
      StillOnLevel(s, states[i + 1], l, x);
      SearchLastEnds(states, i + 1, l - 1, x);
    }
  }

  // ----- The list

  /** In every state the list has the old nodes, or the old ones and x. */
  ghost predicate OldOrNew(trace: seq<State>, old_: set<nat>, x: nat) {
    forall t <- trace :: t.linked != [] && (t.linked[0] == old_ || t.linked[0] == old_ + {x})
  }

  lemma {:induction false} TraceStep(trace: seq<State>, w: Store)
    requires Trace(trace) && Allowed(trace[|trace| - 1], w)
    ensures Trace(trace + [Apply(trace[|trace| - 1], w)])
  {
    StoreKeeps(trace[|trace| - 1], w);
    assert OneStore(trace[|trace| - 1], Apply(trace[|trace| - 1], w));
    hide OneStore, State.Inv, Apply, Allowed;
  }

  class SkipList {
    const rnd: Random
    var nodes: seq<Node>
    var next: seq<seq<nat>>
    var maxHeight: nat
    ghost var linked: seq<set<nat>>

    ghost function Current(): State
      reads this
    {
      State(nodes, next, maxHeight, linked)
    }

    ghost predicate Valid()
      reads this, rnd
    {
      Current().Inv() && rnd.Valid()
    }

    constructor ()
      ensures Valid() && linked[0] == {} && fresh(rnd) && rnd.seed == 0x5EADBEEF
    {
      rnd := new Random(0xDEADBEEF);
      nodes := [Node(Entry(IKey(0.0, 0, TypeDeletion), []), MAX_HEIGHT)];
      next := seq(MAX_HEIGHT, _ => [0]);
      maxHeight := 1;
      linked := seq(MAX_HEIGHT, _ => {});
      new;
      assert forall l :: 0 <= l < MAX_HEIGHT ==> Current().Level(l) && Current().Nested(l);
    }

    function Next(x: nat, l: nat): nat
      requires l < |next| && x < |next[l]|
      reads this
    {
      next[l][x]
    }

    function KeyIsAfter(key: IKey, x: nat): bool
      requires x < |nodes|
      reads this
    {
      x != 0 && Before(nodes[x].entry.key, key)
    }

    /** The first node at or after the key, or 0; prev[l] is the last node before the key on level l. */
    method FindGreaterOrEqual(key: IKey) returns (y: nat, prev: seq<nat>)
      requires Valid()
      ensures y < |nodes| && Current().FirstAtOrAfter(key, y) && |prev| == MAX_HEIGHT
      ensures forall l :: 0 <= l < maxHeight ==> LastBefore(Current(), l, prev[l], key)
    {
      ghost var s := Current();
      var x: nat, level: nat := 0, maxHeight - 1;
      prev := seq(MAX_HEIGHT, _ => 0);
      while true
        invariant level < maxHeight && x < |nodes| && s.Reached(level, x, key) && |prev| == MAX_HEIGHT
        invariant forall l :: level < l < maxHeight ==> LastBefore(s, l, prev[l], key)
        decreases level, |Behind(s, x)|
      {
        LoadLink(s, level, x);
        var n := Next(x, level);
        if KeyIsAfter(key, n) {
          Below(s, level, 0);
          BehindShrinks(s, x, n);
          x := n;
        } else {
          prev := prev[level := x];
          if level == 0 {
            FoundFirst(s, x, key);
            return n, prev;
          }
          LevelOf(s, level);
          level := level - 1;
        }
      }
    }

    /** The last node before the key, or the head. */
    method FindLessThan(key: IKey) returns (x: nat)
      requires Valid()
      ensures x < |nodes| && LastBefore(Current(), 0, x, key)
    {
      ghost var s := Current();
      x := 0;
      var level: nat := maxHeight - 1;
      while true
        invariant level < maxHeight && x < |nodes| && s.Reached(level, x, key)
        decreases level, |Behind(s, x)|
      {
        LoadLink(s, level, x);
        var n := Next(x, level);
        if n == 0 || !Before(nodes[n].entry.key, key) {
          if level == 0 {
            return;
          }
          LevelOf(s, level);
          level := level - 1;
        } else {
          Below(s, level, 0);
          BehindShrinks(s, x, n);
          x := n;
        }
      }
    }

    /** The last node, or the head. */
    method FindLast() returns (x: nat)
      requires Valid()
      ensures x < |nodes| && Current().OnLevel(0, x) && next[0][x] == 0
    {
      ghost var s := Current();
      x := 0;
      var level: nat := maxHeight - 1;
      while true
        invariant level < maxHeight && x < |nodes| && s.OnLevel(level, x)
        decreases level, |Behind(s, x)|
      {
        LoadLink(s, level, x);
        var n := Next(x, level);
        if n == 0 {
          if level == 0 {
            return;
          }
          LevelOf(s, level);
          level := level - 1;
        } else {
          Below(s, level, 0);
          BehindShrinks(s, x, n);
          x := n;
        }
      }
    }

    /** One more than the number of draws divisible by 4 before the first that is not, up to the greatest height. */
    static ghost predicate Drawn(seed: nat, height: nat) {
      && 1 <= height <= MAX_HEIGHT
      && (forall i :: 1 <= i < height ==> After(seed, i) % 4 == 0)
      && (height < MAX_HEIGHT ==> After(seed, height) % 4 != 0)
    }

    method RandomHeight() returns (height: nat)
      requires rnd.Valid()
      modifies rnd
      ensures rnd.Valid() && Drawn(old(rnd.seed), height)
      ensures rnd.seed == After(old(rnd.seed), if height < MAX_HEIGHT then height else MAX_HEIGHT - 1)
    {
      height := 1;
      var go := true;
      while go && height < MAX_HEIGHT
        invariant rnd.Valid() && 1 <= height <= MAX_HEIGHT
        invariant forall i :: 1 <= i < height ==> After(old(rnd.seed), i) % 4 == 0
        invariant rnd.seed == After(old(rnd.seed), if go then height - 1 else height)
        invariant !go ==> height < MAX_HEIGHT && After(old(rnd.seed), height) % 4 != 0
        decreases MAX_HEIGHT - height, go
      {
        var r := rnd.Next();
        if r % 4 == 0 {
          height := height + 1;
        } else {
          go := false;
        }
      }
    }

    /** Inserts an entry whose key is not in the list.  The trace lists the state after every store: in each of them
        the list has either the old entries or the old ones and the new one. */
    method Insert(e: Entry) returns (ghost trace: seq<State>)
      requires Valid()
      requires forall z <- linked[0] :: nodes[z].entry.key.user != e.key.user || nodes[z].entry.key.Tag() != e.key.Tag()
      modifies this, rnd
      ensures Valid() && Trace(trace) && trace[0] == old(Current()) && trace[|trace| - 1] == Current()
      ensures OldOrNew(trace, old(linked[0]), old(|nodes|))
      ensures linked[0] == old(linked[0]) + {old(|nodes|)}
      ensures nodes[..old(|nodes|)] == old(nodes) && |nodes| == old(|nodes|) + 1 && nodes[old(|nodes|)].entry == e
      ensures var height := nodes[old(|nodes|)].height;
              && Drawn(old(rnd.seed), height)
              && maxHeight == (if height > old(maxHeight) then height else old(maxHeight))
              && forall l :: 0 <= l < MAX_HEIGHT ==>
                   linked[l] == old(linked)[l] + if l < height then {old(|nodes|)} else {}
    {
      hide Drawn, Trace, OldOrNew, LastBefore, State.Inv;
      ghost var s := Current();
      var _, prev := FindGreaterOrEqual(e.key);
      var height := RandomHeight();
      HeightBound(old(rnd.seed), height);
      prev := FillPrev(prev, height, e.key);
      trace := Allocate(e, height);
      ghost var t := Current();
      forall l | 0 <= l < height
        ensures LastBefore(t, l, prev[l], e.key)
      {
        AllocateKeepsLast(s, t, l, prev[l], e, height);
      }
      trace := LinkAll(|nodes| - 1, prev, height, trace, s);
    }

    static lemma HeightBound(seed: nat, height: nat)
      requires Drawn(seed, height)
      ensures 1 <= height <= MAX_HEIGHT
    {
    }

    /** Levels that the list does not have yet start at the head. */
    method FillPrev(prev: seq<nat>, height: nat, key: IKey) returns (filled: seq<nat>)
      requires Current().Inv() && |prev| == MAX_HEIGHT && height <= MAX_HEIGHT
      requires forall l :: 0 <= l < maxHeight ==> LastBefore(Current(), l, prev[l], key)
      ensures |filled| == MAX_HEIGHT && forall l :: 0 <= l < height ==> LastBefore(Current(), l, filled[l], key)
    {
      hide LastBefore;
      filled := prev;
      if height > maxHeight {
        for i := maxHeight to height
          invariant |filled| == MAX_HEIGHT
          invariant forall l :: 0 <= l < i ==> LastBefore(Current(), l, filled[l], key)
        {
          HeadIsLast(Current(), i, key);
          filled := filled[i := 0];
        }
      }
    }

    method LinkAll(x: nat, prev: seq<nat>, height: nat, ghost trace: seq<State>, ghost s: State)
      returns (ghost longer: seq<State>)
      requires s.Inv() && Current().Inv() && trace != [] && Trace(trace) && trace[|trace| - 1] == Current()
      requires x == |s.nodes| && |nodes| == x + 1 && nodes[..x] == s.nodes && linked == s.linked
      requires |prev| == MAX_HEIGHT && 1 <= height <= maxHeight && nodes[x].height == height
      requires OldOrNew(trace, s.linked[0], x)
      requires forall z <- s.linked[0] ::
                 s.Key(z).user != nodes[x].entry.key.user || s.Key(z).Tag() != nodes[x].entry.key.Tag()
      requires forall l :: 0 <= l < height ==> LastBefore(Current(), l, prev[l], nodes[x].entry.key)
      modifies `next, `linked
      ensures Current().Inv() && longer != [] && Trace(longer) && longer[0] == trace[0]
              && longer[|longer| - 1] == Current()
      ensures OldOrNew(longer, s.linked[0], x)
      ensures |linked| == |s.linked| == MAX_HEIGHT
              && forall l :: 0 <= l < MAX_HEIGHT ==> linked[l] == s.linked[l] + if l < height then {x} else {}
    {
      hide Trace, OldOrNew, NotYet, LastBefore, State.Inv, State.Key;
      ghost var t := Current();
      longer := trace;
      InvShape(s);
      InvShape(t);
      for i := 0 to height
        invariant Current().Inv() && |linked| == |next| == MAX_HEIGHT
        invariant longer != [] && Trace(longer) && longer[0] == trace[0] && longer[|longer| - 1] == Current()
        invariant forall l :: 0 <= l < i ==> linked[l] == s.linked[l] + {x}
        invariant forall l :: i <= l < MAX_HEIGHT ==> linked[l] == s.linked[l] && next[l] == t.next[l]
        invariant OldOrNew(longer, s.linked[0], x)
      {
        ghost var now := Current();
        InvShape(now);
        NotYetLinked(s, t, now, i, x, prev[i], nodes[x].entry);
        longer := LinkLevel(i, x, prev[i], longer, s.linked[0]);
        InvShape(Current());
      }
    }

    /** Raises max_height_ if needed and allocates the node, which no link leads to yet. */
    method Allocate(e: Entry, height: nat) returns (ghost trace: seq<State>)
      requires Current().Inv() && 1 <= height <= MAX_HEIGHT
      modifies `maxHeight, `nodes, `next
      ensures trace != [] && Trace(trace) && trace[0] == old(Current()) && trace[|trace| - 1] == Current()
      ensures OldOrNew(trace, linked[0], old(|nodes|))
      ensures Current().Inv() && nodes == old(nodes) + [Node(e, height)] && height <= maxHeight
      ensures maxHeight == if height > old(maxHeight) then height else old(maxHeight)
      ensures forall l :: 0 <= l < MAX_HEIGHT ==> next[l] == old(next[l]) + [0]
    {
      trace := [Current()];
      if height > maxHeight {
        trace := Stored(trace, Current(), Raise(height), linked[0], |nodes|);
        maxHeight := height;
      }
      trace := Stored(trace, Current(), Store.Allocate(e, height), linked[0], |nodes|);
      var links := next;
      var row: seq<seq<nat>> := seq(|links|, l requires 0 <= l < |links| => links[l] + [0]);
      nodes, next := nodes + [Node(e, height)], row;
    }

    /** Links x in at one level: first its own link, which nobody sees, then the one that leads to it. */
    method LinkLevel(l: nat, x: nat, prev: nat, ghost trace: seq<State>, ghost old_: set<nat>)
      returns (ghost longer: seq<State>)
      requires Current().Inv() && trace != [] && Trace(trace) && trace[|trace| - 1] == Current()
      requires NotYet(Current(), l, x, prev)
      requires OldOrNew(trace, old_, x) && (if l == 0 then linked[0] == old_ else linked[0] == old_ + {x})
      modifies `next, `linked
      ensures Current().Inv() && longer != [] && Trace(longer) && longer[0] == trace[0]
              && longer[|longer| - 1] == Current()
      ensures OldOrNew(longer, old_, x)
      ensures linked == old(linked)[l := old(linked[l]) + {x}]
      ensures |next| == old(|next|) && forall m :: 0 <= m < MAX_HEIGHT && m != l ==> next[m] == old(next[m])
    {
      var link: seq<nat> := next[l][x := next[l][prev]];
      longer := Stored(trace, Current(), Private(l, x, next[l][prev]), old_, x);
      next := next[l := link];
      var publish: seq<nat> := next[l][prev := x];
      longer := Stored(longer, Current(), Public(l, x, prev), old_, x);
      next := next[l := publish];
      linked := linked[l := linked[l] + {x}];
    }
  }

  /** x is not on level l yet, and prev is where it goes. */
  ghost predicate NotYet(s: State, l: nat, x: nat, prev: nat)
    requires s.Shape()
  {
    && l < s.maxHeight && 0 < x < |s.nodes| && l < s.nodes[x].height && x !in s.linked[l]
    && (0 < l ==> x in s.linked[l - 1])
    && s.OnLevel(l, prev) && s.InOrder(prev, x) && prev != x
    && var y := s.next[l][prev]; y != 0 ==> y < |s.nodes| && s.InOrder(x, y)
  }

  lemma {:induction false} NotYetLinked(s: State, t: State, now: State, l: nat, x: nat, prev: nat, e: Entry)
    requires s.Inv() && t.Inv() && now.Inv() && l < now.maxHeight
    requires LastBefore(t, l, prev, e.key) && t.linked == s.linked
    requires forall z <- s.linked[0] :: s.Key(z).user != e.key.user || s.Key(z).Tag() != e.key.Tag()
    requires x == |s.nodes| && |t.nodes| == x + 1 && t.nodes[..x] == s.nodes && t.nodes[x].entry == e
             && l < t.nodes[x].height
    requires now.nodes == t.nodes && now.next[l] == t.next[l] && now.linked[l] == s.linked[l]
    requires 0 < l ==> x in now.linked[l - 1]
    ensures NotYet(now, l, x, prev)
  {
    LevelOf(s, l);
    Below(s, l, 0);
    LoadLink(t, l, prev);
  }

  lemma {:induction false} HeadIsLast(s: State, l: nat, key: IKey)
    requires s.Inv() && s.maxHeight <= l < MAX_HEIGHT
    ensures LastBefore(s, l, 0, key)
  {
    LoadLink(s, l, 0);
    LevelOf(s, l);
  }

  lemma {:induction false} InvShape(s: State)
    requires s.Inv()
    ensures s.Shape()
  {
  }

  lemma {:induction false} AllocateKeepsLast(s: State, t: State, l: nat, prev: nat, e: Entry, height: nat)
    requires s.Inv() && l < MAX_HEIGHT && LastBefore(s, l, prev, e.key)
    requires t.Shape() && t.nodes == s.nodes + [Node(e, height)] && t.linked == s.linked
    requires t.next[l] == s.next[l] + [0]
    ensures LastBefore(t, l, prev, e.key)
  {
    LoadLink(s, l, prev);
  }

  lemma {:induction false} Stored(trace: seq<State>, s: State, w: Store, old_: set<nat>, x: nat)
    returns (longer: seq<State>)
    requires Trace(trace) && trace[|trace| - 1] == s && Allowed(s, w) && OldOrNew(trace, old_, x)
    requires w.Public? ==> w.x == x
    ensures Trace(longer) && longer[0] == trace[0] && longer[|longer| - 1] == Apply(s, w)
    ensures OldOrNew(longer, old_, x)
    ensures Apply(s, w).Inv()
  {
    TraceStep(trace, w);
    StoreKeeps(s, w);
    longer := trace + [Apply(s, w)];
    assert s in trace;
  }

  // ----- Iterating

  /** The entries of the list in order. */
  ghost predicate IsRun(s: State, run: seq<Entry>)
    requires s.Shape()
  {
    && Sorted(run)
    && (forall z <- s.linked[0] :: s.nodes[z].entry in run)
    && forall e <- run :: exists z :: z in s.linked[0] && s.nodes[z].entry == e
  }

  /** The node of the entry at position i; at the end, the null node. */
  ghost predicate NodeAt(s: State, run: seq<Entry>, i: nat, x: nat)
    requires s.Shape() && i <= |run|
  {
    if i == |run| then x == 0 else x in s.linked[0] && s.nodes[x].entry == run[i]
  }

  lemma NodeOf(s: State, run: seq<Entry>, i: nat) returns (x: nat)
    requires s.Inv() && IsRun(s, run) && i <= |run|
    ensures NodeAt(s, run, i, x)
  {
    if i == |run| {
      x := 0;
    } else {
      assert run[i] in run;
      x :| x in s.linked[0] && s.nodes[x].entry == run[i];
    }
  }

  /** The node found by a search is the one at the lower bound. */
  lemma {:induction false} SearchInRun(s: State, run: seq<Entry>, key: IKey, y: nat)
    requires s.Inv() && IsRun(s, run) && s.FirstAtOrAfter(key, y)
    ensures NodeAt(s, run, LowerBound(run, key), y)
  {
    hide Sorted;
    var i := LowerBound(run, key);
    var x := NodeOf(s, run, i);
    if y != 0 {
      assert s.nodes[y].entry in run;
      var j :| 0 <= j < |run| && run[j] == s.nodes[y].entry;
      Ordered(run, i, j);
      if i < |run| {
        Ordered(run, j, i);
      }
    }
  }

  lemma PositionOf(s: State, run: seq<Entry>, x: nat) returns (i: nat)
    requires s.Shape() && IsRun(s, run) && x in s.linked[0]
    ensures i < |run| && run[i] == s.nodes[x].entry
  {
    i :| 0 <= i < |run| && run[i] == s.nodes[x].entry;
  }

  /** The level-0 link leads to the next position; the head's, to the first. */
  lemma {:induction false} NextInRun(s: State, run: seq<Entry>, i: nat, x: nat)
    requires s.Inv() && IsRun(s, run) && i <= |run|
    requires if i == 0 then x == 0 else NodeAt(s, run, i - 1, x)
    ensures x < |s.nodes| && NodeAt(s, run, i, s.next[0][x])
  {
    hide Sorted;
    LoadLink(s, 0, x);
    var y := s.next[0][x];
    var z := NodeOf(s, run, i);
    if y != 0 {
      var j := PositionOf(s, run, y);
      if i < |run| {
        Ordered(run, i, j);
      }
      if i > 0 {
        Ordered(run, i - 1, j);
      }
    }
    if i > 0 && i < |run| {
      Ordered(run, i - 1, i);
    }
  }

  /** The last node before the key of position i is at the position before, or the head. */
  lemma {:induction false} PrevInRun(s: State, run: seq<Entry>, i: nat, x: nat)
    requires s.Inv() && IsRun(s, run) && i < |run| && LastBefore(s, 0, x, run[i].key)
    ensures if i == 0 then x == 0 else NodeAt(s, run, i - 1, x)
  {
    hide Sorted;
    LoadLink(s, 0, x);
    if x != 0 {
      var j := PositionOf(s, run, x);
      Ordered(run, j, i);
      if i > 0 {
        Ordered(run, j, i - 1);
      }
    }
    if i > 0 {
      var z := NodeOf(s, run, i - 1);
      Ordered(run, i - 1, i);
    }
  }

  lemma {:induction false} LastInRun(s: State, run: seq<Entry>, x: nat)
    requires s.Inv() && IsRun(s, run) && s.OnLevel(0, x) && s.next[0][x] == 0
    ensures if run == [] then x == 0 else NodeAt(s, run, |run| - 1, x)
  {
    hide Sorted;
    LoadLink(s, 0, x);
    if x != 0 {
      var j := PositionOf(s, run, x);
      if j < |run| - 1 {
        NextInRun(s, run, j + 1, x);
      }
    }
    if run != [] {
      var z := NodeOf(s, run, |run| - 1);
    }
  }

  /** SkipList::Iterator: a cursor over the entries of the list as they are now. */
  class Iterator {
    const list: SkipList
    var node: nat
    ghost var run: seq<Entry>
    ghost var at: nat  // |run| when the iterator is not valid

    ghost predicate Valid()
      reads this, list, list.rnd
    {
      list.Valid() && IsRun(list.Current(), run) && at <= |run| && NodeAt(list.Current(), run, at, node)
    }

    constructor (list: SkipList, ghost run: seq<Entry>)
      requires list.Valid() && IsRun(list.Current(), run)
      ensures Valid() && this.list == list && this.run == run && at == |run|
    {
      this.list, node, this.run, at := list, 0, run, |run|;
    }

    predicate OnEntry()
      reads this
    {
      node != 0
    }

    lemma OnEntryMeans()
      requires Valid()
      ensures OnEntry() <==> at < |run|
    {
    }

    function Current(): (e: Entry)
      requires Valid() && OnEntry()
      reads this, list, list.rnd
      ensures at < |run| && e == run[at]
    {
      list.nodes[node].entry
    }

    method Next()
      requires Valid() && OnEntry()
      modifies `node, `at
      ensures Valid() && at == old(at) + 1
    {
      NextInRun(list.Current(), run, at + 1, node);
      node := list.Next(node, 0);
      at := at + 1;
    }

    method Prev()
      requires Valid() && OnEntry()
      modifies `node, `at
      ensures Valid() && at == if old(at) == 0 then |run| else old(at) - 1
    {
      var x := list.FindLessThan(list.nodes[node].entry.key);
      PrevInRun(list.Current(), run, at, x);
      node := x;
      at := if at == 0 then |run| else at - 1;
    }

    method Seek(target: IKey)
      requires Valid()
      modifies `node, `at
      ensures Valid() && at == LowerBound(run, target)
    {
      var y, _ := list.FindGreaterOrEqual(target);
      SearchInRun(list.Current(), run, target, y);
      node := y;
      at := LowerBound(run, target);
    }

    method SeekToFirst()
      requires Valid()
      modifies `node, `at
      ensures Valid() && at == 0
    {
      NextInRun(list.Current(), run, 0, 0);
      node := list.Next(0, 0);
      at := 0;
    }

    method SeekToLast()
      requires Valid()
      modifies `node, `at
      ensures Valid() && at == if run == [] then 0 else |run| - 1
    {
      var x := list.FindLast();
      LastInRun(list.Current(), run, x);
      node := x;
      at := if run == [] then 0 else |run| - 1;
    }
  }

  /** Inserting adds the entry to the run at its place, and an iterator keeps its node. */
  lemma {:induction false} InsertedRun(s: State, t: State, run: seq<Entry>, x: nat, i: nat)
    requires s.Inv() && t.Inv() && IsRun(s, run)
    requires x == |s.nodes| < |t.nodes| && t.nodes[..x] == s.nodes && t.linked[0] == s.linked[0] + {x}
    requires i == LowerBound(run, t.Key(x))
    ensures IsRun(t, run[..i] + [t.nodes[x].entry] + run[i..])
    ensures forall j, y :: 0 <= j < |run| && NodeAt(s, run, j, y) ==>
              NodeAt(t, run[..i] + [t.nodes[x].entry] + run[i..], if j < i then j else j + 1, y)
  {
    hide Sorted;
    var e := t.nodes[x].entry;
    var longer := run[..i] + [e] + run[i..];
    assert forall z <- s.linked[0] :: t.nodes[z] == t.nodes[..x][z] == s.nodes[z];
    forall j | i <= j < |run|
      ensures Before(e.key, run[j].key)
    {
      var z := NodeOf(s, run, j);
      OrderedKeys(t, x, z);
    }
    InsertSorted(run, e, i);
  }

  lemma {:induction false} OrderedKeys(s: State, x: nat, y: nat)
    requires s.Inv() && x in s.linked[0] && y in s.linked[0] && x != y
    ensures Before(s.Key(x), s.Key(y)) || Before(s.Key(y), s.Key(x))
  {
  }

  lemma InsertSorted(run: seq<Entry>, e: Entry, i: nat)
    requires Sorted(run) && i <= |run|
    requires forall j :: 0 <= j < i ==> Before(run[j].key, e.key)
    requires forall j :: i <= j < |run| ==> Before(e.key, run[j].key)
    ensures Sorted(run[..i] + [e] + run[i..])
    ensures forall d :: d in run[..i] + [e] + run[i..] <==> d in run || d == e
  {
    var longer := run[..i] + [e] + run[i..];
    forall d
      ensures d in longer <==> d in run || d == e
    {
      assert run == run[..i] + run[i..];
      assert d in longer <==> d in run[..i] || d == e || d in run[i..];
    }
  }
}
