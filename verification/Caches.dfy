/** cache.cc: the handle table, a chained hash table that doubles in size, and one shard of the LRU cache.  The
    circular linked lists of the source, and its hash chains, are sequences here. */
module Caches {
  import opened Keys
  import opened Coding

  datatype HandleId = HandleId(key: Bytes, hash: Word)

  class LRUHandle {
    const key: Bytes
    const hash: Word
    const value: Bytes
    const charge: nat
    var inCache: bool
    var refs: nat

    constructor (key: Bytes, hash: Word, value: Bytes, charge: nat)
      ensures this.key == key && this.hash == hash && this.value == value && this.charge == charge
      ensures !inCache && refs == 1
    {
      this.key, this.hash, this.value, this.charge := key, hash, value, charge;
      inCache, refs := false, 1;
    }

    function Id(): HandleId {
      HandleId(key, hash)
    }
  }

  // ----- The handle table

  ghost predicate NoDup<T>(s: seq<T>) {
    forall i, j :: 0 <= i < j < |s| ==> s[i] != s[j]
  }

  /** Every handle of a bucket belongs there and is an entry. */
  ghost predicate Bucket(bucket: seq<LRUHandle>, b: nat, length: nat, entries: map<HandleId, LRUHandle>)
    requires length > 0
  {
    NoDup(bucket) && forall h <- bucket :: h.hash % length == b && h.Id() in entries && entries[h.Id()] == h
  }

  ghost predicate Placed(list: seq<seq<LRUHandle>>, length: nat, entries: map<HandleId, LRUHandle>, id: HandleId)
    requires 0 < length == |list| && id in entries
  {
    entries[id].Id() == id && entries[id] in list[id.hash % length]
  }

  /** The buckets hold exactly the entries. */
  ghost predicate IsTable(list: seq<seq<LRUHandle>>, length: nat, entries: map<HandleId, LRUHandle>) {
    && 0 < length == |list|
    && (forall b :: 0 <= b < length ==> Bucket(list[b], b, length, entries))
    && forall id <- entries :: Placed(list, length, entries, id)
  }

  /** hash & (length - 1) is the remainder modulo the length, because the length is a power of two. */
  predicate PowerOfTwo(n: nat) {
    n == 1 || (n > 0 && n % 2 == 0 && PowerOfTwo(n / 2))
  }

  ghost predicate AllOf(entries: map<HandleId, LRUHandle>, all: set<LRUHandle>) {
    && (forall h <- all :: h.Id() in entries && entries[h.Id()] == h)
    && (forall id <- entries :: entries[id] in all && entries[id].Id() == id)
  }

  lemma AllInsert(entries: map<HandleId, LRUHandle>, all: set<LRUHandle>, h: LRUHandle)
    requires AllOf(entries, all) && h !in all
    ensures h.Id() in entries ==>
              entries[h.Id()] in all && entries[h.Id()] != h
                  && AllOf(entries[h.Id() := h], all - {entries[h.Id()]} + {h})
    ensures h.Id() !in entries ==> AllOf(entries[h.Id() := h], all + {h})
  {
  }

  lemma AllRemove(entries: map<HandleId, LRUHandle>, all: set<LRUHandle>, id: HandleId)
    requires AllOf(entries, all)
    ensures id in entries ==> entries[id] in all && AllOf(entries - {id}, all - {entries[id]})
    ensures id !in entries ==> entries - {id} == entries
  {
  }

  class HandleTable {
    var length: nat
    var elems: nat
    var list: seq<seq<LRUHandle>>
    ghost var entries: map<HandleId, LRUHandle>
    ghost var all: set<LRUHandle>  // the handles of the entries

    /** The chains hold the entries; there may be one entry more than there are chains. */
    ghost predicate Consistent()
      reads this
    {
      IsTable(list, length, entries) && elems == |entries| && PowerOfTwo(length) && AllOf(entries, all)
    }

    ghost predicate Valid()
      reads this
    {
      Consistent() && 4 <= length && elems <= length
    }

    constructor ()
      ensures Valid() && entries == map[] && all == {} && length == 4
    {
      length, elems, list, entries, all := 4, 0, [[], [], [], []], map[], {};
    }

    /** The place in the bucket of the handle with this key and hash, or the end of the bucket. */
    method FindPointer(key: Bytes, hash: Word) returns (b: nat, p: nat)
      requires Valid()
      ensures b == hash % length && b < |list| && p <= |list[b]|
      ensures var id := HandleId(key, hash);
              if id in entries then p < |list[b]| && list[b][p] == entries[id] else p == |list[b]|
    {
      b := hash % length;
      p := 0;
      assert Bucket(list[b], b, length, entries);
      while p < |list[b]| && (list[b][p].hash != hash || list[b][p].key != key)
        invariant p <= |list[b]|
        invariant forall q :: 0 <= q < p ==> list[b][q].Id() != HandleId(key, hash)
      {
        p := p + 1;
      }
      var id := HandleId(key, hash);
      assert id in entries ==> Placed(list, length, entries, id);
    }

    method Lookup(key: Bytes, hash: Word) returns (h: LRUHandle?)
      requires Valid()
      ensures h == if HandleId(key, hash) in entries then entries[HandleId(key, hash)] else null
      ensures h != null ==> h in all
    {
      var b, p := FindPointer(key, hash);
      h := if p < |list[b]| then list[b][p] else null;
    }

    /** Puts the handle in the place of one with the same key and hash, which is returned, or adds it; the table
        doubles when there are more handles than chains. */
    method Insert(h: LRUHandle) returns (was: LRUHandle?)
      requires Valid() && h !in all
      modifies this
      ensures Valid() && entries == old(entries)[h.Id() := h]
      ensures was == if h.Id() in old(entries) then old(entries)[h.Id()] else null
      ensures if was == null then all == old(all) + {h} else was in old(all) && all == old(all) - {was} + {h}
      ensures length == if |entries| <= old(length) then old(length) else 2 * old(length)
    {
      hide IsTable, AllOf, PowerOfTwo;
      AllInsert(entries, all, h);
      var b, p := FindPointer(h.key, h.hash);
      was := if p < |list[b]| then list[b][p] else null;
      if was == null {
        TableAdd(list, length, entries, h);
        list := list[b := list[b] + [h]];
        elems := elems + 1;
        entries := entries[h.Id() := h];
        all := all + {h};
        if elems > length {
          Resize();
          Doubled(old(length), length);
        }
      } else {
        TableReplace(list, length, entries, h, p);
        list := list[b := list[b][p := h]];
        entries := entries[h.Id() := h];
        all := all - {was} + {h};
      }
    }

    method Remove(key: Bytes, hash: Word) returns (was: LRUHandle?)
      requires Valid()
      modifies this
      ensures Valid() && entries == old(entries) - {HandleId(key, hash)}
      ensures was == if HandleId(key, hash) in old(entries) then old(entries)[HandleId(key, hash)] else null
      ensures if was == null then all == old(all) else was in old(all) && all == old(all) - {was}
      ensures length == old(length)
    {
      hide IsTable, AllOf;
      ghost var id := HandleId(key, hash);
      AllRemove(entries, all, id);
      var b, p := FindPointer(key, hash);
      var bucket := list[b];
      was := null;
      if p < |bucket| {
        was := bucket[p];
        TableRemove(list, length, entries, id, p);
        list := list[b := bucket[..p] + bucket[p + 1..]];
        elems := elems - 1;
        entries := entries - {id};
        all := all - {was};
      }
    }

    /** The smallest power of two that is at least 4 and the number of handles. */
    static method ChainsFor(n: nat) returns (r: nat)
      ensures r >= 4 && r >= n && PowerOfTwo(r) && (r > 4 ==> r / 2 < n)
    {
      r := 4;
      while r < n
        invariant r >= 4 && PowerOfTwo(r) && (r > 4 ==> r / 2 < n)
        decreases n - r
      {
        r := r * 2;
      }
    }

    /** Moves every handle to a table of at least as many buckets as there are handles, and of no more than needed. */
    method Resize()
      requires Consistent()
      modifies this
      ensures Valid() && entries == old(entries) && all == old(all) && elems == old(elems)
      ensures length > 4 ==> length / 2 < elems
    {
      hide IsTable, Moved, AllOf, PowerOfTwo;
      var newLength := ChainsFor(elems);
      var newList: seq<seq<LRUHandle>> := seq(newLength, _ => []);
      TableLength(list, length, entries);
      MoveStart(list, length, entries, newList, newLength);
      for i := 0 to length
        invariant unchanged(this) && |newList| == newLength
        invariant Moved(list, length, entries, newList, newLength, i, 0)
      {
        var chain := list[i];
        for j := 0 to |chain|
          invariant unchanged(this) && |newList| == newLength
          invariant Moved(list, length, entries, newList, newLength, i, j)
        {
          var h := chain[j];
          var c := h.hash % newLength;
          MoveStep(list, length, entries, newList, newLength, i, j);
          newList := newList[c := [h] + newList[c]];
        }
        MoveNext(list, length, entries, newList, newLength, i);
      }
      MoveEnd(list, length, entries, newList, newLength);
      list := newList;
      length := newLength;
    }
  }

  lemma {:induction false} PowersApart(a: nat, b: nat)
    requires PowerOfTwo(a) && PowerOfTwo(b) && a < b
    ensures 2 * a <= b
  {
    if a > 1 {
      PowersApart(a / 2, b / 2);
    }
  }

  lemma Doubled(a: nat, b: nat)
    requires 4 <= a < b && PowerOfTwo(a) && PowerOfTwo(b) && b / 2 < a + 1
    ensures b == 2 * a
  {
    hide PowerOfTwo;
    PowersApart(a, b);
    Even(b);
  }

  lemma Even(b: nat)
    requires PowerOfTwo(b) && b > 1
    ensures b % 2 == 0
  {
  }

  lemma TableLength(list: seq<seq<LRUHandle>>, length: nat, entries: map<HandleId, LRUHandle>)
    requires IsTable(list, length, entries)
    ensures 0 < length == |list|
  {
  }

  lemma TableAdd(list: seq<seq<LRUHandle>>, length: nat, entries: map<HandleId, LRUHandle>, h: LRUHandle)
    requires IsTable(list, length, entries) && h.Id() !in entries
    ensures var b := h.hash % length;
            IsTable(list[b := list[b] + [h]], length, entries[h.Id() := h])
    ensures |entries[h.Id() := h]| == |entries| + 1
  {
  }

  lemma TableReplace(list: seq<seq<LRUHandle>>, length: nat, entries: map<HandleId, LRUHandle>, h: LRUHandle, p: nat)
    requires IsTable(list, length, entries) && h.Id() in entries && entries[h.Id()] != h
    requires p < |list[h.hash % length]| && list[h.hash % length][p] == entries[h.Id()]
    ensures var b := h.hash % length;
            IsTable(list[b := list[b][p := h]], length, entries[h.Id() := h])
    ensures |entries[h.Id() := h]| == |entries|
  {
    var b := h.hash % length;
    var bucket := list[b][p := h];
    var next, more := list[b := bucket], entries[h.Id() := h];
    assert more.Keys == entries.Keys;
    assert Bucket(list[b], b, length, entries);
    forall c | 0 <= c < length
      ensures Bucket(next[c], c, length, more)
    {
      assert Bucket(list[c], c, length, entries);
    }
    forall id | id in more
      ensures Placed(next, length, more, id)
    {
      assert Placed(list, length, entries, id);
      if id == h.Id() {
        assert bucket[p] == h;
      } else if id.hash % length == b {
        var q :| 0 <= q < |list[b]| && list[b][q] == entries[id];
        assert bucket[q] == entries[id];
      }
    }
  }

  lemma TableRemove(list: seq<seq<LRUHandle>>, length: nat, entries: map<HandleId, LRUHandle>, id: HandleId, p: nat)
    requires IsTable(list, length, entries) && id in entries
    requires p < |list[id.hash % length]| && list[id.hash % length][p] == entries[id]
    ensures var b := id.hash % length;
            IsTable(list[b := list[b][..p] + list[b][p + 1..]], length, entries - {id})
    ensures |entries - {id}| == |entries| - 1
  {
    var b := id.hash % length;
    var bucket := list[b][..p] + list[b][p + 1..];
    var next, fewer := list[b := bucket], entries - {id};
    assert fewer.Keys == entries.Keys - {id};
    assert Bucket(list[b], b, length, entries);
    forall c | 0 <= c < length
      ensures Bucket(next[c], c, length, fewer)
    {
      assert Bucket(list[c], c, length, entries);
      assert c == b ==> forall h <- bucket :: h in list[b] && h != entries[id];
    }
    forall other | other in fewer
      ensures Placed(next, length, fewer, other)
    {
      assert Placed(list, length, entries, other) && Placed(list, length, entries, id);
      if other.hash % length == b {
        var q :| 0 <= q < |list[b]| && list[b][q] == entries[other];
        assert q != p;
        assert if q < p then bucket[q] == entries[other] else bucket[q - 1] == entries[other];
      }
    }
  }

  // ----- Moving to a larger table

  /** The entry's bucket comes before old bucket i, or it is among the first j of that bucket. */
  ghost predicate Passed(list: seq<seq<LRUHandle>>, length: nat, h: LRUHandle, i: nat, j: nat)
    requires 0 < length == |list|
  {
    h.hash % length < i || (h.hash % length == i && j <= |list[i]| && h in list[i][..j])
  }

  /** The new buckets hold the handles of the first i old buckets and the first j of the next. */
  ghost predicate Moved(list: seq<seq<LRUHandle>>, length: nat, entries: map<HandleId, LRUHandle>,
                        newList: seq<seq<LRUHandle>>, newLength: nat, i: nat, j: nat)
  {
    && IsTable(list, length, entries) && 0 < newLength == |newList|
    && (forall c :: 0 <= c < newLength ==> Bucket(newList[c], c, newLength, entries))
    && forall id <- entries :: entries[id] in newList[id.hash % newLength] <==> Passed(list, length, entries[id], i, j)
  }

  lemma MoveStart(list: seq<seq<LRUHandle>>, length: nat, entries: map<HandleId, LRUHandle>,
                  newList: seq<seq<LRUHandle>>, newLength: nat)
    requires IsTable(list, length, entries) && 0 < newLength == |newList|
    requires forall c :: 0 <= c < newLength ==> newList[c] == []
    ensures Moved(list, length, entries, newList, newLength, 0, 0)
  {
  }

  lemma MoveStep(list: seq<seq<LRUHandle>>, length: nat, entries: map<HandleId, LRUHandle>,
                 newList: seq<seq<LRUHandle>>, newLength: nat, i: nat, j: nat)
    requires Moved(list, length, entries, newList, newLength, i, j) && i < length && j < |list[i]|
    ensures var h := list[i][j];
            var c := h.hash % newLength;
            Moved(list, length, entries, newList[c := [h] + newList[c]], newLength, i, j + 1)
  {
    var h := list[i][j];
    var c := h.hash % newLength;
    var next := newList[c := [h] + newList[c]];
    assert Bucket(list[i], i, length, entries);
    assert !Passed(list, length, h, i, j);
    assert list[i][..j + 1] == list[i][..j] + [h];
    forall d | 0 <= d < newLength
      ensures Bucket(next[d], d, newLength, entries)
    {
      assert Bucket(newList[d], d, newLength, entries);
    }
    forall id | id in entries
      ensures entries[id] in next[id.hash % newLength] <==> Passed(list, length, entries[id], i, j + 1)
    {
      assert Placed(list, length, entries, id);
    }
  }

  lemma MoveNext(list: seq<seq<LRUHandle>>, length: nat, entries: map<HandleId, LRUHandle>,
                 newList: seq<seq<LRUHandle>>, newLength: nat, i: nat)
    requires IsTable(list, length, entries) && i < length
             && Moved(list, length, entries, newList, newLength, i, |list[i]|)
    ensures Moved(list, length, entries, newList, newLength, i + 1, 0)
  {
  }

  lemma MoveEnd(list: seq<seq<LRUHandle>>, length: nat, entries: map<HandleId, LRUHandle>,
                newList: seq<seq<LRUHandle>>, newLength: nat)
    requires Moved(list, length, entries, newList, newLength, length, 0)
    ensures IsTable(newList, newLength, entries)
  {
  }

  // ----- One shard of the cache

  /** LRU_Remove: the list without the handle. */
  function Without(s: seq<LRUHandle>, h: LRUHandle): (r: seq<LRUHandle>)
    ensures h !in s ==> r == s
  {
    if s == [] then [] else if s[0] == h then s[1..] else [s[0]] + Without(s[1..], h)
  }

  function Sum(s: seq<LRUHandle>): nat {
    if s == [] then 0 else s[0].charge + Sum(s[1..])
  }

  /** A list without duplicates and the set of its handles. */
  ghost predicate IsList(s: seq<LRUHandle>, members: set<LRUHandle>) {
    NoDup(s) && members == set h | h in s
  }

  lemma {:induction false} WithoutList(s: seq<LRUHandle>, members: set<LRUHandle>, h: LRUHandle)
    requires IsList(s, members)
    ensures IsList(Without(s, h), members - {h}) && Sum(s) == Sum(Without(s, h)) + if h in members then h.charge else 0
    ensures h !in members ==> Without(s, h) == s
  {
    if s != [] {
      var rest := set x | x in s[1..];
      SplitList(s, members, rest);
      if s[0] == h {
        assert members - {h} == rest;
      } else {
        WithoutList(s[1..], rest, h);
        ConsList(s[0], Without(s[1..], h), rest - {h});
        assert members - {h} == rest - {h} + {s[0]};
      }
    }
  }

  lemma SplitList(s: seq<LRUHandle>, members: set<LRUHandle>, rest: set<LRUHandle>)
    requires IsList(s, members) && s != [] && rest == set x | x in s[1..]
    ensures IsList(s[1..], rest) && s[0] !in rest && members == rest + {s[0]}
  {
  }

  lemma ConsList(h: LRUHandle, s: seq<LRUHandle>, members: set<LRUHandle>)
    requires IsList(s, members) && h !in members
    ensures IsList([h] + s, members + {h})
  {
  }

  lemma {:induction false} SumAppend(s: seq<LRUHandle>, h: LRUHandle)
    ensures Sum(s + [h]) == Sum(s) + h.charge
  {
    if s != [] {
      SumAppend(s[1..], h);
      assert (s + [h])[1..] == s[1..] + [h];
    }
  }

  lemma AppendList(s: seq<LRUHandle>, members: set<LRUHandle>, h: LRUHandle)
    requires IsList(s, members) && h !in members
    ensures IsList(s + [h], members + {h}) && Sum(s + [h]) == Sum(s) + h.charge
  {
    SumAppend(s, h);
  }

  /** The two lists are disjoint, have the listed handles together, and their charges sum up to the usage. */
  ghost predicate ListsOk(lru: seq<LRUHandle>, idle: set<LRUHandle>, inUse: seq<LRUHandle>, busy: set<LRUHandle>,
                          usage: nat, listed: set<LRUHandle>)
  {
    && IsList(lru, idle) && IsList(inUse, busy) && idle !! busy && idle + busy == listed
    && usage == Sum(lru) + Sum(inUse)
  }

  /** The cache's own reference counts as one; a handle that only the cache refers to is idle, and one that nobody
      refers to is deleted. */
  ghost predicate Counted(inCache: bool, refs: nat, idle: bool, busy: bool, clients: nat, deleted: bool) {
    && inCache == (idle || busy) && !(idle && busy)
    && refs == clients + (if inCache then 1 else 0)
    && (deleted <==> refs == 0)
    && (idle <==> inCache && refs == 1)
  }

  ghost function Ids(s: seq<LRUHandle>): set<HandleId> {
    set h | h in s :: h.Id()
  }

  lemma IdsNext(s: seq<LRUHandle>, n: nat)
    requires n < |s|
    ensures Ids(s[..n + 1]) == Ids(s[..n]) + {s[n].Id()}
  {
  }

  class LRUCache {
    const table: HandleTable
    var capacity: nat
    var usage: nat
    var lru: seq<LRUHandle>    // oldest first
    var inUse: seq<LRUHandle>
    ghost var idle: set<LRUHandle>        // the handles on the LRU list
    ghost var busy: set<LRUHandle>        // the handles on the in-use list
    ghost var handles: set<LRUHandle>     // every handle ever made
    ghost var held: multiset<LRUHandle>   // the references that clients have
    ghost var deleted: set<LRUHandle>     // the handles passed to their deleter

    /** The handles that the hash table has, and one that it has no longer but is still on its list. */
    ghost function Listed(gone: LRUHandle?): set<LRUHandle>
      reads table
    {
      table.all + if gone == null then {} else {gone}
    }

    ghost predicate RefOk(h: LRUHandle)
      reads this, h
    {
      Counted(h.inCache, h.refs, h in idle, h in busy, held[h], h in deleted)
    }

    ghost predicate OnLists(gone: LRUHandle?)
      reads `lru, `inUse, `idle, `busy, `usage, table
    {
      && ListsOk(lru, idle, inUse, busy, usage, Listed(gone)) && (gone != null ==> gone !in table.all)
    }

    ghost predicate Known()
      reads this
    {
      idle <= handles && busy <= handles && deleted <= handles && forall h <- held :: h in handles
    }

    ghost predicate ValidBut(gone: LRUHandle?)
      reads this, table, handles
    {
      table.Valid() && OnLists(gone) && Known() && AllCounted()
    }

    ghost predicate AllCounted()
      reads this, handles
    {
      forall h <- handles :: RefOk(h)
    }

    lemma CountedAt(h: LRUHandle)
      requires AllCounted() && h in handles
      ensures RefOk(h)
      ensures h.inCache == (h in idle || h in busy) && !(h in idle && h in busy)
      ensures h.refs == held[h] + (if h.inCache then 1 else 0)
      ensures (h in deleted <==> h.refs == 0) && (h in idle <==> h.inCache && h.refs == 1)
    {
    }

    lemma NowCounted(h: LRUHandle)
      requires h.inCache == (h in idle || h in busy) && !(h in idle && h in busy)
      requires h.refs == held[h] + (if h.inCache then 1 else 0)
      requires (h in deleted <==> h.refs == 0) && (h in idle <==> h.inCache && h.refs == 1)
      ensures RefOk(h)
    {
    }

    /** Only e's references and place have changed; e may be new. */
    twostate lemma OthersCounted(new e: LRUHandle)
      requires old(AllCounted()) && RefOk(e) && handles - {e} <= old(handles)
      requires idle - {e} == old(idle) - {e} && busy - {e} == old(busy) - {e} && deleted - {e} == old(deleted) - {e}
      requires forall h :: h != e ==> held[h] == old(held)[h]
      requires forall h <- old(handles) :: h != e ==> h.refs == old(h.refs) && h.inCache == old(h.inCache)
      ensures AllCounted()
    {
      hide Counted;
      forall h | h in handles
        ensures RefOk(h)
      {
        if h != e {
          assert h in handles - {e};
          assert old(RefOk(h));
          assert h in idle <==> h in idle - {e};
          assert h in old(idle) <==> h in old(idle) - {e};
          assert h in busy <==> h in busy - {e};
          assert h in old(busy) <==> h in old(busy) - {e};
          assert h in deleted <==> h in deleted - {e};
          assert h in old(deleted) <==> h in old(deleted) - {e};
        }
      }
    }

    /** Every cached entry is on exactly one list, on the LRU list when only the cache refers to it, and usage is the
        sum of their charges. */
    ghost predicate Valid()
      reads this, table, handles
    {
      ValidBut(null)
    }

    constructor (capacity: nat)
      ensures Valid() && this.capacity == capacity && table.entries == map[] && held == multiset{} && fresh(table)
    {
      table := new HandleTable();
      this.capacity, usage, lru, inUse := capacity, 0, [], [];
      idle, busy, handles, held, deleted := {}, {}, {}, multiset{}, {};
    }

    method Ref(e: LRUHandle)
      requires OnLists(null) && (e.refs == 1 && e.inCache ==> e in idle)
      modifies `lru, `inUse, `idle, `busy, e
      ensures OnLists(null)
      ensures e.refs == old(e.refs) + 1 && e.inCache == old(e.inCache)
      ensures if old(e.refs) == 1 && e.inCache then
                lru == Without(old(lru), e) && inUse == old(inUse) + [e] && idle == old(idle) - {e}
                    && busy == old(busy) + {e}
              else lru == old(lru) && inUse == old(inUse) && idle == old(idle) && busy == old(busy)
    {
      hide IsList;
      if e.refs == 1 && e.inCache {
        WithoutList(lru, idle, e);
        AppendList(inUse, busy, e);
        lru, idle := Without(lru, e), idle - {e};
        inUse, busy := inUse + [e], busy + {e};
      }
      e.refs := e.refs + 1;
    }

    method Unref(e: LRUHandle)
      requires e.refs > 0 && (e.refs == 1 ==> !e.inCache) && (e.refs == 2 && e.inCache ==> e in busy)
      requires OnLists(null)
      modifies `lru, `inUse, `idle, `busy, `deleted, e
      ensures OnLists(null)
      ensures e.refs == old(e.refs) - 1 && e.inCache == old(e.inCache)
      ensures deleted == if e.refs == 0 then old(deleted) + {e} else old(deleted)
      ensures if e.refs == 1 && e.inCache then
                lru == old(lru) + [e] && inUse == Without(old(inUse), e) && idle == old(idle) + {e}
                    && busy == old(busy) - {e}
              else lru == old(lru) && inUse == old(inUse) && idle == old(idle) && busy == old(busy)
    {
      hide IsList;
      e.refs := e.refs - 1;
      if e.refs == 0 {
        deleted := deleted + {e};
      } else if e.inCache && e.refs == 1 {
        WithoutList(inUse, busy, e);
        AppendList(lru, idle, e);
        inUse, busy := Without(inUse, e), busy - {e};
        lru, idle := lru + [e], idle + {e};
      }
    }

    lemma ListedAre(gone: LRUHandle?)
      requires OnLists(gone)
      ensures idle + busy == Listed(gone) && idle !! busy
    {
    }

    lemma NotIdle(e: LRUHandle)
      requires OnLists(null) && e !in idle
      ensures Without(lru, e) == lru
    {
    }

    method Lookup(key: Bytes, hash: Word) returns (e: LRUHandle?)
      requires Valid()
      modifies this, handles
      ensures Valid() && capacity == old(capacity) && usage == old(usage)
      ensures handles == old(handles) && deleted == old(deleted)
      ensures e == if HandleId(key, hash) in table.entries then table.entries[HandleId(key, hash)] else null
      ensures held == if e == null then old(held) else old(held) + multiset{e}
      ensures lru == if e == null then old(lru) else Without(old(lru), e)
    {
      hide OnLists, HandleTable.Valid, AllCounted, RefOk;
      ListedAre(null);
      e := table.Lookup(key, hash);
      if e != null {
        CountedAt(e);
        if e !in idle {
          NotIdle(e);
        }
        Ref(e);
        held := held + multiset{e};
        NowCounted(e);
        OthersCounted(e);
      }
    }

    /** A client gives a reference back. */
    method Release(e: LRUHandle)
      requires Valid() && e in held
      modifies this, handles
      ensures Valid() && capacity == old(capacity) && usage == old(usage) && handles == old(handles)
      ensures held == old(held) - multiset{e}
      ensures deleted == if e in held || e in table.all then old(deleted) else old(deleted) + {e}
      ensures lru == if e in table.all && e !in held then old(lru) + [e] else old(lru)
    {
      hide OnLists, HandleTable.Valid, AllCounted, RefOk;
      ListedAre(null);
      CountedAt(e);
      Unref(e);
      held := held - multiset{e};
      NowCounted(e);
      OthersCounted(e);
    }

    /** Finishes removing a handle that the hash table no longer has. */
    method FinishErase(e: LRUHandle?) returns (erased: bool)
      requires ValidBut(e)
      modifies this, handles
      ensures Valid() && capacity == old(capacity) && handles == old(handles) && held == old(held)
      ensures erased == (e != null)
      ensures if e == null then lru == old(lru) && inUse == old(inUse) && usage == old(usage) && deleted == old(deleted)
              else && lru == Without(old(lru), e) && inUse == Without(old(inUse), e) && old(usage) == usage + e.charge
                   && deleted == if e in held then old(deleted) else old(deleted) + {e}
    {
      hide IsList, HandleTable.Valid, AllCounted, RefOk;
      erased := e != null;
      if e != null {
        Detach(e);
      }
    }

    /** Takes a handle that the table no longer has off its list, and its charge off the usage. */
    method LRURemove(e: LRUHandle)
      requires OnLists(e)
      modifies `lru, `inUse, `idle, `busy, `usage
      ensures OnLists(null) && old(usage) == usage + e.charge
      ensures lru == Without(old(lru), e) && inUse == Without(old(inUse), e)
      ensures idle == old(idle) - {e} && busy == old(busy) - {e}
    {
      hide IsList;
      WithoutList(lru, idle, e);
      WithoutList(inUse, busy, e);
      lru, idle := Without(lru, e), idle - {e};
      inUse, busy := Without(inUse, e), busy - {e};
      usage := usage - e.charge;
      assert idle + busy == Listed(null);
    }

    method Detach(e: LRUHandle)
      requires ValidBut(e)
      modifies this, handles
      ensures Valid() && capacity == old(capacity) && handles == old(handles) && held == old(held)
      ensures lru == Without(old(lru), e) && inUse == Without(old(inUse), e) && old(usage) == usage + e.charge
      ensures deleted == if e in held then old(deleted) else old(deleted) + {e}
    {
      hide OnLists, HandleTable.Valid, AllCounted, RefOk;
      ListedAre(e);
      CountedAt(e);
      LRURemove(e);
      e.inCache := false;
      Unref(e);
      NowCounted(e);
      OthersCounted(e);
    }

    method Erase(key: Bytes, hash: Word)
      requires Valid()
      modifies this, table, handles
      ensures Valid() && capacity == old(capacity) && handles == old(handles) && held == old(held)
      ensures table.entries == old(table.entries) - {HandleId(key, hash)}
      ensures HandleId(key, hash) !in old(table.entries) ==>
                lru == old(lru) && inUse == old(inUse) && usage == old(usage) && deleted == old(deleted)
      ensures HandleId(key, hash) in old(table.entries) ==>
                var e := old(table.entries)[HandleId(key, hash)];
                && lru == Without(old(lru), e) && inUse == Without(old(inUse), e) && old(usage) == usage + e.charge
                && deleted == if e in held then old(deleted) else old(deleted) + {e}
    {
      hide ValidBut;
      var e := RemoveFromTable(key, hash);
      var _ := FinishErase(e);
    }

    /** The handle that was removed from the table is still on its list. */
    method RemoveFromTable(key: Bytes, hash: Word) returns (e: LRUHandle?)
      requires Valid()
      modifies table
      ensures ValidBut(e) && table.entries == old(table.entries) - {HandleId(key, hash)}
      ensures e == if HandleId(key, hash) in old(table.entries) then old(table.entries)[HandleId(key, hash)] else null
    {
      hide ListsOk, HandleTable.Valid, AllCounted, Known;
      ghost var listed := Listed(null);
      e := table.Remove(key, hash);
      assert Listed(e) == listed;
    }

    /** Evicts the oldest handle of the LRU list. */
    method RemoveOldest()
      requires Valid() && lru != []
      modifies this, table, handles
      ensures Valid() && capacity == old(capacity) && handles == old(handles) && held == old(held)
      ensures lru == old(lru)[1..] && inUse == old(inUse) && old(usage) == usage + old(lru[0].charge)
      ensures table.entries == old(table.entries) - {old(lru[0]).Id()} && old(lru[0]) in old(table.all)
      ensures deleted == old(deleted) + {old(lru[0])}
    {
      hide ValidBut;
      var e := lru[0];
      OldestFacts();
      var was := RemoveFromTable(e.key, e.hash);
      var _ := FinishErase(was);
    }

    lemma OldestFacts()
      requires Valid() && lru != []
      ensures var e := lru[0];
              && Without(lru, e) == lru[1..] && Without(inUse, e) == inUse && e !in held
              && e in table.all && e.Id() in table.entries && table.entries[e.Id()] == e
    {
      hide AllCounted;
      CountedAt(lru[0]);
      WithoutList(inUse, busy, lru[0]);
    }

    method Prune()
      requires Valid()
      modifies this, table, handles
      ensures Valid() && capacity == old(capacity) && handles == old(handles) && held == old(held)
      ensures lru == [] && inUse == old(inUse)
      ensures usage == old(Sum(inUse))
    {
      hide ValidBut;
      UsageIs();
      while lru != []
        invariant Valid() && capacity == old(capacity) && handles == old(handles) && held == old(held)
                  && inUse == old(inUse)
        invariant usage == Sum(lru) + Sum(inUse)
        decreases |lru|
      {
        RemoveOldest();
        UsageIs();
      }
    }

    lemma UsageIs()
      requires Valid()
      ensures usage == Sum(lru) + Sum(inUse)
    {
    }

    /** Makes a handle, with one reference for the caller.  If the cache has any capacity it takes the place of one with
        the same key and hash, and as many of the oldest idle handles are evicted as it takes to get back within
        capacity. */
    method Insert(key: Bytes, hash: Word, value: Bytes, charge: nat) returns (e: LRUHandle, ghost evicted: nat)
      requires Valid()
      modifies this, table, handles
      ensures Valid() && fresh(e) && e.key == key && e.hash == hash && e.value == value && e.charge == charge
      ensures capacity == old(capacity) && handles == old(handles) + {e} && held == old(held) + multiset{e}
      ensures usage <= capacity || lru == []
      ensures capacity > 0 ==> HandleId(key, hash) in table.entries && table.entries[HandleId(key, hash)] == e
      ensures var id := HandleId(key, hash);
              var start := if capacity > 0 && id in old(table.entries) then Without(old(lru), old(table.entries)[id])
                  else old(lru);
              && evicted <= |start| && lru == start[evicted..]
              && (evicted > 0 ==> usage + start[evicted - 1].charge > capacity)
              && var cached := if capacity > 0 then old(table.entries)[id := e] else old(table.entries);
                 table.entries == cached - Ids(start[..evicted])
    {
      hide ValidBut;
      e := new LRUHandle(key, hash, value, charge);
      AddHandle(e);
      if capacity > 0 {
        var was := AddToTable(e);
        var _ := FinishErase(was);
      }
      evicted := EvictDown();
    }

    /** Evicts the oldest idle handles until the usage is within capacity or none is idle; what clients hold stays. */
    method EvictDown() returns (ghost evicted: nat)
      requires Valid()
      modifies this, table, handles
      ensures Valid() && capacity == old(capacity) && handles == old(handles) && held == old(held)
      ensures usage <= capacity || lru == []
      ensures evicted <= |old(lru)| && lru == old(lru)[evicted..]
      ensures evicted > 0 ==> usage + old(lru)[evicted - 1].charge > capacity
      ensures table.entries == old(table.entries) - Ids(old(lru)[..evicted])
      ensures forall id <- old(table.entries) :: old(table.entries)[id] in held ==> id in table.entries
    {
      hide ValidBut;
      ghost var start, base := lru, table.entries;
      evicted := 0;
      assert table.entries == base - Ids(start[..0]);
      while usage > capacity && lru != []
        invariant Valid() && capacity == old(capacity) && handles == old(handles) && held == old(held)
        invariant evicted <= |start| && lru == start[evicted..]
        invariant evicted > 0 ==> usage + start[evicted - 1].charge > capacity
        invariant table.entries == base - Ids(start[..evicted])
        invariant forall id <- base :: base[id] in held ==> id in table.entries
        decreases |lru|
      {
        OldestFacts();
        IdsNext(start, evicted);
        RemoveOldest();
        evicted := evicted + 1;
      }
    }

    /** A handle that the caller has and the cache does not know. */
    method AddHandle(e: LRUHandle)
      requires Valid() && e !in handles && e.refs == 1 && !e.inCache
      modifies `handles, `held
      ensures Valid() && handles == old(handles) + {e} && held == old(held) + multiset{e}
      ensures e in handles && e.refs == 1 && !e.inCache && held[e] == 1
    {
      hide OnLists, HandleTable.Valid, AllCounted, RefOk;
      handles := handles + {e};
      held := held + multiset{e};
      NowCounted(e);
      OthersCounted(e);
    }

    /** The cache takes a reference of its own. */
    method AddToTable(e: LRUHandle) returns (was: LRUHandle?)
      requires Valid() && e in handles && e.refs == 1 && !e.inCache
      modifies this, table, handles
      ensures ValidBut(was) && handles == old(handles) && held == old(held) && capacity == old(capacity)
      ensures lru == old(lru) && inUse == old(inUse) + [e] && usage == old(usage) + e.charge
      ensures table.entries == old(table.entries)[e.Id() := e]
      ensures was == if e.Id() in old(table.entries) then old(table.entries)[e.Id()] else null
    {
      hide OnLists, ListsOk, IsList, HandleTable.Valid, HandleTable.Consistent, AllCounted, RefOk, Counted;
      ListedAre(null);
      CountedAt(e);
      e.refs := e.refs + 1;
      e.inCache := true;
      was := Enter(e);
      NowCounted(e);
      OthersCounted(e);
    }

    /** The handle enters the in-use list and the hash table. */
    method Enter(e: LRUHandle) returns (was: LRUHandle?)
      requires table.Valid() && OnLists(null) && e !in idle && e !in busy && e !in table.all
      modifies `inUse, `busy, `usage, table
      ensures table.Valid() && OnLists(was)
      ensures inUse == old(inUse) + [e] && busy == old(busy) + {e} && usage == old(usage) + e.charge
      ensures table.entries == old(table.entries)[e.Id() := e]
      ensures was == if e.Id() in old(table.entries) then old(table.entries)[e.Id()] else null
    {
      hide OnLists, ListsOk, IsList, HandleTable.Valid;
      ghost var listed := Listed(null);
      AppendInUse(e);
      was := table.Insert(e);
      assert Listed(was) == listed + {e};
      OnListsFrom(was, listed + {e});
    }

    method AppendInUse(e: LRUHandle)
      requires OnLists(null) && e !in idle && e !in busy
      modifies `inUse, `busy, `usage
      ensures inUse == old(inUse) + [e] && busy == old(busy) + {e} && usage == old(usage) + e.charge
      ensures ListsOk(lru, idle, inUse, busy, usage, old(Listed(null)) + {e})
    {
      hide IsList;
      AppendList(inUse, busy, e);
      inUse, busy := inUse + [e], busy + {e};
      usage := usage + e.charge;
    }

    lemma OnListsFrom(gone: LRUHandle?, listed: set<LRUHandle>)
      requires ListsOk(lru, idle, inUse, busy, usage, listed) && listed == Listed(gone)
      requires gone != null ==> gone !in table.all
      ensures OnLists(gone)
    {
    }
  }
}
