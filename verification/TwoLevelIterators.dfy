/** two_level_iterator.cc: an index of separator keys over a list of sorted blocks, iterated as one sorted run.  A
    table is such a list of data blocks, and a level above 0 is such a list of tables. */
module TwoLevelIterators {
  import opened Keys
  import opened Cursors

  /** The entries of the first n blocks. */
  ghost function Flat(index: seq<Entry>, blocks: Bytes -> seq<Entry>, n: nat): seq<Entry>
    requires n <= |index|
  {
    if n == 0 then [] else Flat(index, blocks, n - 1) + blocks(index[n - 1].value)
  }

  ghost predicate UpTo(index: seq<Entry>, blocks: Bytes -> seq<Entry>, i: nat)
    requires i < |index|
  {
    forall e <- blocks(index[i].value) :: !Before(index[i].key, e.key)
  }

  ghost predicate Behind(index: seq<Entry>, blocks: Bytes -> seq<Entry>, i: nat)
    requires i < |index|
  {
    forall j, e | i < j < |index| && e in blocks(index[j].value) :: Before(index[i].key, e.key)
  }

  /** Each index key is at or after every key of its block and before every key of the later blocks. */
  ghost predicate Separated(index: seq<Entry>, blocks: Bytes -> seq<Entry>) {
    && Sorted(index)
    && (forall i :: 0 <= i < |index| ==> Sorted(blocks(index[i].value)))
    && (forall i :: 0 <= i < |index| ==> UpTo(index, blocks, i))
    && (forall i :: 0 <= i < |index| ==> Behind(index, blocks, i))
  }

  lemma SeparatedAt(index: seq<Entry>, blocks: Bytes -> seq<Entry>, i: nat)
    requires Separated(index, blocks) && i < |index|
    ensures Sorted(blocks(index[i].value)) && UpTo(index, blocks, i) && Behind(index, blocks, i)
  {
  }

  lemma {:induction false} FlatAt(index: seq<Entry>, blocks: Bytes -> seq<Entry>, n: nat, i: nat)
    requires i < n <= |index|
    ensures var start, run := |Flat(index, blocks, i)|, blocks(index[i].value);
            |Flat(index, blocks, i + 1)| == start + |run| && start + |run| <= |Flat(index, blocks, n)|
            && Flat(index, blocks, n)[start..start + |run|] == run
  {
    if i + 1 < n {
      FlatAt(index, blocks, n - 1, i);
      var start, run := |Flat(index, blocks, i)|, blocks(index[i].value);
      FrontSlice(Flat(index, blocks, n - 1), blocks(index[n - 1].value), start, start + |run|);
    }
  }

  lemma FrontSlice(front: seq<Entry>, back: seq<Entry>, i: nat, j: nat)
    requires i <= j <= |front|
    ensures (front + back)[i..j] == front[i..j]
  {
  }

  lemma {:induction false} FlatPrefix(index: seq<Entry>, blocks: Bytes -> seq<Entry>, i: nat, n: nat)
    requires i <= n <= |index|
    ensures Flat(index, blocks, i) <= Flat(index, blocks, n)
  {
    if i < n {
      FlatPrefix(index, blocks, i, n - 1);
    }
  }

  lemma {:induction false} FlatMember(index: seq<Entry>, blocks: Bytes -> seq<Entry>, n: nat, e: Entry) returns (i: nat)
    requires n <= |index| && e in Flat(index, blocks, n)
    ensures i < n && e in blocks(index[i].value)
  {
    if e in blocks(index[n - 1].value) {
      i := n - 1;
    } else {
      i := FlatMember(index, blocks, n - 1, e);
    }
  }

  lemma {:induction false} FlatSorted(index: seq<Entry>, blocks: Bytes -> seq<Entry>, n: nat)
    requires Separated(index, blocks) && n <= |index|
    ensures Sorted(Flat(index, blocks, n))
  {
    hide Separated;
    if n > 0 {
      FlatSorted(index, blocks, n - 1);
      SeparatedAt(index, blocks, n - 1);
      var front, back := Flat(index, blocks, n - 1), blocks(index[n - 1].value);
      forall e, f | e in front && f in back
        ensures Before(e.key, f.key)
      {
        var i := FlatMember(index, blocks, n - 1, e);
        SeparatedAt(index, blocks, i);
        assert !Before(index[i].key, e.key) && Before(index[i].key, f.key);
      }
    }
  }

  /** Seeking in the index and then in the block finds the lower bound in the whole, except that the position may be
      the end of the block. */
  lemma SeekSplits(index: seq<Entry>, blocks: Bytes -> seq<Entry>, target: IKey)
    requires Separated(index, blocks)
    ensures Sorted(Flat(index, blocks, |index|))
    ensures var i, all := LowerBound(index, target), Flat(index, blocks, |index|);
            && (i == |index| ==> LowerBound(all, target) == |all|)
            && (i < |index| ==>
                  && Sorted(blocks(index[i].value))
                  && LowerBound(all, target) == |Flat(index, blocks, i)| + LowerBound(blocks(index[i].value), target))
  {
    hide Separated, Flat;
    FlatSorted(index, blocks, |index|);
    SeparatedSorted(index, blocks);
    var i, all := LowerBound(index, target), Flat(index, blocks, |index|);
    var start := |Flat(index, blocks, i)|;
    FlatPrefix(index, blocks, i, |index|);
    forall p | 0 <= p < start
      ensures Before(all[p].key, target)
    {
      assert all[p] == Flat(index, blocks, i)[p];
      var j := FlatMember(index, blocks, i, all[p]);
      SeparatedAt(index, blocks, j);
      assert !Before(index[j].key, all[p].key) && Before(index[j].key, target);
    }
    if i == |index| {
      LowerBoundIs(all, target, |all|);
    } else {
      SeparatedAt(index, blocks, i);
      SeekInBlock(index, blocks, target, i);
    }
  }

  lemma SeparatedSorted(index: seq<Entry>, blocks: Bytes -> seq<Entry>)
    requires Separated(index, blocks)
    ensures Sorted(index)
  {
  }

  lemma SeekInBlock(index: seq<Entry>, blocks: Bytes -> seq<Entry>, target: IKey, i: nat)
    requires Separated(index, blocks) && i < |index| && !Before(index[i].key, target)
    requires Sorted(Flat(index, blocks, |index|)) && Sorted(blocks(index[i].value))
    requires |Flat(index, blocks, i)| <= |Flat(index, blocks, |index|)|
    requires forall p :: 0 <= p < |Flat(index, blocks, i)| ==> Before(Flat(index, blocks, |index|)[p].key, target)
    ensures LowerBound(Flat(index, blocks, |index|), target)
         == |Flat(index, blocks, i)| + LowerBound(blocks(index[i].value), target)
  {
    hide Separated, Flat, Sorted, Before;
    var all, run := Flat(index, blocks, |index|), blocks(index[i].value);
    var start, q := |Flat(index, blocks, i)|, LowerBound(run, target);
    FlatAt(index, blocks, |index|, i);
    assert forall p :: 0 <= p < |run| ==> all[start + p] == all[start..start + |run|][p] == run[p];
    forall p | start <= p < start + q
      ensures Before(all[p].key, target)
    {
      assert all[p] == run[p - start];
    }
    if q < |run| {
      assert all[start + q] == run[q];
    } else if start + q < |all| {
      FirstBehind(index, blocks, i, target);
    }
    LowerBoundIs(all, target, start + q);
  }

  /** The entry behind block i, if any, is behind its index key. */
  lemma FirstBehind(index: seq<Entry>, blocks: Bytes -> seq<Entry>, i: nat, target: IKey)
    requires Separated(index, blocks) && i < |index| && !Before(index[i].key, target)
    requires |Flat(index, blocks, i + 1)| < |Flat(index, blocks, |index|)|
    ensures !Before(Flat(index, blocks, |index|)[|Flat(index, blocks, i + 1)|].key, target)
  {
    hide Separated, Flat;
    var e := Flat(index, blocks, |index|)[|Flat(index, blocks, i + 1)|];
    var j := FlatIndex(index, blocks, |index|, i + 1, |Flat(index, blocks, i + 1)|);
    SeparatedAt(index, blocks, i);
    assert Before(index[i].key, e.key);
  }

  lemma {:induction false} FlatIndex(index: seq<Entry>, blocks: Bytes -> seq<Entry>, n: nat, m: nat, p: nat)
    returns (j: nat)
    requires m <= n <= |index| && |Flat(index, blocks, m)| <= p < |Flat(index, blocks, n)|
    ensures m <= j < n && Flat(index, blocks, n)[p] in blocks(index[j].value)
  {
    if p < |Flat(index, blocks, n - 1)| {
      j := FlatIndex(index, blocks, n - 1, m, p);
    } else {
      j := n - 1;
    }
  }

  lemma FlatLength(index: seq<Entry>, blocks: Bytes -> seq<Entry>, i: nat)
    requires i < |index|
    ensures |Flat(index, blocks, i + 1)| == |Flat(index, blocks, i)| + |blocks(index[i].value)|
    ensures |Flat(index, blocks, i + 1)| <= |Flat(index, blocks, |index|)|
  {
    hide Flat;
    FlatAt(index, blocks, |index|, i);
  }

  class TwoLevelIterator {
    const blocks: Bytes -> seq<Entry>  // the entries that the block function reads for an index value
    const index: Cursor
    var data: Cursor?
    var handle: Bytes  // what data was made from
    ghost var at: nat

    ghost function Entries(): seq<Entry>
      reads index
    {
      Flat(index.run, blocks, |index.run|)
    }

    /** The position of the first entry of block i. */
    ghost function Start(i: nat): nat
      requires i <= |index.run|
      reads index
    {
      |Flat(index.run, blocks, i)|
    }

    predicate OnEntry()
      reads this, data
    {
      data != null && data.OnEntry()
    }

    ghost predicate Shape()
      reads this, index, data
    {
      && index.Valid() && Separated(index.run, blocks)
      && (data != null ==> data != index && data.Valid() && data.run == blocks(handle))
    }

    ghost predicate Standing(p: nat)
      requires Shape() && OnEntry()
      reads this, index, data
    {
      index.OnEntry() && handle == index.run[index.at].value && p == Start(index.at) + data.at
    }

    ghost predicate Valid()
      reads this, index, data
    {
      Shape() && if OnEntry() then Standing(at) else data == null && at == |Entries()|
    }

    constructor (index: Cursor, blocks: Bytes -> seq<Entry>)
      requires index.Valid() && Separated(index.run, blocks)
      ensures Valid() && this.index == index && this.blocks == blocks && data == null
    {
      this.index, this.blocks, data, handle := index, blocks, null, [];
      at := |Flat(index.run, blocks, |index.run|)|;
    }

    /** Makes data an iterator over the block that the index iterator is at. */
    method InitDataBlock()
      requires Shape()
      modifies this
      ensures Shape() && at == old(at) && (data == null || data == old(data) || fresh(data))
      ensures if index.OnEntry() then data != null && handle == index.run[index.at].value else data == null
    {
      if !index.OnEntry() {
        data := null;
      } else {
        var value := index.run[index.at].value;
        if data == null || value != handle {
          SeparatedAt(index.run, blocks, index.at);
          data := new Cursor(blocks(value));
          handle := value;
        }
      }
    }

    method SkipEmptyDataBlocksForward(ghost p: nat)
      requires Shape()
      requires if OnEntry() then Standing(p)
               else if index.OnEntry() then p == Start(index.at + 1) else p == |Entries()|
      modifies this, index, data
      ensures Valid() && at == p && index.run == old(index.run)
      ensures data == null || data == old(data) || fresh(data)
    {
      hide Separated, Flat, Sorted;
      while data == null || !data.OnEntry()
        invariant Shape() && index.run == old(index.run)
        invariant data == null || data == old(data) || fresh(data)
        invariant if OnEntry() then Standing(p)
                  else if index.OnEntry() then p == Start(index.at + 1) else p == |Entries()|
        decreases |index.run| - index.at, !OnEntry()
      {
        if !index.OnEntry() {
          data := null;
          at := p;
          return;
        }
        index.Next();
        InitDataBlock();
        if data != null {
          data.SeekToFirst();
          FlatLength(index.run, blocks, index.at);
        }
      }
      at := p;
    }

    method SkipEmptyDataBlocksBackward(ghost p: nat)
      requires Shape()
      requires if OnEntry() then Standing(p)
               else p == if index.OnEntry() && Start(index.at) > 0 then Start(index.at) - 1 else |Entries()|
      modifies this, index, data
      ensures Valid() && at == p && index.run == old(index.run)
      ensures data == null || data == old(data) || fresh(data)
    {
      hide Separated, Flat, Sorted;
      while data == null || !data.OnEntry()
        invariant Shape() && index.run == old(index.run)
        invariant data == null || data == old(data) || fresh(data)
        invariant if OnEntry() then Standing(p)
                  else p == if index.OnEntry() && Start(index.at) > 0 then Start(index.at) - 1 else |Entries()|
        decreases if index.OnEntry() then index.at + 1 else 0, !OnEntry()
      {
        if !index.OnEntry() {
          data := null;
          at := p;
          return;
        }
        FlatStart(index.run, blocks);
        index.Prev();
        InitDataBlock();
        if data != null {
          data.SeekToLast();
          FlatLength(index.run, blocks, index.at);
        }
      }
      at := p;
    }

    method Seek(target: IKey)
      requires Valid()
      modifies this, index, data
      ensures Valid() && index.run == old(index.run) && Sorted(Entries()) && at == LowerBound(Entries(), target)
      ensures data == null || data == old(data) || fresh(data)
    {
      hide Separated, Flat, Sorted;
      SeekSplits(index.run, blocks, target);
      index.Seek(target);
      InitDataBlock();
      if data != null {
        data.Seek(target);
        FlatLength(index.run, blocks, index.at);
      }
      SkipEmptyDataBlocksForward(LowerBound(Entries(), target));
    }

    method SeekToFirst()
      requires Valid()
      modifies this, index, data
      ensures Valid() && index.run == old(index.run) && at == 0
      ensures data == null || data == old(data) || fresh(data)
    {
      hide Separated, Flat, Sorted;
      FlatStart(index.run, blocks);
      index.SeekToFirst();
      InitDataBlock();
      if data != null {
        data.SeekToFirst();
        FlatLength(index.run, blocks, 0);
      }
      SkipEmptyDataBlocksForward(0);
    }

    method SeekToLast()
      requires Valid()
      modifies this, index, data
      ensures Valid() && index.run == old(index.run) && at == if |Entries()| == 0 then 0 else |Entries()| - 1
      ensures data == null || data == old(data) || fresh(data)
    {
      hide Separated, Flat, Sorted;
      FlatStart(index.run, blocks);
      index.SeekToLast();
      InitDataBlock();
      if data != null {
        data.SeekToLast();
        FlatLength(index.run, blocks, index.at);
      }
      SkipEmptyDataBlocksBackward(if |Entries()| == 0 then 0 else |Entries()| - 1);
    }

    method Next()
      requires Valid() && OnEntry()
      modifies this, index, data
      ensures Valid() && index.run == old(index.run) && at == old(at) + 1
      ensures data == null || data == old(data) || fresh(data)
    {
      hide Separated, Flat, Sorted;
      FlatLength(index.run, blocks, index.at);
      data.Next();
      SkipEmptyDataBlocksForward(at + 1);
    }

    method Prev()
      requires Valid() && OnEntry()
      modifies this, index, data
      ensures Valid() && index.run == old(index.run) && at == if old(at) == 0 then |Entries()| else old(at) - 1
      ensures data == null || data == old(data) || fresh(data)
    {
      hide Separated, Flat, Sorted;
      FlatLength(index.run, blocks, index.at);
      data.Prev();
      SkipEmptyDataBlocksBackward(if at == 0 then |Entries()| else at - 1);
    }

    function Current(): (e: Entry)
      requires Valid() && OnEntry()
      reads this, index, data
      ensures at < |Entries()| && e == Entries()[at]
    {
      FlatAt(index.run, blocks, |index.run|, index.at);
      assert Entries()[at] == Entries()[Start(index.at)..Start(index.at) + |data.run|][data.at];
      data.run[data.at]
    }
  }

  lemma FlatStart(index: seq<Entry>, blocks: Bytes -> seq<Entry>)
    ensures |Flat(index, blocks, 0)| == 0
  {
  }
}
