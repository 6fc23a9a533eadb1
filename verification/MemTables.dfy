/** memtable.cc: the memtable over its skip list. */
module MemTables {
  import opened Keys
  import opened SkipLists

  /** What MemTable::Get reports: nothing about the key, a value, or a deletion. */
  datatype Found = Nothing | Value(value: Bytes) | Deletion

  class MemTable {
    const table: SkipList
    ghost var run: seq<Entry>  // the entries in order

    ghost predicate Valid()
      reads this, table, table.rnd
    {
      table.Valid() && IsRun(table.Current(), run)
    }

    constructor ()
      ensures Valid() && run == [] && fresh(table) && fresh(table.rnd)
    {
      table := new SkipList();
      run := [];
    }

    /** Adds an entry; no two entries of a memtable have the same internal key. */
    method Add(sequence: nat, kind: ValueType, k: UserKey, value: Bytes)
      requires Valid() && forall e <- run :: e.key.user != k || e.key.Tag() != IKey(k, sequence, kind).Tag()
      modifies this, table, table.rnd
      ensures Valid()
      ensures var e := Entry(IKey(k, sequence, kind), value);
              var i := LowerBound(old(run), e.key);
              run == old(run)[..i] + [e] + old(run)[i..]
    {
      hide IsRun, Trace, OldOrNew, State.Distinct, State.Level, State.Nested;
      var e := Entry(IKey(k, sequence, kind), value);
      RunMembers(table.Current(), run);
      ghost var s, x := table.Current(), |table.nodes|;
      var _ := table.Insert(e);
      ghost var i := LowerBound(run, e.key);
      InsertedRun(s, table.Current(), run, x, i);
      run := run[..i] + [e] + run[i..];
    }

    /** Seeks the key's newest entry that the snapshot may see, and looks whether it has the right user key. */
    method Get(k: UserKey, snapshot: nat) returns (r: Found)
      requires Valid()
      ensures var newest := Newest(Elements(run), k, snapshot);
              r == if newest.None? then Nothing
                   else if newest.value.key.kind.TypeValue? then Value(newest.value.value) else Deletion
    {
      hide Newest, IsNewest, Elements, Sorted, LowerBound, Before, Candidate, IsRun, NodeAt, State.Inv;
      RunMembers(table.Current(), run);
      var iter := new Iterator(table, run);
      iter.Seek(SeekKey(k, snapshot));
      iter.OnEntryMeans();
      NewestInRun(run, k, snapshot);
      if iter.OnEntry() {
        var e := iter.Current();
        if e.key.user == k {
          match e.key.kind {
            case TypeValue => return Value(e.value);
            case TypeDeletion => return Deletion;
          }
        }
      }
      return Nothing;
    }
  }

  lemma RunMembers(s: State, run: seq<Entry>)
    requires s.Inv() && IsRun(s, run)
    ensures Sorted(run) && forall z <- s.linked[0] :: s.nodes[z].entry in run
  {
  }
}
