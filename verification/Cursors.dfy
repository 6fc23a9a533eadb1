/** The iterator interface: a position in a sorted run.  Every concrete iterator over data that does not change is
    proved to behave like this class. */
module Cursors {
  import opened Keys

  class Cursor {
    var run: seq<Entry>
    var at: nat  // |run| when the iterator is not valid

    ghost predicate Valid()
      reads this
    {
      Sorted(run) && at <= |run|
    }

    constructor (run: seq<Entry>)
      requires Sorted(run)
      ensures Valid() && this.run == run && at == |run|
    {
      this.run := run;
      at := |run|;
    }

    predicate OnEntry()
      reads this
    {
      at < |run|
    }

    method SeekToFirst()
      requires Valid()
      modifies `at
      ensures Valid() && at == 0
    {
      at := 0;
    }

    method SeekToLast()
      requires Valid()
      modifies `at
      ensures Valid() && at == if run == [] then 0 else |run| - 1
    {
      at := if run == [] then 0 else |run| - 1;
    }

    method Seek(target: IKey)
      requires Valid()
      modifies `at
      ensures Valid() && at == LowerBound(run, target)
    {
      at := LowerBound(run, target);
    }

    method Next()
      requires Valid() && OnEntry()
      modifies `at
      ensures Valid() && at == old(at) + 1
    {
      at := at + 1;
    }

    method Prev()
      requires Valid() && OnEntry()
      modifies `at
      ensures Valid() && at == if old(at) == 0 then |run| else old(at) - 1
    {
      at := if at == 0 then |run| else at - 1;
    }
  }
}
