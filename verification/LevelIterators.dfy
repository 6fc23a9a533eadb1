/** version_set.cc: iterating a level above 0 through its list of files. */
module LevelIterators {
  import opened Keys
  import opened Coding
  import opened Versions
  import opened TwoLevelIterators

  /** The value of the file iterator: file number and size in 16 bytes. */
  function FileValue(f: File): Bytes {
    Fixed64(f.number) + Fixed64(f.size)
  }

  /** The run of the file iterator: the largest key of each file, with its number and size. */
  function FileIndex(files: seq<File>): (r: seq<Entry>)
    ensures |r| == |files|
  {
    seq(|files|, i requires 0 <= i < |files| => Entry(files[i].Largest(), FileValue(files[i])))
  }

  /** LevelFileNumIterator: a cursor over the file index. */
  class LevelFileNumIterator {
    const files: seq<File>
    var index: nat  // |files| when the iterator is not valid

    ghost predicate Valid()
      reads this
    {
      SortedDisjoint(files) && index <= |files|
    }

    constructor (files: seq<File>)
      requires SortedDisjoint(files)
      ensures Valid() && this.files == files && index == |files|
    {
      this.files, index := files, |files|;
    }

    predicate OnEntry()
      reads this
    {
      index < |files|
    }

    method Seek(target: IKey)
      requires Valid()
      modifies this
      ensures Valid() && Sorted(FileIndex(files)) && index == LowerBound(FileIndex(files), target)
    {
      index := FindFile(files, target);
      IndexSorted(files);
      LowerBoundIs(FileIndex(files), target, index);
    }

    method SeekToFirst()
      requires Valid()
      modifies this
      ensures Valid() && index == 0
    {
      index := 0;
    }

    method SeekToLast()
      requires Valid()
      modifies this
      ensures Valid() && index == if files == [] then 0 else |files| - 1
    {
      index := if files == [] then 0 else |files| - 1;
    }

    method Next()
      requires Valid() && OnEntry()
      modifies this
      ensures Valid() && index == old(index) + 1
    {
      index := index + 1;
    }

    method Prev()
      requires Valid() && OnEntry()
      modifies this
      ensures Valid() && index == if old(index) == 0 then |files| else old(index) - 1
    {
      index := if index == 0 then |files| else index - 1;
    }

    function Current(): (e: Entry)
      requires Valid() && OnEntry()
      reads this
      ensures e == FileIndex(files)[index]
    {
      Entry(files[index].Largest(), FileValue(files[index]))
    }
  }

  lemma IndexSorted(files: seq<File>)
    requires SortedDisjoint(files)
    ensures Sorted(FileIndex(files))
  {
  }

  /** What GetFileIterator opens for an index value: the run of the file with that number and size. */
  ghost predicate Opens(files: seq<File>, blocks: Bytes -> seq<Entry>) {
    forall f <- files :: blocks(FileValue(f)) == f.run
  }

  /** The concatenating iterator of a sorted, disjoint level goes over exactly the entries of its files, in order. */
  lemma LevelIsOneRun(files: seq<File>, blocks: Bytes -> seq<Entry>)
    requires SortedDisjoint(files) && Opens(files, blocks)
    ensures var index := FileIndex(files);
            && Separated(index, blocks) && Sorted(Flat(index, blocks, |index|))
            && Elements(Flat(index, blocks, |index|)) == FilesEntries(files)
  {
    hide Separated, Flat, SortedDisjoint, FileValue, FileIndex, FilesEntries, Opens;
    var index := FileIndex(files);
    IndexSorted(files);
    forall i | 0 <= i < |index|
      ensures Sorted(blocks(index[i].value)) && UpTo(index, blocks, i) && Behind(index, blocks, i)
    {
      FileSeparated(files, blocks, i);
    }
    SeparatedFromParts(index, blocks);
    FlatSorted(index, blocks, |index|);
    forall e
      ensures e in Elements(Flat(index, blocks, |index|)) <==> e in FilesEntries(files)
    {
      if e in Flat(index, blocks, |index|) {
        var i := FlatMember(index, blocks, |index|, e);
        IndexValue(files, blocks, i);
        HasEntry(files, i, e);
      }
      if e in FilesEntries(files) {
        var i := FileOf(files, e);
        IndexValue(files, blocks, i);
        FlatHas(index, blocks, |index|, i, e);
      }
    }
  }

  lemma SeparatedFromParts(index: seq<Entry>, blocks: Bytes -> seq<Entry>)
    requires Sorted(index)
    requires forall i :: 0 <= i < |index| ==>
               Sorted(blocks(index[i].value)) && UpTo(index, blocks, i) && Behind(index, blocks, i)
    ensures Separated(index, blocks)
  {
  }

  lemma IndexValue(files: seq<File>, blocks: Bytes -> seq<Entry>, i: nat)
    requires Opens(files, blocks) && i < |files|
    ensures FileIndex(files)[i].key == files[i].Largest() && blocks(FileIndex(files)[i].value) == files[i].run
  {
  }

  lemma {:induction false} FlatHas(index: seq<Entry>, blocks: Bytes -> seq<Entry>, n: nat, i: nat, e: Entry)
    requires i < n <= |index| && e in blocks(index[i].value)
    ensures e in Flat(index, blocks, n)
  {
    if i < n - 1 {
      FlatHas(index, blocks, n - 1, i, e);
    }
  }

  lemma FileSeparated(files: seq<File>, blocks: Bytes -> seq<Entry>, i: nat)
    requires SortedDisjoint(files) && Opens(files, blocks) && i < |files|
    ensures var index := FileIndex(files);
            Sorted(blocks(index[i].value)) && UpTo(index, blocks, i) && Behind(index, blocks, i)
  {
  }
}
