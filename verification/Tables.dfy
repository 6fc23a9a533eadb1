/** table.cc: opening a table file, looking up a key in it, and what a finished table file means: its two-level
    iterator runs over exactly the pairs that were added. */
module Tables {
  import opened Keys
  import opened Coding
  import opened Checksums
  import opened Comparators
  import opened Formats
  import opened Blocks
  import opened Filters
  import opened TableBuilders
  import opened TwoLevelIterators

  // ----- Where the pairs are

  lemma {:induction false} FlattenAt(blocks: seq<DataBlock>, n: nat, i: nat)
    requires i < n <= |blocks|
    ensures var start, block := |Flatten(blocks, i)|, blocks[i].layout.pairs;
            |Flatten(blocks, i + 1)| == start + |block| <= |Flatten(blocks, n)|
            && Flatten(blocks, n)[start..start + |block|] == block
  {
    if i + 1 < n {
      FlattenAt(blocks, n - 1, i);
      var start, block := |Flatten(blocks, i)|, blocks[i].layout.pairs;
      assert Flatten(blocks, n)[start..start + |block|] == Flatten(blocks, n - 1)[start..start + |block|];
    }
  }

  lemma {:induction false} FlattenGrows(blocks: seq<DataBlock>, i: nat, j: nat)
    requires i <= j <= |blocks|
    ensures |Flatten(blocks, i)| <= |Flatten(blocks, j)|
  {
    if i < j {
      FlattenGrows(blocks, i, j - 1);
    }
  }

  lemma PairAt(c: Comparator, blocks: seq<DataBlock>, pairs: seq<Pair>, i: nat, k: nat)
    requires pairs == Flatten(blocks, |blocks|) && Ascending(c, pairs)
    requires i < |blocks| && k < |blocks[i].layout.pairs|
    ensures var p := |Flatten(blocks, i)| + k;
            p < |pairs| && pairs[p] == blocks[i].layout.pairs[k] && WellFormed(c, pairs[p].key)
  {
    hide Run, Sorted, WellFormed;
    FlattenAt(blocks, |blocks|, i);
    var start, block := |Flatten(blocks, i)|, blocks[i].layout.pairs;
    assert pairs[start..start + |block|][k] == block[k];
  }

  lemma PairsOrdered(c: Comparator, pairs: seq<Pair>, i: nat, j: nat)
    requires Ascending(c, pairs) && i < |pairs| && j < |pairs|
    ensures WellFormed(c, pairs[i].key) && WellFormed(c, pairs[j].key)
    ensures i < j <==> Before(Rank(c, pairs[i].key), Rank(c, pairs[j].key))
  {
    hide Rank, WellFormed;
    Ordered(Run(c, pairs), i, j);
  }

  lemma BlockAscending(c: Comparator, blocks: seq<DataBlock>, pairs: seq<Pair>, i: nat)
    requires pairs == Flatten(blocks, |blocks|) && Ascending(c, pairs) && i < |blocks|
    ensures Ascending(c, blocks[i].layout.pairs)
  {
    hide *;
    var block, start := blocks[i].layout.pairs, |Flatten(blocks, i)|;
    forall k, l | 0 <= k <= l < |block|
      ensures WellFormed(c, block[k].key) && WellFormed(c, block[l].key)
      ensures k < l ==> Before(Rank(c, block[k].key), Rank(c, block[l].key))
    {
      PairAt(c, blocks, pairs, i, k);
      PairAt(c, blocks, pairs, i, l);
      PairsOrdered(c, pairs, start + k, start + l);
    }
    AscendingFrom(c, block);
  }

  lemma AscendingFrom(c: Comparator, pairs: seq<Pair>)
    requires forall k :: 0 <= k < |pairs| ==> WellFormed(c, pairs[k].key)
    requires forall k, l :: 0 <= k < l < |pairs| ==> Before(Rank(c, pairs[k].key), Rank(c, pairs[l].key))
    ensures Ascending(c, pairs)
  {
  }

  // ----- What the file means

  ghost predicate IsBlockAt(c: Comparator, crc: Bytes -> Word, file: Bytes, h: Bytes, lay: Layout) {
    && DecodeHandle(h).Some?
    && var contents := ReadBlock(crc, true, file, DecodeHandle(h).value.0);
       contents.Some? && Encoded(contents.value, lay) && Ascending(c, lay.pairs)
  }

  /** The run that BlockReader's iterator goes over, for an index value. */
  ghost function BlockRun(c: Comparator, crc: Bytes -> Word, file: Bytes, h: Bytes): seq<Entry> {
    if lay: Layout :| IsBlockAt(c, crc, file, h, lay) then Run(c, lay.pairs) else []
  }

  lemma BlockRunIs(c: Comparator, crc: Bytes -> Word, file: Bytes, h: Bytes, lay: Layout)
    requires IsBlockAt(c, crc, file, h, lay)
    ensures Ascending(c, lay.pairs) && BlockRun(c, crc, file, h) == Run(c, lay.pairs)
  {
    hide IsBlockAt, Ascending, Run;
    IsBlockAscending(c, crc, file, h, lay);
    forall other: Layout | IsBlockAt(c, crc, file, h, other)
      ensures Ascending(c, other.pairs) && other.pairs == lay.pairs
    {
      IsBlockAscending(c, crc, file, h, other);
      SameBlock(c, crc, file, h, lay, other);
    }
  }

  lemma IsBlockAscending(c: Comparator, crc: Bytes -> Word, file: Bytes, h: Bytes, lay: Layout)
    requires IsBlockAt(c, crc, file, h, lay)
    ensures Ascending(c, lay.pairs)
  {
  }

  lemma SameBlock(c: Comparator, crc: Bytes -> Word, file: Bytes, h: Bytes, a: Layout, b: Layout)
    requires IsBlockAt(c, crc, file, h, a) && IsBlockAt(c, crc, file, h, b)
    ensures a.pairs == b.pairs
  {
    hide Ascending, ReadBlock, DecodeHandle;
    EncodedUnique(ReadBlock(crc, true, file, DecodeHandle(h).value.0).value, a, b);
  }

  /** A stored block of less than 4 GiB can be read back through its encoded handle. */
  lemma StoredBlock(crc: Bytes -> Word, verifyChecksums: bool, file: Bytes, h: BlockHandle, lay: Layout)
    requires BlockStored(crc, file, h, lay) && |file| < TWO64 && h.size < TWO32
    ensures h.offset + h.size <= |file|
    ensures var contents := file[h.offset..h.offset + h.size];
            && DecodeHandle(EncodeHandle(h)) == Some((h, []))
            && ReadBlock(crc, verifyChecksums, file, h) == Some(contents) && Encoded(contents, lay)
  {
    hide Stored, Encoded, EncodeHandle, DecodeHandle;
    HandleRoundTrip(h, []);
    assert EncodeHandle(h) + [] == EncodeHandle(h);
    StoredIsRead(crc, verifyChecksums, file, h, file[h.offset..h.offset + h.size]);
  }

  lemma {:induction false} DataBlockAt(c: Comparator, crc: Bytes -> Word, file: Bytes, t: TableLayout, pairs: seq<Pair>,
                                       i: nat)
    requires TableFile(c, crc, file, t, pairs) && Sized(file, t) && i < |t.blocks|
    ensures |t.index.pairs| == |t.blocks| && IndexAt(c, t.index.pairs, t.blocks, [], i)
    ensures BlockStored(crc, file, t.blocks[i].handle, t.blocks[i].layout)
    ensures t.blocks[i].layout.pairs != [] && Ascending(c, t.blocks[i].layout.pairs)
    ensures BlockRun(c, crc, file, t.index.pairs[i].value) == Run(c, t.blocks[i].layout.pairs)
  {
    hide BlockStored, Ascending, Encoded, Run, BlockRun, AtOrAfter, Separates, EncodeHandle, DecodeHandle, ReadBlock;
    assert t.blocks[i] in t.blocks;
    BlockAscending(c, t.blocks, pairs, i);
    StoredBlock(crc, true, file, t.blocks[i].handle, t.blocks[i].layout);
    assert IndexAt(c, t.index.pairs, t.blocks, [], i);
    assert IsBlockAt(c, crc, file, t.index.pairs[i].value, t.blocks[i].layout);
    BlockRunIs(c, crc, file, t.index.pairs[i].value, t.blocks[i].layout);
  }

  /** The index and block runs of a finished table meet what the two-level iterator needs, and together they are the
      pairs that were added. */
  lemma TableMeaning(c: Comparator, crc: Bytes -> Word, file: Bytes, t: TableLayout, pairs: seq<Pair>)
    requires TableFile(c, crc, file, t, pairs) && Sized(file, t)
    ensures Ascending(c, t.index.pairs) && Ascending(c, pairs)
    ensures var index, blocks := Run(c, t.index.pairs), (h: Bytes) => BlockRun(c, crc, file, h);
            Separated(index, blocks) && Flat(index, blocks, |index|) == Run(c, pairs)
  {
    hide *;
    TableFileFacts(c, crc, file, t, pairs);
    AscendingRun(c, t.index.pairs);
    var index, blocks := Run(c, t.index.pairs), (h: Bytes) => BlockRun(c, crc, file, h);
    forall i | 0 <= i < |index|
      ensures Sorted(blocks(index[i].value)) && UpTo(index, blocks, i) && Behind(index, blocks, i)
    {
      TableBlock(c, crc, file, t, pairs, i);
    }
    SeparatedFrom(index, blocks);
    FlatIsRun(c, crc, file, t, pairs, |index|);
    FlattenAll(t.blocks, pairs);
  }

  lemma FlattenAll(blocks: seq<DataBlock>, pairs: seq<Pair>)
    requires pairs == Flatten(blocks, |blocks|)
    ensures pairs[..|Flatten(blocks, |blocks|)|] == pairs
  {
  }

  lemma TableFileFacts(c: Comparator, crc: Bytes -> Word, file: Bytes, t: TableLayout, pairs: seq<Pair>)
    requires TableFile(c, crc, file, t, pairs)
    ensures pairs == Flatten(t.blocks, |t.blocks|) && Ascending(c, pairs) && Ascending(c, t.index.pairs)
    ensures |t.index.pairs| == |t.blocks|
  {
    hide AllStored, Ascending, Indexed;
  }

  lemma AscendingRun(c: Comparator, pairs: seq<Pair>)
    requires Ascending(c, pairs)
    ensures Sorted(Run(c, pairs))
    ensures forall i :: 0 <= i < |pairs| ==>
              WellFormed(c, pairs[i].key) && Run(c, pairs)[i] == Entry(Rank(c, pairs[i].key), pairs[i].value)
  {
  }

  lemma SeparatedFrom(index: seq<Entry>, blocks: Bytes -> seq<Entry>)
    requires Sorted(index)
    requires forall i :: 0 <= i < |index| ==>
               Sorted(blocks(index[i].value)) && UpTo(index, blocks, i) && Behind(index, blocks, i)
    ensures Separated(index, blocks)
  {
  }

  lemma {:induction false} TableBlock(c: Comparator, crc: Bytes -> Word, file: Bytes, t: TableLayout, pairs: seq<Pair>,
                                      i: nat)
    requires TableFile(c, crc, file, t, pairs) && Sized(file, t) && i < |t.blocks|
    requires Ascending(c, t.index.pairs) && |t.index.pairs| == |t.blocks|
    ensures var index, blocks := Run(c, t.index.pairs), (h: Bytes) => BlockRun(c, crc, file, h);
            Sorted(blocks(index[i].value)) && UpTo(index, blocks, i) && Behind(index, blocks, i)
  {
    hide *;
    AscendingRun(c, t.index.pairs);
    var index, blocks := Run(c, t.index.pairs), (h: Bytes) => BlockRun(c, crc, file, h);
    TableFileFacts(c, crc, file, t, pairs);
    DataBlockAt(c, crc, file, t, pairs, i);
    AscendingRun(c, t.blocks[i].layout.pairs);
    forall e | e in blocks(index[i].value)
      ensures !Before(index[i].key, e.key)
    {
      var k :| 0 <= k < |Run(c, t.blocks[i].layout.pairs)| && Run(c, t.blocks[i].layout.pairs)[k] == e;
      NotBehindIndex(c, t, pairs, i, k);
    }
    UpToFrom(index, blocks, i);
    forall j, e | i < j < |index| && e in blocks(index[j].value)
      ensures Before(index[i].key, e.key)
    {
      DataBlockAt(c, crc, file, t, pairs, j);
      AscendingRun(c, t.blocks[j].layout.pairs);
      DataBlockAt(c, crc, file, t, pairs, i + 1);
      var k :| 0 <= k < |Run(c, t.blocks[j].layout.pairs)| && Run(c, t.blocks[j].layout.pairs)[k] == e;
      BehindIndex(c, t, pairs, i, j, k);
    }
    BehindFrom(index, blocks, i);
  }

  lemma UpToFrom(index: seq<Entry>, blocks: Bytes -> seq<Entry>, i: nat)
    requires i < |index| && forall e <- blocks(index[i].value) :: !Before(index[i].key, e.key)
    ensures UpTo(index, blocks, i)
  {
  }

  lemma BehindFrom(index: seq<Entry>, blocks: Bytes -> seq<Entry>, i: nat)
    requires i < |index| && forall j, e | i < j < |index| && e in blocks(index[j].value) :: Before(index[i].key, e.key)
    ensures Behind(index, blocks, i)
  {
  }

  lemma NotBehindIndex(c: Comparator, t: TableLayout, pairs: seq<Pair>, i: nat, k: nat)
    requires pairs == Flatten(t.blocks, |t.blocks|) && Ascending(c, pairs)
    requires i < |t.index.pairs| == |t.blocks| && IndexAt(c, t.index.pairs, t.blocks, [], i)
             && k < |t.blocks[i].layout.pairs|
    ensures WellFormed(c, t.index.pairs[i].key) && WellFormed(c, t.blocks[i].layout.pairs[k].key)
    ensures !Before(Rank(c, t.index.pairs[i].key), Rank(c, t.blocks[i].layout.pairs[k].key))
  {
    hide Rank, WellFormed, Ascending, Flatten;
    var block, start := t.blocks[i].layout.pairs, |Flatten(t.blocks, i)|;
    PairAt(c, t.blocks, pairs, i, k);
    PairAt(c, t.blocks, pairs, i, |block| - 1);
    PairsOrdered(c, pairs, start + k, start + |block| - 1);
  }

  lemma {:induction false} BehindIndex(c: Comparator, t: TableLayout, pairs: seq<Pair>, i: nat, j: nat, k: nat)
    requires pairs == Flatten(t.blocks, |t.blocks|) && Ascending(c, pairs)
    requires i < j < |t.index.pairs| == |t.blocks| && IndexAt(c, t.index.pairs, t.blocks, [], i)
    requires t.blocks[i + 1].layout.pairs != [] && k < |t.blocks[j].layout.pairs|
    ensures WellFormed(c, t.index.pairs[i].key) && WellFormed(c, t.blocks[j].layout.pairs[k].key)
    ensures Before(Rank(c, t.index.pairs[i].key), Rank(c, t.blocks[j].layout.pairs[k].key))
  {
    hide Rank, WellFormed, Ascending, Flatten;
    PairAt(c, t.blocks, pairs, i + 1, 0);
    PairAt(c, t.blocks, pairs, j, k);
    FlattenGrows(t.blocks, i + 1, j);
    PairsOrdered(c, pairs, |Flatten(t.blocks, i + 1)|, |Flatten(t.blocks, j)| + k);
  }

  lemma {:induction false} FlatIsRun(c: Comparator, crc: Bytes -> Word, file: Bytes, t: TableLayout, pairs: seq<Pair>,
                                     n: nat)
    requires TableFile(c, crc, file, t, pairs) && Sized(file, t) && n <= |t.blocks|
    requires Ascending(c, t.index.pairs) && Ascending(c, pairs) && |t.index.pairs| == |t.blocks|
    ensures var index, blocks := Run(c, t.index.pairs), (h: Bytes) => BlockRun(c, crc, file, h);
            |Flatten(t.blocks, n)| <= |pairs|
            && Flat(index, blocks, n) == Run(c, pairs)[..|Flatten(t.blocks, n)|]
  {
    hide *;
    AscendingRun(c, t.index.pairs);
    var index, blocks := Run(c, t.index.pairs), (h: Bytes) => BlockRun(c, crc, file, h);
    TableFileFacts(c, crc, file, t, pairs);
    FlattenGrows(t.blocks, n, |t.blocks|);
    FlatUnfold(index, blocks, n);
    FlattenUnfold(t.blocks, n);
    if n > 0 {
      var i := n - 1;
      FlatIsRun(c, crc, file, t, pairs, i);
      DataBlockAt(c, crc, file, t, pairs, i);
      BlockInRun(c, t.blocks, pairs, i);
    }
  }

  lemma FlatUnfold(index: seq<Entry>, blocks: Bytes -> seq<Entry>, n: nat)
    requires n <= |index|
    ensures Flat(index, blocks, n) == if n == 0 then [] else Flat(index, blocks, n - 1) + blocks(index[n - 1].value)
  {
  }

  lemma FlattenUnfold(blocks: seq<DataBlock>, n: nat)
    requires n <= |blocks|
    ensures Flatten(blocks, n) == if n == 0 then [] else Flatten(blocks, n - 1) + blocks[n - 1].layout.pairs
  {
  }

  lemma BlockInRun(c: Comparator, blocks: seq<DataBlock>, pairs: seq<Pair>, i: nat)
    requires pairs == Flatten(blocks, |blocks|) && Ascending(c, pairs) && i < |blocks|
    requires Ascending(c, blocks[i].layout.pairs)
    ensures var start, block := |Flatten(blocks, i)|, blocks[i].layout.pairs;
            start + |block| <= |pairs|
            && Run(c, pairs)[..start + |block|] == Run(c, pairs)[..start] + Run(c, block)
  {
    hide *;
    var start, block := |Flatten(blocks, i)|, blocks[i].layout.pairs;
    FlattenAt(blocks, |blocks|, i);
    AscendingRun(c, pairs);
    AscendingRun(c, block);
    var run := Run(c, pairs);
    forall k | 0 <= k < |block|
      ensures start + k < |pairs| && run[start + k] == Run(c, block)[k]
    {
      PairAt(c, blocks, pairs, i, k);
    }
    assert run[..start + |block|] == run[..start] + Run(c, block);
  }

  // ----- Lookup

  /** If the table has an entry of the user key at or after the target, the index leads to the block that has it. */
  lemma {:induction false} GetFindsBlock(c: Comparator, crc: Bytes -> Word, file: Bytes, t: TableLayout,
                                         pairs: seq<Pair>, k: Bytes, i: nat)
    requires TableFile(c, crc, file, t, pairs) && Sized(file, t) && WellFormed(c, k)
    requires Ascending(c, pairs) && Ascending(c, t.index.pairs)
    requires i == LowerBound(Run(c, pairs), Rank(c, k)) && i < |pairs|
    requires Rank(c, pairs[i].key).user == Rank(c, k).user
    ensures var j := LowerBound(Run(c, t.index.pairs), Rank(c, k));
            && j < |t.blocks| == |t.index.pairs| && Ascending(c, t.blocks[j].layout.pairs)
            && var block := t.blocks[j].layout.pairs;
               var m := LowerBound(Run(c, block), Rank(c, k));
               m < |block| && block[m] == pairs[i]
  {
    hide *;
    AscendingRun(c, pairs);
    AscendingRun(c, t.index.pairs);
    var goal, run, index := Rank(c, k), Run(c, pairs), Run(c, t.index.pairs);
    var blocks := (h: Bytes) => BlockRun(c, crc, file, h);
    TableFileFacts(c, crc, file, t, pairs);
    TableMeaning(c, crc, file, t, pairs);
    SeekSplits(index, blocks, goal);
    var j := LowerBound(index, goal);
    assert j < |index|;
    DataBlockAt(c, crc, file, t, pairs, j);
    var block := t.blocks[j].layout.pairs;
    AscendingRun(c, block);
    var m := LowerBound(Run(c, block), goal);
    StartsAgree(c, crc, file, t, pairs, j);
    if j + 1 < |t.blocks| {
      DataBlockAt(c, crc, file, t, pairs, j + 1);
    }
    if m < |block| {
      PairAt(c, t.blocks, pairs, j, m);
    } else {
      assert Before(Run(c, block)[|block| - 1].key, goal);
      NotAtBlockEnd(c, t, pairs, k, i, j, block[|block| - 1].key);
    }
  }

  lemma StartsAgree(c: Comparator, crc: Bytes -> Word, file: Bytes, t: TableLayout, pairs: seq<Pair>, n: nat)
    requires TableFile(c, crc, file, t, pairs) && Sized(file, t) && n <= |t.blocks|
    requires Ascending(c, t.index.pairs) && |t.index.pairs| == |t.blocks|
    ensures |Flat(Run(c, t.index.pairs), (h: Bytes) => BlockRun(c, crc, file, h), n)| == |Flatten(t.blocks, n)|
  {
    hide *;
    TableFileFacts(c, crc, file, t, pairs);
    AscendingRun(c, t.index.pairs);
    AscendingRun(c, pairs);
    FlatIsRun(c, crc, file, t, pairs, n);
  }

  /** The first entry behind a block whose index key is at or after the target cannot have the target's user key,
      unless the index key is that of the block's last entry. */
  lemma {:induction false} NotAtBlockEnd(c: Comparator, t: TableLayout, pairs: seq<Pair>, k: Bytes, i: nat, j: nat,
                                         last: Bytes)
    requires WellFormed(c, k) && WellFormed(c, last) && Before(Rank(c, last), Rank(c, k))
    requires j < |t.index.pairs| == |t.blocks| && WellFormed(c, t.index.pairs[j].key)
    requires !Before(Rank(c, t.index.pairs[j].key), Rank(c, k))
    requires t.blocks[j].layout.pairs != [] && last == t.blocks[j].layout.pairs[|t.blocks[j].layout.pairs| - 1].key
    requires j + 1 < |t.blocks| ==> t.blocks[j + 1].layout.pairs != []
    requires i == |Flatten(t.blocks, j)| + |t.blocks[j].layout.pairs| < |pairs|
    requires IndexAt(c, t.index.pairs, t.blocks, [], j)
    requires pairs == Flatten(t.blocks, |t.blocks|) && Ascending(c, pairs)
    ensures WellFormed(c, pairs[i].key) && Rank(c, pairs[i].key).user != Rank(c, k).user
  {
    hide Rank, WellFormed, Ascending, Flatten, IndexAt, AtOrAfter, Separates;
    FlattenAt(t.blocks, |t.blocks|, j);
    PairAt(c, t.blocks, pairs, j + 1, 0);
    SeparatorFacts(c, t.index.pairs, t.blocks, j);
  }

  lemma {:induction false} SeparatorFacts(c: Comparator, index: seq<Pair>, blocks: seq<DataBlock>, j: nat)
    requires j < |index| == |blocks| && IndexAt(c, index, blocks, [], j)
    requires blocks[j].layout.pairs != [] && j + 1 < |blocks| && blocks[j + 1].layout.pairs != []
    ensures var block, key, next := blocks[j].layout.pairs, index[j].key, blocks[j + 1].layout.pairs[0].key;
            && WellFormed(c, key) && WellFormed(c, next) && Before(Rank(c, key), Rank(c, next))
            && (key == block[|block| - 1].key || Rank(c, key).user < Rank(c, next).user)
  {
    hide Rank, WellFormed, ShortSeparator, AtOrAfter, EncodeHandle;
  }

  /** Two encoded keys of the same user key ask the filter the same question. */
  lemma SameFilterKey(c: Comparator, a: Bytes, b: Bytes)
    requires WellFormed(c, a) && WellFormed(c, b) && Rank(c, a).user == Rank(c, b).user
    ensures FilterKey(c.Internal?, a) == FilterKey(c.Internal?, b)
  {
    if c.Internal? {
      BytewiseEmbeds(ExtractUserKey(a), ExtractUserKey(b));
    } else {
      BytewiseEmbeds(a, b);
    }
  }

  /** Table::Open up to the index block: None stands for an error. */
  function OpenIndex(crc: Bytes -> Word, verifyChecksums: bool, file: Bytes): Option<(BlockHandle, Bytes)> {
    if |file| < FOOTER_LENGTH then None
    else
      var footer := DecodeFooter(file[|file| - FOOTER_LENGTH..]);
      if footer.None? then None
      else
        var contents := ReadBlock(crc, verifyChecksums, file, footer.value.1);
        if contents.None? then None else Some((footer.value.0, contents.value))
  }

  lemma TableOpens(c: Comparator, crc: Bytes -> Word, verifyChecksums: bool, file: Bytes, t: TableLayout,
                   pairs: seq<Pair>)
    requires TableFile(c, crc, file, t, pairs) && Sized(file, t)
    ensures t.indexHandle.offset + t.indexHandle.size <= |file|
    ensures var contents := file[t.indexHandle.offset..t.indexHandle.offset + t.indexHandle.size];
            && OpenIndex(crc, verifyChecksums, file) == Some((t.metaindexHandle, contents))
            && Encoded(contents, t.index) && Ascending(c, t.index.pairs)
  {
    hide BlockStored, ReadBlock, DecodeFooter, EncodeFooter, Encoded, Ascending, AllStored, Indexed;
    StoredBlock(crc, verifyChecksums, file, t.indexHandle, t.index);
    StoredBlock(crc, verifyChecksums, file, t.metaindexHandle, t.metaindex);
    FooterRoundTrip(t.metaindexHandle, t.indexHandle);
  }

  class Table {
    const comparator: Comparator
    const crc: Bytes -> Word
    const verifyChecksums: bool
    const file: Bytes
    const indexContents: Bytes
    const filter: FilterBlockReader?
    ghost const t: TableLayout
    ghost const pairs: seq<Pair>

    ghost predicate Valid() {
      && Sized(file, t) && TableFile(comparator, crc, file, t, pairs)
      && Encoded(indexContents, t.index) && Ascending(comparator, t.index.pairs)
      && (filter != null ==>
            && filter.Valid() && filter.internalKeys == comparator.Internal?
            && NoneMissed(filter.policy, comparator.Internal?, filter.contents, t.blocks))
    }

    /** Opens a finished table; with a filter policy, it is the one the table was built with. */
    constructor Open(comparator: Comparator, crc: Bytes -> Word, verifyChecksums: bool, file: Bytes,
                     policy: BloomFilterPolicy?, ghost t: TableLayout, ghost pairs: seq<Pair>)
      requires TableFile(comparator, crc, file, t, pairs) && Sized(file, t)
      requires policy != null ==>
                 t.metaindex.pairs == [] || FilterFile(policy, comparator.Internal?, crc, file, t)
      ensures Valid() && this.comparator == comparator && this.pairs == pairs && this.file == file
      ensures filter == null <==> policy == null || t.metaindex.pairs == []
      ensures filter != null ==> filter.policy == policy && FilterContents(file, t, filter.contents)
    {
      hide FilterContents, TableFile, Encoded, Ascending, FilterFile, NoneMissed, OpenIndex;
      TableOpens(comparator, crc, verifyChecksums, file, t, pairs);
      var found := OpenIndex(crc, verifyChecksums, file).value;
      var reader: FilterBlockReader? := null;
      if policy != null {
        reader := ReadMeta(comparator, crc, verifyChecksums, file, found.0, policy, t, pairs);
      }
      this.comparator, this.crc, this.verifyChecksums, this.file := comparator, crc, verifyChecksums, file;
      this.t, this.pairs := t, pairs;
      indexContents := found.1;
      filter := reader;
    }

    /** The filter knows that no key of the block has this user key. */
    ghost predicate Excluded(offset: nat, k: Bytes)
      requires filter != null
    {
      !BlockMayMatch(filter.policy.hash, filter.internalKeys, filter.contents, offset, k)
    }

    /** Looks the key up in the index, asks the filter, and then looks in one block.  The pair reported, if it has the
        user key looked for, is the first one of the table at or after the key; and if that one has the user key, it is
        reported. */
    method InternalGet(k: Bytes) returns (r: Option<Pair>)
      requires Valid() && WellFormed(comparator, k)
      ensures Ascending(comparator, pairs)
      ensures r.Some? ==> WellFormed(comparator, r.value.key)
      ensures var i, goal := LowerBound(Run(comparator, pairs), Rank(comparator, k)), Rank(comparator, k);
              if i < |pairs| && Rank(comparator, pairs[i].key).user == goal.user then r == Some(pairs[i])
              else r.None? || Rank(comparator, r.value.key).user != goal.user
      ensures filter != null && (forall b: DataBlock :: b in t.blocks ==> Excluded(b.handle.offset, k)) ==> r == None
    {
      hide TableFile, Encoded, Ascending, NoneMissed, Rank, WellFormed, DecodeHandle, ReadBlock, Run, BlockIter.Valid,
           BlockMayMatch, Sorted, BlockStored, AllStored, Indexed, IndexAt, BlockRun;
      TableFileFacts(comparator, crc, file, t, pairs);
      AscendingRun(comparator, pairs);
      AscendingRun(comparator, t.index.pairs);
      ghost var i, goal := LowerBound(Run(comparator, pairs), Rank(comparator, k)), Rank(comparator, k);
      ghost var there := i < |pairs| && Rank(comparator, pairs[i].key).user == goal.user;
      if there {
        GetFindsBlock(comparator, crc, file, t, pairs, k, i);
      }
      r := None;
      var indexIter := new BlockIter(comparator, indexContents, t.index);
      indexIter.Seek(k);
      ghost var j := indexIter.at;
      indexIter.OnEntryMeans();
      if indexIter.OnEntry() {
        DataBlockAt(comparator, crc, file, t, pairs, j);
        ghost var block := t.blocks[j];
        StoredBlock(crc, verifyChecksums, file, block.handle, block.layout);
        IndexValue(comparator, t.index.pairs, t.blocks, j);
        AscendingRun(comparator, block.layout.pairs);
        var handle := DecodeHandle(indexIter.Value());
        var mayMatch := true;
        if filter != null {
          mayMatch := filter.KeyMayMatch(handle.value.0.offset, k);
          if there {
            FilterMatchesSame(comparator, filter.policy, filter.contents, t, j, pairs[i], k);
          }
        }
        if mayMatch {
          var contents := ReadBlock(crc, verifyChecksums, file, handle.value.0);
          var blockIter := new BlockIter(comparator, contents.value, block.layout);
          blockIter.Seek(k);
          blockIter.OnEntryMeans();
          if blockIter.OnEntry() {
            r := Some(Pair(blockIter.key, blockIter.Value()));
            if !there {
              NotThere(comparator, crc, file, t, pairs, k, i, j, blockIter.at);
            }
          }
        }
      }
    }
  }

  lemma {:induction false} IndexValue(c: Comparator, index: seq<Pair>, blocks: seq<DataBlock>, j: nat)
    requires j < |index| == |blocks| && IndexAt(c, index, blocks, [], j)
    ensures index[j].value == EncodeHandle(blocks[j].handle)
  {
  }

  lemma {:induction false} FilterMatchesSame(c: Comparator, policy: BloomFilterPolicy, contents: Bytes, t: TableLayout,
                                             j: nat, p: Pair, k: Bytes)
    requires NoneMissed(policy, c.Internal?, contents, t.blocks) && j < |t.blocks| && p in t.blocks[j].layout.pairs
    requires WellFormed(c, p.key) && WellFormed(c, k) && Rank(c, p.key).user == Rank(c, k).user
    ensures BlockMayMatch(policy.hash, c.Internal?, contents, t.blocks[j].handle.offset, k)
  {
    SameFilterKey(c, p.key, k);
    hide Rank, WellFormed, FilterMatches, ReaderShape;
    assert BlockMayMatch(policy.hash, c.Internal?, contents, t.blocks[j].handle.offset, p.key);
  }

  /** An entry found at or after the key with the key's user key would be one that the whole table has. */
  lemma {:induction false} NotThere(c: Comparator, crc: Bytes -> Word, file: Bytes, t: TableLayout, pairs: seq<Pair>,
                                    k: Bytes, i: nat, j: nat, m: nat)
    requires TableFile(c, crc, file, t, pairs) && WellFormed(c, k) && Ascending(c, pairs)
    requires j < |t.blocks| && m < |t.blocks[j].layout.pairs| && Ascending(c, t.blocks[j].layout.pairs)
    requires i == LowerBound(Run(c, pairs), Rank(c, k))
    requires i < |pairs| ==> Rank(c, pairs[i].key).user != Rank(c, k).user
    requires m == LowerBound(Run(c, t.blocks[j].layout.pairs), Rank(c, k))
    ensures Rank(c, t.blocks[j].layout.pairs[m].key).user != Rank(c, k).user
  {
    hide Rank, WellFormed, Ascending, Flatten, TableFile, Run;
    TableFileFacts(c, crc, file, t, pairs);
    AscendingRun(c, pairs);
    AscendingRun(c, t.blocks[j].layout.pairs);
    PairAt(c, t.blocks, pairs, j, m);
    var p := |Flatten(t.blocks, j)| + m;
    assert !Before(Rank(c, pairs[p].key), Rank(c, k));
    assert i <= p;
    PairsOrdered(c, pairs, i, p);
    assert !Before(Rank(c, pairs[i].key), Rank(c, k));
  }

  /** Finds the filter through the metaindex block; without one, lookups go without. */
  method ReadMeta(c: Comparator, crc: Bytes -> Word, verifyChecksums: bool, file: Bytes, metaindexHandle: BlockHandle,
                  policy: BloomFilterPolicy, ghost t: TableLayout, ghost pairs: seq<Pair>)
                    returns (filter: FilterBlockReader?)
    requires TableFile(c, crc, file, t, pairs) && Sized(file, t) && metaindexHandle == t.metaindexHandle
    requires t.metaindex.pairs == [] || FilterFile(policy, c.Internal?, crc, file, t)
    ensures filter != null ==>
              && filter.Valid() && filter.internalKeys == c.Internal?
              && NoneMissed(filter.policy, c.Internal?, filter.contents, t.blocks)
    ensures filter == null <==> t.metaindex.pairs == []
    ensures filter != null ==> filter.policy == policy && FilterContents(file, t, filter.contents)
  {
    hide FilterContents, Encoded, Ascending, NoneMissed, Rank, WellFormed, DecodeHandle, ReadBlock, Run,
         BlockIter.Valid, FILTER_KEY, BlockMayMatch, Sorted, BlockStored, AllStored, Indexed, EncodeHandle,
         EncodeFooter, FilterFile, Stored;
    StoredBlock(crc, verifyChecksums, file, t.metaindexHandle, t.metaindex);
    BytewiseWellFormed(FILTER_KEY);
    filter := null;
    var contents := ReadBlock(crc, verifyChecksums, file, metaindexHandle);
    var iter := new BlockIter(Bytewise, contents.value, t.metaindex);
    iter.Seek(FILTER_KEY);
    iter.OnEntryMeans();
    if t.metaindex.pairs != [] {
      FilterKeyFound(policy, c.Internal?, crc, file, t);
      assert iter.Value() == t.metaindex.pairs[0].value;
    }
    if iter.OnEntry() && iter.key == FILTER_KEY {
      MetaindexValue(policy, c.Internal?, crc, verifyChecksums, file, t, iter.at);
      var handle := DecodeHandle(iter.Value());
      var block := ReadBlock(crc, verifyChecksums, file, handle.value.0);
      filter := new FilterBlockReader(policy, c.Internal?, block.value);
    }
  }

  lemma {:induction false} MetaindexValue(policy: BloomFilterPolicy, internalKeys: bool, crc: Bytes -> Word,
                                          verifyChecksums: bool, file: Bytes, t: TableLayout, i: nat)
    requires FilterFile(policy, internalKeys, crc, file, t) && Sized(file, t) && i < |t.metaindex.pairs|
    ensures var h := DecodeHandle(t.metaindex.pairs[i].value);
            && h.Some? && ReadBlock(crc, verifyChecksums, file, h.value.0).Some?
            && NoneMissed(policy, internalKeys, ReadBlock(crc, verifyChecksums, file, h.value.0).value, t.blocks)
            && FilterContents(file, t, ReadBlock(crc, verifyChecksums, file, h.value.0).value)
  {
    hide Stored, NoneMissed, EncodeHandle, DecodeHandle, ReadBlock, FILTER_KEY;
    var h := t.filterHandle.value;
    var contents: Bytes :|
      Stored(crc, file, h, contents) && (|contents| < TWO32 ==> NoneMissed(policy, internalKeys, contents, t.blocks));
    StoredBound(crc, file, h, contents);
    HandleRoundTrip(h, []);
    assert EncodeHandle(h) + [] == EncodeHandle(h);
    StoredIsRead(crc, verifyChecksums, file, h, contents);
    StoredBytes(crc, file, h, contents);
  }

  /** The bytes that the metaindex block points to. */
  ghost predicate FilterContents(file: Bytes, t: TableLayout, contents: Bytes) {
    && t.filterHandle.Some?
    && var h := t.filterHandle.value;
       h.offset + h.size <= |file| && contents == file[h.offset..h.offset + h.size]
  }

  lemma StoredBytes(crc: Bytes -> Word, file: Bytes, h: BlockHandle, contents: Bytes)
    requires Stored(crc, file, h, contents)
    ensures h.offset + h.size <= |file| && contents == file[h.offset..h.offset + h.size]
  {
    var all := file[h.offset..h.offset + h.size + TRAILER];
    assert all[..h.size] == contents;
  }

  /** The metaindex block has the one key looked for, so the search stops at it. */
  lemma FilterKeyFound(policy: BloomFilterPolicy, internalKeys: bool, crc: Bytes -> Word, file: Bytes, t: TableLayout)
    requires FilterFile(policy, internalKeys, crc, file, t) && WellFormed(Bytewise, FILTER_KEY)
    ensures |t.metaindex.pairs| == 1 && t.metaindex.pairs[0].key == FILTER_KEY
    ensures LowerBound(Run(Bytewise, t.metaindex.pairs), Rank(Bytewise, FILTER_KEY)) == 0
  {
    hide Stored, NoneMissed, EncodeHandle, FILTER_KEY, Rank;
    var run := Run(Bytewise, t.metaindex.pairs);
    assert run[0].key == Rank(Bytewise, FILTER_KEY);
    LowerBoundIs(run, Rank(Bytewise, FILTER_KEY), 0);
  }

  lemma StoredBound(crc: Bytes -> Word, file: Bytes, h: BlockHandle, contents: Bytes)
    requires Stored(crc, file, h, contents)
    ensures h.offset + h.size <= |file| && |contents| == h.size
  {
  }

  /** A lookup in a table answers for the whole table: what InternalGet reports, when its user key is the one asked
      for, is the newest entry that the snapshot sees among all entries of the table, and otherwise there is none. */
  lemma GetIsNewest(c: Comparator, pairs: seq<Pair>, k: Bytes, r: Option<Pair>)
    requires Ascending(c, pairs) && WellFormed(c, k) && Rank(c, k).kind.TypeValue?
    requires r.Some? ==> WellFormed(c, r.value.key)
    requires var i, goal := LowerBound(Run(c, pairs), Rank(c, k)), Rank(c, k);
             if i < |pairs| && Rank(c, pairs[i].key).user == goal.user then r == Some(pairs[i])
             else r.None? || Rank(c, r.value.key).user != goal.user
    ensures Newest(Elements(Run(c, pairs)), Rank(c, k).user, Rank(c, k).sequence)
         == if r.Some? && Rank(c, r.value.key).user == Rank(c, k).user
            then Some(Entry(Rank(c, r.value.key), r.value.value)) else None
  {
    hide Rank, WellFormed, Ascending, Newest;
    AscendingRun(c, pairs);
    assert SeekKey(Rank(c, k).user, Rank(c, k).sequence) == Rank(c, k);
    NewestInRun(Run(c, pairs), Rank(c, k).user, Rank(c, k).sequence);
  }
}
