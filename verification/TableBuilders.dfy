/** table_builder.cc: data blocks, and an index whose key for a block is chosen only when the first key of the next
    block is known. */
module TableBuilders {
  import opened Keys
  import opened Coding
  import opened Checksums
  import opened Comparators
  import opened Formats
  import opened Blocks
  import opened Filters

  datatype DataBlock = DataBlock(handle: BlockHandle, layout: Layout)

  function Ascii(s: string): Bytes {
    seq(|s|, i requires 0 <= i < |s| => s[i] as int % 256)
  }

  const FILTER_KEY: Bytes := Ascii("filter.leveldb.BuiltinBloomFilter2")

  /** The block is in the file, and its bytes are those of the layout. */
  ghost predicate BlockStored(crc: Bytes -> Word, file: Bytes, h: BlockHandle, lay: Layout) {
    && h.offset + h.size + TRAILER <= |file|
    && var contents := file[h.offset..h.offset + h.size];
       Stored(crc, file, h, contents) && (|contents| < TWO32 ==> Encoded(contents, lay))
  }

  ghost predicate AllStored(crc: Bytes -> Word, file: Bytes, blocks: seq<DataBlock>) {
    forall b <- blocks :: b.layout.pairs != [] && BlockStored(crc, file, b.handle, b.layout)
  }

  ghost predicate AllCompressed(interval: nat, blocks: seq<DataBlock>) {
    forall b: DataBlock :: b in blocks ==> Compressed(interval, b.layout)
  }

  function Flatten(blocks: seq<DataBlock>, n: nat): seq<Pair>
    requires n <= |blocks|
  {
    if n == 0 then [] else Flatten(blocks, n - 1) + blocks[n - 1].layout.pairs
  }

  /** An index key is at or after the last key of its block... */
  ghost predicate AtOrAfter(c: Comparator, key: Bytes, last: Bytes) {
    WellFormed(c, key) && WellFormed(c, last) && !Before(Rank(c, key), Rank(c, last))
  }

  /** ...and before the first key of the next one; if it is not the last key itself, its user key is even smaller
      than that of the next block's first key.  It is the short key that the comparator makes of the two. */
  ghost predicate Separates(c: Comparator, key: Bytes, last: Bytes, next: Bytes) {
    && WellFormed(c, key) && WellFormed(c, next)
    && Before(Rank(c, key), Rank(c, next)) && (key == last || Rank(c, key).user < Rank(c, next).user)
    && ShortSeparator(c, last, next, key)
  }

  function LastKey(pairs: seq<Pair>): Bytes {
    if pairs == [] then [] else pairs[|pairs| - 1].key
  }

  /** The first entry behind block i: of block i+1, or of the data block under construction. */
  function NextPairs(blocks: seq<DataBlock>, current: seq<Pair>, i: nat): seq<Pair> {
    if i + 1 < |blocks| then blocks[i + 1].layout.pairs else current
  }

  ghost predicate IndexAt(c: Comparator, index: seq<Pair>, blocks: seq<DataBlock>, current: seq<Pair>, i: nat)
    requires i < |index| <= |blocks|
  {
    var last, next := LastKey(blocks[i].layout.pairs), NextPairs(blocks, current, i);
    && index[i].value == EncodeHandle(blocks[i].handle)
    && AtOrAfter(c, index[i].key, last)
    && (next != [] ==> Separates(c, index[i].key, last, next[0].key))
  }

  /** The last index key, which has nothing behind it, is a short key at or after the last key of all. */
  ghost predicate LastIsShort(c: Comparator, index: seq<Pair>, blocks: seq<DataBlock>) {
    && |index| == |blocks|
    && (blocks != [] ==>
          ShortSuccessor(c, LastKey(blocks[|blocks| - 1].layout.pairs), index[|index| - 1].key))
  }

  ghost predicate Indexed(c: Comparator, index: seq<Pair>, blocks: seq<DataBlock>, current: seq<Pair>) {
    |index| <= |blocks| && forall i :: 0 <= i < |index| ==> IndexAt(c, index, blocks, current, i)
  }

  /** What holds between two calls of Add: every pair added is in a finished block or in the current one, and the
      index covers the finished blocks, except the last one as long as nothing was added behind it. */
  ghost predicate Building(c: Comparator, crc: Bytes -> Word, file: Bytes, blocks: seq<DataBlock>, index: seq<Pair>,
                           current: seq<Pair>, pairs: seq<Pair>, lastKey: Bytes, pending: Option<BlockHandle>)
  {
    && AllStored(crc, file, blocks)
    && pairs == Flatten(blocks, |blocks|) + current && Ascending(c, pairs) && lastKey == LastKey(pairs)
    && Indexed(c, index, blocks, current)
    && (if pending.Some? then
          |index| + 1 == |blocks| && current == [] && pending.value == blocks[|blocks| - 1].handle
        else
          |index| == |blocks| && (blocks != [] ==> current != []))
  }

  /** The filter knows every key under the offset of its block. */
  ghost predicate Filtered(added: set<Added>, blocks: seq<DataBlock>, current: seq<Pair>, offset: nat) {
    && (forall b, p | b in blocks && p in b.layout.pairs :: Added(b.handle.offset, p.key) in added)
    && (forall p <- current :: Added(offset, p.key) in added)
  }

  // ----- A finished table

  datatype TableLayout = TableLayout(blocks: seq<DataBlock>, index: Layout, indexHandle: BlockHandle,
                                     metaindex: Layout, metaindexHandle: BlockHandle, filterHandle: Option<BlockHandle>)

  /** Positions within a block have 32 bits, positions of blocks in the file 64. */
  ghost predicate Sized(file: Bytes, t: TableLayout) {
    && |file| < TWO64 && (forall b <- t.blocks :: b.handle.size < TWO32)
    && t.indexHandle.size < TWO32 && t.metaindexHandle.size < TWO32
    && (t.filterHandle.Some? ==> t.filterHandle.value.size < TWO32)
  }

  ghost predicate TableFile(c: Comparator, crc: Bytes -> Word, file: Bytes, t: TableLayout, pairs: seq<Pair>) {
    && AllStored(crc, file, t.blocks)
    && pairs == Flatten(t.blocks, |t.blocks|) && Ascending(c, pairs)
    && |t.index.pairs| == |t.blocks| && Indexed(c, t.index.pairs, t.blocks, []) && Ascending(c, t.index.pairs)
    && BlockStored(crc, file, t.indexHandle, t.index)
    && BlockStored(crc, file, t.metaindexHandle, t.metaindex) && Ascending(Bytewise, t.metaindex.pairs)
    && |file| >= FOOTER_LENGTH && file[|file| - FOOTER_LENGTH..] == EncodeFooter(t.metaindexHandle, t.indexHandle)
  }

  /** The filter that the metaindex block points to has no false negatives for the keys of the table. */
  ghost predicate FilterFile(policy: BloomFilterPolicy, internalKeys: bool, crc: Bytes -> Word, file: Bytes,
                             t: TableLayout) {
    && t.filterHandle.Some? && t.metaindex.pairs == [Pair(FILTER_KEY, EncodeHandle(t.filterHandle.value))]
    && exists contents: Bytes ::
         && Stored(crc, file, t.filterHandle.value, contents)
         && (|contents| < TWO32 ==> NoneMissed(policy, internalKeys, contents, t.blocks))
  }

  ghost predicate NoneMissed(policy: BloomFilterPolicy, internalKeys: bool, contents: Bytes, blocks: seq<DataBlock>) {
    forall b, p | b in blocks && p in b.layout.pairs ::
      BlockMayMatch(policy.hash, internalKeys, contents, b.handle.offset, p.key)
  }

  // ----- Steps of the builder

  lemma {:induction false} AllStoredLonger(crc: Bytes -> Word, file: Bytes, longer: Bytes, blocks: seq<DataBlock>)
    requires AllStored(crc, file, blocks) && file <= longer
    ensures AllStored(crc, longer, blocks)
  {
    hide BlockStored;
    forall b | b in blocks
      ensures BlockStored(crc, longer, b.handle, b.layout)
    {
      BlockStoredLonger(crc, file, longer, b.handle, b.layout);
    }
  }

  lemma BlockStoredLonger(crc: Bytes -> Word, file: Bytes, longer: Bytes, h: BlockHandle, lay: Layout)
    requires BlockStored(crc, file, h, lay) && file <= longer
    ensures BlockStored(crc, longer, h, lay)
  {
    hide Stored, Encoded;
    var contents := file[h.offset..h.offset + h.size];
    StoredLonger(crc, file, longer, h, contents);
    assert longer[..|file|] == file;
    SliceOfPrefix(longer, |file|, h.offset, h.offset + h.size);
  }

  lemma BlockStoredAppended(crc: Bytes -> Word, file: Bytes, contents: Bytes, lay: Layout)
    requires |contents| < TWO32 ==> Encoded(contents, lay)
    ensures BlockStored(crc, file + contents + Trailer(crc, contents, NO_COMPRESSION), BlockHandle(|file|, |contents|),
                        lay)
  {
  }

  lemma {:induction false} FlattenAppend(blocks: seq<DataBlock>, b: DataBlock, n: nat)
    requires n <= |blocks|
    ensures Flatten(blocks + [b], n) == Flatten(blocks, n)
  {
    if n > 0 {
      FlattenAppend(blocks, b, n - 1);
    }
  }

  /** The current block is written out. */
  lemma {:induction false} FlushStep(c: Comparator, crc: Bytes -> Word, file: Bytes, blocks: seq<DataBlock>,
                                     index: seq<Pair>, current: seq<Pair>,
                  pairs: seq<Pair>, lastKey: Bytes, longer: Bytes, b: DataBlock)
    requires Building(c, crc, file, blocks, index, current, pairs, lastKey, None) && current != []
    requires file <= longer && b.layout.pairs == current && BlockStored(crc, longer, b.handle, b.layout)
    ensures Building(c, crc, longer, blocks + [b], index, [], pairs, lastKey, Some(b.handle))
  {
    hide BlockStored, Ascending, AtOrAfter, Separates, EncodeHandle;
    AllStoredLonger(crc, file, longer, blocks);
    FlattenAppend(blocks, b, |blocks|);
    forall i | 0 <= i < |index|
      ensures IndexAt(c, index, blocks + [b], [], i)
    {
      assert IndexAt(c, index, blocks, current, i);
    }
  }

  /** A pair is added to the current block. */
  lemma {:induction false} AddStep(c: Comparator, crc: Bytes -> Word, file: Bytes, blocks: seq<DataBlock>,
                                   index: seq<Pair>, current: seq<Pair>,
                pairs: seq<Pair>, lastKey: Bytes, p: Pair)
    requires Building(c, crc, file, blocks, index, current, pairs, lastKey, None)
    requires Ascending(c, pairs + [p])
    ensures Building(c, crc, file, blocks, index, current + [p], pairs + [p], p.key, None)
  {
    hide AllStored, Ascending, AtOrAfter, Separates, EncodeHandle, Flatten;
    assert pairs + [p] == Flatten(blocks, |blocks|) + (current + [p]);
    forall i | 0 <= i < |index|
      ensures IndexAt(c, index, blocks, current + [p], i)
    {
      assert IndexAt(c, index, blocks, current, i);
    }
  }

  /** A pair is added behind a finished block, whose index entry is made now. */
  lemma {:induction false} AddPendingStep(c: Comparator, crc: Bytes -> Word, file: Bytes, blocks: seq<DataBlock>,
                                          index: seq<Pair>,
                       pairs: seq<Pair>, lastKey: Bytes, h: BlockHandle, separator: Bytes, p: Pair)
    requires Building(c, crc, file, blocks, index, [], pairs, lastKey, Some(h))
    requires Ascending(c, pairs + [p])
    requires AtOrAfter(c, separator, lastKey) && Separates(c, separator, lastKey, p.key)
    ensures Building(c, crc, file, blocks, index + [Pair(separator, EncodeHandle(h))], [p], pairs + [p], p.key, None)
  {
    hide Ascending, AtOrAfter, Separates, EncodeHandle, BlockStored;
    var longer := index + [Pair(separator, EncodeHandle(h))];
    LastOfFlatten(blocks);
    assert pairs == Flatten(blocks, |blocks|);
    forall i | 0 <= i < |longer|
      ensures IndexAt(c, longer, blocks, [p], i)
    {
      if i < |index| {
        assert IndexAt(c, index, blocks, [], i);
      }
    }
  }

  lemma {:induction false} LastOfFlatten(blocks: seq<DataBlock>)
    ensures blocks != [] && blocks[|blocks| - 1].layout.pairs != [] ==>
              LastKey(Flatten(blocks, |blocks|)) == LastKey(blocks[|blocks| - 1].layout.pairs)
  {
  }

  /** The new index key is behind those already there. */
  lemma {:induction false} IndexAscends(c: Comparator, crc: Bytes -> Word, file: Bytes, blocks: seq<DataBlock>,
                                        index: seq<Pair>,
                     pairs: seq<Pair>, lastKey: Bytes, h: BlockHandle, separator: Bytes)
    requires Building(c, crc, file, blocks, index, [], pairs, lastKey, Some(h)) && AtOrAfter(c, separator, lastKey)
    ensures WellFormed(c, separator)
    ensures index != [] ==>
              WellFormed(c, index[|index| - 1].key) && Before(Rank(c, index[|index| - 1].key), Rank(c, separator))
  {
    hide Flatten, Rank, WellFormed, BlockStored;
    if index != [] {
      var n := |index|;
      assert IndexAt(c, index, blocks, [], n - 1);
      var block := blocks[n].layout.pairs;
      assert blocks[n] in blocks;
      LastTwo(c, blocks, pairs);
      LastOfFlatten(blocks);
      assert pairs == Flatten(blocks, |blocks|);
    }
  }

  /** Within the last block the first key is not behind the last one. */
  lemma {:induction false} LastTwo(c: Comparator, blocks: seq<DataBlock>, pairs: seq<Pair>)
    requires blocks != [] && blocks[|blocks| - 1].layout.pairs != []
    requires Ascending(c, pairs) && pairs == Flatten(blocks, |blocks|) + []
    ensures var block := blocks[|blocks| - 1].layout.pairs;
            WellFormed(c, block[0].key) && WellFormed(c, LastKey(block))
            && !Before(Rank(c, LastKey(block)), Rank(c, block[0].key))
  {
    hide Rank, WellFormed;
    var block, front := blocks[|blocks| - 1].layout.pairs, Flatten(blocks, |blocks| - 1);
    assert pairs == front + block;
    var i, j := |front|, |pairs| - 1;
    assert pairs[i] == block[0] && pairs[j] == block[|block| - 1];
    var run := Run(c, pairs);
    Ordered(run, i, j);
  }

  /** The index entry of the last block is made when the table is finished. */
  lemma {:induction false} FinishIndexStep(c: Comparator, crc: Bytes -> Word, file: Bytes, blocks: seq<DataBlock>,
                                           index: seq<Pair>, pairs: seq<Pair>, lastKey: Bytes, h: BlockHandle,
                                               successor: Bytes)
    requires Building(c, crc, file, blocks, index, [], pairs, lastKey, Some(h)) && AtOrAfter(c, successor, lastKey)
    ensures var longer := index + [Pair(successor, EncodeHandle(h))];
            |longer| == |blocks| && Indexed(c, longer, blocks, [])
            && (ShortSuccessor(c, lastKey, successor) ==> LastIsShort(c, longer, blocks))
  {
    hide ShortSuccessor, Ascending, AtOrAfter, Separates, EncodeHandle, BlockStored;
    var longer := index + [Pair(successor, EncodeHandle(h))];
    LastOfFlatten(blocks);
    assert pairs == Flatten(blocks, |blocks|);
    forall i | 0 <= i < |longer|
      ensures IndexAt(c, longer, blocks, [], i)
    {
      if i < |index| {
        assert IndexAt(c, index, blocks, [], i);
      }
    }
  }

  lemma {:induction false} FilterFlush(added: set<Added>, blocks: seq<DataBlock>, offset: nat, b: DataBlock, next: nat)
    requires Filtered(added, blocks, b.layout.pairs, offset) && b.handle.offset == offset
    ensures Filtered(added, blocks + [b], [], next)
  {
  }

  lemma {:induction false} FilterAdd(added: set<Added>, blocks: seq<DataBlock>, current: seq<Pair>, offset: nat,
                                     p: Pair)
    requires Filtered(added, blocks, current, offset)
    ensures Filtered(added + {Added(offset, p.key)}, blocks, current + [p], offset)
  {
  }

  lemma {:induction false} BuildingFacts(c: Comparator, crc: Bytes -> Word, file: Bytes, blocks: seq<DataBlock>,
                                         index: seq<Pair>, current: seq<Pair>, pairs: seq<Pair>, lastKey: Bytes,
                                             pending: Option<BlockHandle>)
    requires Building(c, crc, file, blocks, index, current, pairs, lastKey, pending)
    ensures Ascending(c, pairs) && lastKey == LastKey(pairs) && (pairs != [] ==> WellFormed(c, lastKey))
    ensures pending.Some? ==> current == [] && pairs != []
    ensures current != [] ==> pairs != [] && LastKey(current) == lastKey
    ensures pending.None? && current == [] ==> pairs == [] && blocks == [] && index == []
  {
  }

  lemma BytewiseWellFormed(key: Bytes)
    ensures WellFormed(Bytewise, key)
  {
  }

  lemma CompressedMore(interval: nat, blocks: seq<DataBlock>, b: DataBlock)
    requires AllCompressed(interval, blocks) && Compressed(interval, b.layout)
    ensures AllCompressed(interval, blocks + [b])
  {
    hide Compressed;
  }

  lemma NothingBuilt(c: Comparator, crc: Bytes -> Word, interval: nat)
    ensures Building(c, crc, [], [], [], [], [], [], None) && AllCompressed(interval, []) && Filtered({}, [], [], 0)
  {
  }

  class TableBuilder {
    const comparator: Comparator
    const crc: Bytes -> Word
    const blockSize: nat
    const interval: nat
    const dataBlock: BlockBuilder
    const indexBlock: BlockBuilder
    const filter: FilterBlockBuilder?
    var file: Bytes
    var offset: nat
    var lastKey: Bytes
    var numEntries: nat
    var closed: bool
    var pendingIndexEntry: bool
    var pendingHandle: BlockHandle
    ghost var blocks: seq<DataBlock>
    ghost var pairs: seq<Pair>  // everything added

    ghost function Pending(): Option<BlockHandle>
      reads this
    {
      if pendingIndexEntry then Some(pendingHandle) else None
    }

    ghost predicate Ready()
      reads this, dataBlock, indexBlock, filter
    {
      && dataBlock != indexBlock && dataBlock.Valid() && indexBlock.Valid()
      && dataBlock.comparator == comparator && indexBlock.comparator == comparator && interval >= 1
      && dataBlock.interval == interval && indexBlock.interval == 1 && AllCompressed(interval, blocks)
      && offset == |file| && numEntries == |pairs|
      && Building(comparator, crc, file, blocks, indexBlock.layout.pairs, dataBlock.layout.pairs, pairs, lastKey,
                  Pending())
    }

    ghost predicate FilterReady()
      reads this, dataBlock, filter
    {
      filter != null ==>
        && filter.Valid() && filter.block == Some(offset) && filter.internalKeys == comparator.Internal?
        && Filtered(filter.added, blocks, dataBlock.layout.pairs, offset)
    }

    ghost predicate Valid()
      reads this, dataBlock, indexBlock, filter
    {
      Ready() && FilterReady() && !closed
    }

    constructor (comparator: Comparator, crc: Bytes -> Word, blockSize: nat, interval: nat, policy: BloomFilterPolicy?)
      requires interval >= 1
      ensures Valid() && pairs == [] && file == []
      ensures fresh(dataBlock) && fresh(indexBlock) && (filter != null ==> fresh(filter))
      ensures this.comparator == comparator && this.crc == crc && this.blockSize == blockSize
      ensures (filter == null <==> policy == null) && (filter != null ==> filter.policy == policy)
    {
      hide Building, Filtered, AllCompressed, BlockBuilder.Valid, FilterBlockBuilder.Valid;
      NothingBuilt(comparator, crc, interval);
      this.comparator, this.crc, this.blockSize, this.interval := comparator, crc, blockSize, interval;
      dataBlock := new BlockBuilder(comparator, interval);
      indexBlock := new BlockBuilder(comparator, 1);
      var f: FilterBlockBuilder? := null;
      if policy != null {
        f := new FilterBlockBuilder(policy, comparator.Internal?);
        f.StartBlock(0);
      }
      filter := f;
      file, offset, lastKey, numEntries, closed, pendingIndexEntry := [], 0, [], 0, false, false;
      pendingHandle := BlockHandle(0, 0);
      blocks, pairs := [], [];
    }

    method WriteRawBlock(contents: Bytes) returns (handle: BlockHandle)
      requires offset == |file|
      modifies `file, `offset
      ensures file == old(file) + contents + Trailer(crc, contents, NO_COMPRESSION) && offset == |file|
      ensures handle == BlockHandle(old(offset), |contents|)
    {
      handle := BlockHandle(offset, |contents|);
      file := file + contents;
      file := file + Trailer(crc, contents, NO_COMPRESSION);
      offset := offset + |contents| + TRAILER;
    }

    /** Adds a pair; the caller's keys increase strictly. */
    method Add(key: Bytes, value: Bytes)
      requires Valid() && WellFormed(comparator, key)
      requires pairs != [] ==>
                 WellFormed(comparator, lastKey) && Before(Rank(comparator, lastKey), Rank(comparator, key))
      modifies this, dataBlock, indexBlock, filter
      ensures Valid() && pairs == old(pairs) + [Pair(key, value)] && lastKey == key
      ensures old(file) <= file
      ensures var current := old(dataBlock.layout.pairs) + [Pair(key, value)];
              if dataBlock.layout.pairs == [] then
                exists b: DataBlock :: blocks == old(blocks) + [b] && b.layout.pairs == current
                    && b.handle.size >= blockSize
              else
                blocks == old(blocks) && dataBlock.layout.pairs == current
                    && dataBlock.CurrentSizeEstimate() < blockSize
    {
      hide Building, Ascending, Filtered, Rank, WellFormed, BlockBuilder.Valid, FilterBlockBuilder.Valid, AllCompressed;
      BuildingFacts(comparator, crc, file, blocks, indexBlock.layout.pairs, dataBlock.layout.pairs, pairs, lastKey,
                    Pending());
      dataBlock.Facts();
      IndexPending(key, value);
      AddToFilter(key, value);
      lastKey := key;
      numEntries := numEntries + 1;
      dataBlock.Add(key, value);
      pairs := pairs + [Pair(key, value)];
      if dataBlock.CurrentSizeEstimate() >= blockSize {
        Flush();
      }
    }

    /** The index entry of a finished block is made when the first key behind it is known. */
    method IndexPending(key: Bytes, ghost value: Bytes)
      requires Ready() && WellFormed(comparator, key)
      requires pairs != [] ==>
                 WellFormed(comparator, lastKey) && Before(Rank(comparator, lastKey), Rank(comparator, key))
      modifies `pendingIndexEntry, indexBlock
      ensures indexBlock.Valid() && !pendingIndexEntry
      ensures var p := Pair(key, value);
              Building(comparator, crc, file, blocks, indexBlock.layout.pairs, dataBlock.layout.pairs + [p],
                       pairs + [p], key, None)
    {
      hide Building, Ascending, Rank, WellFormed, BlockBuilder.Valid, ShortSeparator;
      ghost var p, index := Pair(key, value), indexBlock.layout.pairs;
      BuildingFacts(comparator, crc, file, blocks, index, dataBlock.layout.pairs, pairs, lastKey, Pending());
      AscendingAppend(comparator, pairs, p);
      if pendingIndexEntry {
        var separator := FindShortestSeparator(comparator, lastKey, key);
        assert AtOrAfter(comparator, separator, lastKey) && Separates(comparator, separator, lastKey, key);
        IndexAscends(comparator, crc, file, blocks, index, pairs, lastKey, pendingHandle, separator);
        AddPendingStep(comparator, crc, file, blocks, index, pairs, lastKey, pendingHandle, separator, p);
        indexBlock.Facts();
        indexBlock.Add(separator, EncodeHandle(pendingHandle));
        pendingIndexEntry := false;
        assert dataBlock.layout.pairs + [p] == [p];
      } else {
        AddStep(comparator, crc, file, blocks, index, dataBlock.layout.pairs, pairs, lastKey, p);
      }
    }

    method AddToFilter(key: Bytes, ghost value: Bytes)
      requires FilterReady()
      modifies filter
      ensures filter != null ==>
                && filter.Valid() && filter.block == Some(offset) && filter.internalKeys == comparator.Internal?
                && Filtered(filter.added, blocks, dataBlock.layout.pairs + [Pair(key, value)], offset)
    {
      hide Filtered, FilterBlockBuilder.Valid;
      if filter != null {
        FilterAdd(filter.added, blocks, dataBlock.layout.pairs, offset, Pair(key, value));
        filter.AddKey(key);
      }
    }

    /** Writes out the current data block, if there is anything in it. */
    method Flush()
      requires Valid()
      modifies this, dataBlock, indexBlock, filter
      ensures Valid() && dataBlock.layout.pairs == [] && pairs == old(pairs) && lastKey == old(lastKey)
      ensures old(file) <= file
      ensures blocks == old(blocks)
                        + if old(dataBlock.layout.pairs) == [] then []
                          else [DataBlock(BlockHandle(|old(file)|, old(dataBlock.CurrentSizeEstimate())),
                                          old(dataBlock.layout))]
    {
      hide Building, Ascending, Filtered, Rank, WellFormed, Encoded, BlockBuilder.Valid, FilterBlockBuilder.Valid,
           BlockBuilder.Empty, AllCompressed, Compressed;
      dataBlock.Facts();
      BuildingFacts(comparator, crc, file, blocks, indexBlock.layout.pairs, dataBlock.layout.pairs, pairs, lastKey,
                    Pending());
      if dataBlock.Empty() {
        return;
      }
      ghost var was, lay := file, dataBlock.layout;
      var contents := dataBlock.Finish();
      BlockStoredAppended(crc, file, contents, lay);
      pendingHandle := WriteRawBlock(contents);
      dataBlock.Reset();
      pendingIndexEntry := true;
      ghost var b := DataBlock(pendingHandle, lay);
      FlushStep(comparator, crc, was, blocks, indexBlock.layout.pairs, lay.pairs, pairs, lastKey, file, b);
      StartFilterBlock(b);
      CompressedMore(interval, blocks, b);
      blocks := blocks + [b];
    }

    method StartFilterBlock(ghost b: DataBlock)
      requires b.handle.offset <= offset
      requires filter != null ==>
                 && filter.Valid() && filter.block == Some(b.handle.offset)
                     && filter.internalKeys == comparator.Internal?
                 && Filtered(filter.added, blocks, b.layout.pairs, b.handle.offset)
      modifies filter
      ensures filter != null ==>
                && filter.Valid() && filter.block == Some(offset) && filter.internalKeys == comparator.Internal?
                && Filtered(filter.added, blocks + [b], [], offset)
    {
      hide Filtered, FilterBlockBuilder.Valid;
      if filter != null {
        FilterFlush(filter.added, blocks, b.handle.offset, b, offset);
        filter.Facts();
        filter.StartBlock(offset);
      }
    }

    /** Writes the last data block, the filter, the metaindex block, the index block and the footer. */
    method Finish() returns (ghost t: TableLayout)
      requires Valid()
      modifies this, dataBlock, indexBlock, filter
      ensures closed && pairs == old(pairs) && old(file) <= file
      ensures TableFile(comparator, crc, file, t, pairs)
      ensures filter != null ==> FilterFile(filter.policy, comparator.Internal?, crc, file, t)
      ensures filter == null ==> t.metaindex.pairs == []
      ensures AllCompressed(interval, t.blocks) && Compressed(1, t.index) && Compressed(interval, t.metaindex)
      ensures LastIsShort(comparator, t.index.pairs, t.blocks)
    {
      hide AllCompressed, Compressed, LastIsShort, Building, Ascending, Filtered, Rank, WellFormed, Encoded,
           BlockBuilder.Valid, BlockBuilder.Empty, Indexed, FilterBlockBuilder.Valid, BlockStored, TableFile,
           FilterFile, NoneMissed, AtOrAfter, Stored;
      Flush();
      closed := true;
      ghost var data := file;
      BuildingFacts(comparator, crc, file, blocks, indexBlock.layout.pairs, [], pairs, lastKey, Pending());
      BuildingIndexed(comparator, crc, file, blocks, indexBlock.layout.pairs, [], pairs, lastKey, Pending());
      var filterHandle := None;
      ghost var contents, added := [], {};
      if filter != null {
        added := filter.added;
        contents, filterHandle := WriteFilter();
      }
      ghost var withFilter := file;
      ghost var metaindex;
      var metaindexHandle;
      metaindexHandle, metaindex := WriteMetaindex(filterHandle);
      ghost var withMetaindex := file;
      FinishIndex(data);
      ghost var index := indexBlock.layout;
      var indexHandle := WriteBlock(indexBlock);
      ghost var withIndex := file;
      file := file + EncodeFooter(metaindexHandle, indexHandle);
      offset := offset + FOOTER_LENGTH;
      t := TableLayout(blocks, index, indexHandle, metaindex, metaindexHandle, filterHandle);
      TableDone(comparator, crc, data, withMetaindex, withIndex, file, t, pairs);
      if filter != null {
        FilterDone(filter.policy, comparator.Internal?, crc, withFilter, contents, added, |data|, file, t);
      }
    }

    method WriteFilter() returns (ghost contents: Bytes, handle: Option<BlockHandle>)
      requires filter != null && filter.Valid() && offset == |file|
      modifies `file, `offset, filter
      ensures offset == |file| && old(file) <= file
      ensures handle.Some? && Stored(crc, file, handle.value, contents)
      ensures |contents| < TWO32 ==>
                forall a <- old(filter.added) :: BlockMayMatch(filter.policy.hash, filter.internalKeys, contents,
                                                               a.offset, a.key)
    {
      hide Stored, FilterBlockBuilder.Valid, BlockMayMatch;
      var raw := filter.Finish();
      contents := raw;
      StoredAppended(crc, file, raw);
      var written := WriteRawBlock(raw);
      handle := Some(written);
    }

    /** The metaindex block points to the filter, if there is one. */
    method WriteMetaindex(filterHandle: Option<BlockHandle>) returns (handle: BlockHandle, ghost metaindex: Layout)
      requires offset == |file| && interval >= 1
      modifies `file, `offset
      ensures offset == |file| && old(file) <= file
      ensures BlockStored(crc, file, handle, metaindex) && Ascending(Bytewise, metaindex.pairs)
              && Compressed(interval, metaindex)
      ensures metaindex.pairs == if filterHandle.Some? then [Pair(FILTER_KEY, EncodeHandle(filterHandle.value))] else []
    {
      hide BlockStored, BlockBuilder.Valid, Ascending, FILTER_KEY, EncodeHandle, Compressed;
      var metaindexBlock := new BlockBuilder(Bytewise, interval);
      if filterHandle.Some? {
        BytewiseWellFormed(FILTER_KEY);
        metaindexBlock.Add(FILTER_KEY, EncodeHandle(filterHandle.value));
      }
      metaindex := metaindexBlock.layout;
      handle := WriteBlock(metaindexBlock);
    }

    method WriteBlock(block: BlockBuilder) returns (handle: BlockHandle)
      requires block.Valid() && offset == |file|
      modifies `file, `offset, block
      ensures block.Valid() && offset == |file| && old(file) <= file
      ensures BlockStored(crc, file, handle, old(block.layout)) && Ascending(block.comparator, old(block.layout.pairs))
      ensures Compressed(block.interval, old(block.layout))
    {
      hide Compressed, BlockStored, BlockBuilder.Valid, Ascending, Encoded;
      block.Facts();
      var contents := block.Finish();
      BlockStoredAppended(crc, file, contents, block.layout);
      handle := WriteRawBlock(contents);
      block.Reset();
    }

    /** Makes the index entry of the last block; only the data has been written by then. */
    method FinishIndex(ghost data: Bytes)
      requires indexBlock.Valid() && indexBlock.comparator == comparator
      requires Building(comparator, crc, data, blocks, indexBlock.layout.pairs, [], pairs, lastKey, Pending())
      modifies `lastKey, `pendingIndexEntry, indexBlock
      ensures indexBlock.Valid()
      ensures |indexBlock.layout.pairs| == |blocks| && Indexed(comparator, indexBlock.layout.pairs, blocks, [])
      ensures LastIsShort(comparator, indexBlock.layout.pairs, blocks)
    {
      hide Building, Ascending, Rank, WellFormed, BlockBuilder.Valid, Indexed, ShortSuccessor;
      ghost var index, last := indexBlock.layout.pairs, lastKey;
      BuildingFacts(comparator, crc, data, blocks, index, [], pairs, lastKey, Pending());
      BuildingIndexed(comparator, crc, data, blocks, index, [], pairs, lastKey, Pending());
      if pendingIndexEntry {
        indexBlock.Facts();
        lastKey := FindShortSuccessor(comparator, lastKey);
        assert AtOrAfter(comparator, lastKey, last);
        IndexAscends(comparator, crc, data, blocks, index, pairs, last, pendingHandle, lastKey);
        FinishIndexStep(comparator, crc, data, blocks, index, pairs, last, pendingHandle, lastKey);
        indexBlock.Add(lastKey, EncodeHandle(pendingHandle));
        pendingIndexEntry := false;
      }
    }
  }

  lemma {:induction false} BuildingIndexed(c: Comparator, crc: Bytes -> Word, file: Bytes, blocks: seq<DataBlock>,
                                           index: seq<Pair>, current: seq<Pair>, pairs: seq<Pair>, lastKey: Bytes,
                                               pending: Option<BlockHandle>)
    requires Building(c, crc, file, blocks, index, current, pairs, lastKey, pending)
    ensures Indexed(c, index, blocks, current) && AllStored(crc, file, blocks)
            && pairs == Flatten(blocks, |blocks|) + current
    ensures pending.None? ==> |index| == |blocks|
  {
  }

  lemma {:induction false} TableDone(c: Comparator, crc: Bytes -> Word, data: Bytes, withMetaindex: Bytes,
                                     withIndex: Bytes, file: Bytes, t: TableLayout, pairs: seq<Pair>)
    requires AllStored(crc, data, t.blocks) && pairs == Flatten(t.blocks, |t.blocks|) && Ascending(c, pairs)
    requires data <= withMetaindex <= withIndex
    requires BlockStored(crc, withMetaindex, t.metaindexHandle, t.metaindex) && Ascending(Bytewise, t.metaindex.pairs)
    requires |t.index.pairs| == |t.blocks| && Indexed(c, t.index.pairs, t.blocks, []) && Ascending(c, t.index.pairs)
    requires BlockStored(crc, withIndex, t.indexHandle, t.index)
    requires file == withIndex + EncodeFooter(t.metaindexHandle, t.indexHandle)
    ensures TableFile(c, crc, file, t, pairs)
  {
    hide AllStored, BlockStored, Ascending, Indexed, EncodeFooter;
    AllStoredLonger(crc, data, file, t.blocks);
    BlockStoredLonger(crc, withMetaindex, file, t.metaindexHandle, t.metaindex);
    BlockStoredLonger(crc, withIndex, file, t.indexHandle, t.index);
  }

  lemma {:induction false} FilterDone(policy: BloomFilterPolicy, internalKeys: bool, crc: Bytes -> Word,
                                      withFilter: Bytes, contents: Bytes, added: set<Added>, offset: nat, file: Bytes,
                                          t: TableLayout)
    requires t.filterHandle.Some? && Stored(crc, withFilter, t.filterHandle.value, contents) && withFilter <= file
    requires |contents| < TWO32 ==>
               forall a <- added :: BlockMayMatch(policy.hash, internalKeys, contents, a.offset, a.key)
    requires Filtered(added, t.blocks, [], offset)
    requires t.metaindex.pairs == [Pair(FILTER_KEY, EncodeHandle(t.filterHandle.value))]
    ensures FilterFile(policy, internalKeys, crc, file, t)
  {
    hide Stored, BlockMayMatch, EncodeHandle;
    StoredLonger(crc, withFilter, file, t.filterHandle.value, contents);
    if |contents| < TWO32 {
      forall b, p | b in t.blocks && p in b.layout.pairs
        ensures BlockMayMatch(policy.hash, internalKeys, contents, b.handle.offset, p.key)
      {
        assert Added(b.handle.offset, p.key) in added;
      }
      assert NoneMissed(policy, internalKeys, contents, t.blocks);
    }
  }
}
