# LevelDB, modelled and proved

The application vendors the LevelDB key-value store under `ios/Pods/leveldb-library`. This project models that engine,
layer by layer, and proves what each layer promises to the one above it:

- **Data and lookup** (`Keys`, `Versions`, `MemTables`, `SkipLists`): entries of user key, sequence number and type, the
  newest entry that a snapshot sees, the skip list with its lock-free readers, and the search through the levels.
- **Iterators** (`Cursors`, `LiveCursors`, `MergingIterators`, `DbIterators`, `TwoLevelIterators`, `LevelIterators`,
  `Reads`): every iterator keeps a position in a sorted run, for any sequence of calls and changes of direction, and the
  database iterator also while other threads add entries to the data under its merge; a scan shows what a lookup finds.
- **Formats** (`Coding`, `Checksums`, `Comparators`, `Blocks`, `Formats`, `Filters`, `TableBuilders`, `Tables`, `Logs`,
  `WriteBatches`, `VersionEdits`, `Manifests`, `Examples`): bytes, what is read back from them, whole or cut off, and
  what is made of any bytes.
- **Log-structured merge** (`CompactionInputs`, `CompactionWork`, `Lsm`, `VersionBuilders`, `UncoveredTombstone`): what a
  compaction takes in, drops and installs, and when readers cannot notice.
- **The database** (`Histories`, `Recovery`, `Databases`, `WriteQueues`): group commit, and a state machine of writes,
  memtable switches, flushes, compactions, deletions, crashes and recoveries, in which lookups, scans and recoveries find
  what a plain map has after the operations that were logged.
- **Its code** (`Maintenance`, `Compactions`, `Interleavings`, `TombstoneRun`): opening, flushing and background
  compactions, from the choice of files over the merged input to the installed version, shown to take the steps of the
  state machine; and what may happen in between.
- **Caches and randomness** (`Caches`, `Randoms`): the hash table and LRU lists of the cache, and the generator behind
  the skip list's heights.

User keys above the byte formats are real numbers: every countable total order embeds in the reals, and
`Comparators.BytewiseEmbeds` gives the embedding for the default comparator, so a statement for all real keys is one for
all byte keys. Sequence numbers are bounded by 2^56-1, as the encoding of internal keys demands. Integer widths and
wrap-around are written out where the code depends on them: varints, checksum masks, hash probes, the generator, and the
32-bit lengths of blocks. Iterators take their children and blocks as cursors over runs, which is what every iterator
here is proved to be; the memtable's is one over a run that grows. Linked lists of the source are sequences: hash chains
and LRU lists of the cache, and the arena of the skip list, whose links are positions in it.

What the code does not establish by itself is a stated hypothesis or an exact condition:

- A compaction changes no reader's view if and only if no dropped tombstone uncovers an older value that stays outside
  (`CompactionWork.CompactionMeaning`, `Lsm.InstallMeaning`). The code adds boundary files at the compaction's level
  but not at the next one; `UncoveredTombstone` shows a version where this brings a deleted value back, `TombstoneRun`
  a run that gets there, and `Lsm.ClosedUncoversNothing` that closedness at the next level is enough. The exact
  condition is the guard of the compaction step of `Databases`, and all that `Compactions` leaves open.
- A memtable flush in the middle of a compaction leaves its inputs legal if and only if it puts no file into their hull
  at the level that the outputs go to (`Interleavings.FlushKeepsInputs`). The code checks the flushed range against
  files, not against the compaction; `Interleavings.FlushIntoGap` shows a manual compaction where that is too little.
- The merging iterator needs children without common keys. `Reads.ChildrenApart` shows that the database provides them.
- A compaction with the largest sequence number as its oldest snapshot would drop every entry
  (`CompactionWork.Compaction.DoCompactionWork`), so the state machine never gives that number out.
- Edits saved together give each level in strict order if and only if no file of the base that is still there was
  deleted and added again (`VersionBuilders.BuildVersion`); the edits of `Compactions` are such.
- An edit decoded into a used object equals the encoded one if and only if that object had no compaction keys, because
  `Clear` keeps them (`VersionEdits.RoundTrip`).

## Model

| member | source | states |
|---|---|---|
| Keys.NewestInRun | ios/Pods/leveldb-library/db/memtable.cc:100-136 | In a sorted run the newest entry of a user key that a snapshot sees is the one at the lower bound of the seek key, if that one has the user key; otherwise there is none. |
| Keys.NewestLayered | ios/Pods/leveldb-library/db/db_impl.cc:1112-1126 | If one set of entries is newer, key by key, than another, stopping at a hit in the newer one finds the newest entry of both. |
| DbIterators.VisibleListMeaning | ios/Pods/leveldb-library/db/db_iter.cc:34-38 | The visible list of a run at a snapshot has a user key with a value exactly if the newest entry of the key that the snapshot sees is that value. |
| DbIterators.VisibleListSorted | ios/Pods/leveldb-library/db/db_iter.cc:34-38 | The visible list ascends strictly by user key. |
| DbIterators.VisibleListInView | ios/Pods/leveldb-library/db/db_iter.cc:177-190 | Entries newer than the snapshot do not matter: the entries in view have the same visible list as all entries. |
| DbIterators.DBIter.Next | ios/Pods/leveldb-library/db/db_iter.cc:141-166 | The iterator moves one position forward in the visible list, from either direction. |
| DbIterators.DBIter.FindNextUserEntry | ios/Pods/leveldb-library/db/db_iter.cc:168-198 | Skipping hidden, deleted and too-new entries, the scan stops at the next visible entry or at the end. |
| DbIterators.DBIter.Prev | ios/Pods/leveldb-library/db/db_iter.cc:200-225 | The iterator moves one position back in the visible list, from either direction, or off its front. |
| DbIterators.DBIter.FindPrevUserEntry | ios/Pods/leveldb-library/db/db_iter.cc:227-267 | Scanning backwards, the saved key and value are those of the visible entry before the start of the scan. |
| DbIterators.DBIter.Seek | ios/Pods/leveldb-library/db/db_iter.cc:269-281 | The position becomes the first one of the visible list whose user key is at or after the target. |
| DbIterators.DBIter.SeekToFirst | ios/Pods/leveldb-library/db/db_iter.cc:283-292 | The position becomes the first of the visible list. |
| DbIterators.DBIter.SeekToLast | ios/Pods/leveldb-library/db/db_iter.cc:294-299 | The position becomes the last of the visible list. |
| DbIterators.DBIter.ConcurrentInsert | ios/Pods/leveldb-library/db/db_iter.cc:168-267 | An entry newer than the snapshot, inserted into the data of any child of the merge at any moment, leaves the list, the position, the key and the value as they are. |
| MergingIterators.MergingIterator.Seek | ios/Pods/leveldb-library/table/merger.cc:47-53 | The position becomes the lower bound of the target in the sorted merge of the entries in view. |
| MergingIterators.MergingIterator.SeekToFirst | ios/Pods/leveldb-library/table/merger.cc:31-37 | The merge stands at its first entry. |
| MergingIterators.MergingIterator.SeekToLast | ios/Pods/leveldb-library/table/merger.cc:39-45 | The merge stands at its last entry. |
| MergingIterators.MergingIterator.Next | ios/Pods/leveldb-library/table/merger.cc:55-79 | The position among the entries in view moves forward by one from such an entry, also after a move back, when the other children are put behind the current key; from an entry added meanwhile it stays. |
| MergingIterators.MergingIterator.Prev | ios/Pods/leveldb-library/table/merger.cc:81-108 | The same backward, also after a move forward, when the other children are put before the current key, whatever is added between the seek and the step of a child. |
| MergingIterators.MergingIterator.FindSmallest | ios/Pods/leveldb-library/table/merger.cc:148-161 | With every child at its first entry in view not before the position, or at a newer one, the child found stands at the entry of that position if its entry is in view. |
| MergingIterators.MergingIterator.FindLargest | ios/Pods/leveldb-library/table/merger.cc:163-176 | With every child at its last entry in view before the position, or at a newer one, the child found stands at the last entry of the merge before it if its entry is in view. |
| MergingIterators.MergingIterator.ConcurrentInsert | ios/Pods/leveldb-library/table/merger.cc:55-108 | An entry newer than the snapshot, inserted into one child at any moment, leaves the position and the current entry as they are. |
| LiveCursors.LiveCursor.Insert | ios/Pods/leveldb-library/db/skiplist.h:337-368 | An insertion by another thread changes neither the entries in view nor which entry the iterator stands on. |
| LiveCursors.LiveCursor.Next | ios/Pods/leveldb-library/db/skiplist.h:207-210 | With any insertions before the move, the rank among the entries in view grows by one from such an entry and stays from a newer one; the moves left are fewer. |
| LiveCursors.LiveCursor.Prev | ios/Pods/leveldb-library/db/skiplist.h:213-221 | The same backward. |
| LiveCursors.LiveCursor.Seek | ios/Pods/leveldb-library/db/skiplist.h:224-226 | The rank becomes the lower bound of the target among the entries in view. |
| LiveCursors.LiveCursor.Placed | ios/Pods/leveldb-library/db/skiplist.h:29-33 | An entry in view stands at its rank among them; a newer one stands between its neighbours in view. |
| TwoLevelIterators.FlatSorted | ios/Pods/leveldb-library/table/two_level_iterator.cc:18-69 | Blocks separated by their index keys form one sorted run. |
| TwoLevelIterators.SeekSplits | ios/Pods/leveldb-library/table/two_level_iterator.cc:82-87 | Seeking in the index and then in the block found gives the lower bound in the whole run, even when it lies behind the end of that block. |
| TwoLevelIterators.TwoLevelIterator.Seek | ios/Pods/leveldb-library/table/two_level_iterator.cc:82-87 | The position becomes the lower bound of the target in the concatenation of all blocks. |
| TwoLevelIterators.TwoLevelIterator.SeekToFirst | ios/Pods/leveldb-library/table/two_level_iterator.cc:89-94 | The position becomes the first entry of the concatenation, past empty blocks. |
| TwoLevelIterators.TwoLevelIterator.SeekToLast | ios/Pods/leveldb-library/table/two_level_iterator.cc:96-101 | The position becomes the last entry of the concatenation, before empty blocks. |
| TwoLevelIterators.TwoLevelIterator.Next | ios/Pods/leveldb-library/table/two_level_iterator.cc:103-107 | The position in the concatenation moves forward by one, past empty blocks. |
| TwoLevelIterators.TwoLevelIterator.Prev | ios/Pods/leveldb-library/table/two_level_iterator.cc:109-113 | The position in the concatenation moves back by one, before empty blocks, or off its front. |
| TwoLevelIterators.TwoLevelIterator.SkipEmptyDataBlocksForward | ios/Pods/leveldb-library/table/two_level_iterator.cc:115-126 | From the end of a block the iterator gets to the entry that follows in the concatenation, or becomes invalid at its end. |
| TwoLevelIterators.TwoLevelIterator.SkipEmptyDataBlocksBackward | ios/Pods/leveldb-library/table/two_level_iterator.cc:128-139 | From the front of a block the iterator gets to the entry before it in the concatenation, or becomes invalid at its front. |
| TwoLevelIterators.TwoLevelIterator.InitDataBlock | ios/Pods/leveldb-library/table/two_level_iterator.cc:146-161 | The data iterator is over the block of the index entry, reused if it already was. |
| LevelIterators.LevelIsOneRun | ios/Pods/leveldb-library/db/version_set.cc:211-228 | The concatenating iterator of a sorted, disjoint level runs over exactly the entries of its files, in key order. |
| LevelIterators.LevelFileNumIterator.Seek | ios/Pods/leveldb-library/db/version_set.cc:171-173 | The file iterator stands at the first file whose largest key is at or after the target. |
| Reads.ScanAgreesWithGet | ios/Pods/leveldb-library/db/db_impl.cc:1062-1087 | A scan over the merge of memtable, immutable memtable, level-0 tables and level iterators shows a key with a value exactly if a lookup in all of them finds that value. |
| Reads.ScanSeesHistory | ios/Pods/leveldb-library/db/db_impl.cc:1062-1164 | A scan of an open database, at a live snapshot or at the last sequence number, shows exactly the keys and values that a plain map has after the operations up to there. |
| Reads.SeenMerge | ios/Pods/leveldb-library/db/db_impl.cc:1062-1087 | The merge of the entries in view, which a database iterator goes over, shows what the merge of all entries shows, so what it shows does not depend on what is written meanwhile. |
| Reads.ChildrenApart | ios/Pods/leveldb-library/db/version_set.cc:230-248 | The iterators that are merged for a read have no internal key in common, given the layering of the data. |
| Coding.EncodeVarint32 | ios/Pods/leveldb-library/util/coding.cc:47-73 | The five cases write the base-128 digits of the value, low digit first, each but the last with its top bit set. |
| Coding.EncodeVarint64 | ios/Pods/leveldb-library/util/coding.cc:81-90 | The loop writes the base-128 digits of the value. |
| Coding.GetVarintPtr | ios/Pods/leveldb-library/util/coding.cc:112-157 | The loop reads the value of the digits modulo 2^32 or 2^64, and fails if none of the first 5 or 10 bytes ends it. |
| Coding.VarintByBytes | ios/Pods/leveldb-library/util/coding.cc:112-157 | By the bytes: a varint of at most 5 or 10 bytes gives the sum of its digits modulo 2^32 or 2^64 and the input behind it, a longer one or one without an end nothing. |
| Coding.Varint32RoundTrip | ios/Pods/leveldb-library/util/coding.cc:75-79 | What was put as a 32-bit varint is what is got, and the input behind it is left. |
| Coding.Varint64RoundTrip | ios/Pods/leveldb-library/util/coding.cc:92-96 | What was put as a 64-bit varint is what is got, and the input behind it is left. |
| Coding.LengthPrefixedRoundTrip | ios/Pods/leveldb-library/util/coding.cc:98-101 | A length-prefixed string is got back, and the input behind it is left. |
| Coding.LengthPrefixedCut | ios/Pods/leveldb-library/util/coding.cc:171-192 | A length-prefixed string that is cut off anywhere is not got. |
| Coding.FixedRoundTrip | ios/Pods/leveldb-library/util/coding.cc:9-33 | A fixed-width little-endian integer decodes to the value encoded. |
| Coding.LittleEndian | ios/Pods/leveldb-library/util/coding.cc:9-33 | Bytes in front weigh less: the value of a string is that of its front plus 256 to its length times that of the rest. |
| Checksums.UnmaskMask | ios/Pods/leveldb-library/util/crc32c.h:29-38 | Unmasking a masked checksum gives the checksum back. |
| Checksums.MaskUnmask | ios/Pods/leveldb-library/util/crc32c.h:29-38 | Masking an unmasked word gives the word back. |
| Comparators.BytewiseEmbeds | ios/Pods/leveldb-library/util/comparator.cc:25-27 | The bytewise order is the order of the real numbers that byte strings are mapped to, and distinct strings get distinct numbers. |
| Comparators.ShortestSeparatorBytes | ios/Pods/leveldb-library/util/comparator.cc:29-50 | The result is start up to its first difference from limit with that byte raised, if there is room for that, and start itself otherwise; a raised one lies strictly between, and no shorter string does. |
| Comparators.ShortSuccessorBytes | ios/Pods/leveldb-library/util/comparator.cc:52-64 | The result is the key up to its first byte that is not 0xff with that byte raised, or the key itself if there is none; it is at or after the key, and nothing shorter is. |
| Comparators.CompareIsOrder | ios/Pods/leveldb-library/db/dbformat.cc:47-67 | On all strings they accept, whatever the type byte, both comparators are the total order by user key and falling tag, with equality only of equal strings. |
| Comparators.CompareIsBefore | ios/Pods/leveldb-library/db/dbformat.cc:47-67 | On well-formed keys this is the order of the abstract keys. |
| Comparators.FindShortestSeparator | ios/Pods/leveldb-library/db/dbformat.cc:69-86 | For either comparator the separator is not before start; if it differs from start, its user key lies strictly between the user keys of start and limit. For internal keys it differs exactly if the separator of the user keys is shorter, and is that one with the earliest tag. |
| Comparators.FindShortSuccessor | ios/Pods/leveldb-library/db/dbformat.cc:88-101 | For either comparator the successor is well formed, no longer, and not before the key. For internal keys it differs exactly if the successor of the user key is shorter, and is that one with the earliest tag. |
| Comparators.InternalKeyRoundTrip | ios/Pods/leveldb-library/db/dbformat.cc:14-23 | An encoded internal key parses back to its user key, sequence number and type. |
| Comparators.LookupKeyRank | ios/Pods/leveldb-library/db/dbformat.cc:121-137 | The encoded lookup key of a user key and a snapshot stands for the abstract seek key. |
| Comparators.MemTableEntryRoundTrip | ios/Pods/leveldb-library/db/memtable.cc:75-98 | From the buffer that Add wrote, Get reads the value or the deletion for the entry's user key, and nothing for another key. |
| MemTables.MemTable.Add | ios/Pods/leveldb-library/db/memtable.cc:75-98 | The entry is inserted at its place among the entries of the skip list. |
| MemTables.MemTable.Get | ios/Pods/leveldb-library/db/memtable.cc:100-136 | The result is the newest entry of the key that the snapshot sees: its value, a deletion, or nothing. |
| Blocks.EntryRoundTrip | ios/Pods/leveldb-library/table/block.cc:54-76 | Decoding the front of an encoded entry gives its three lengths and the bytes behind them, in the one-byte fast path and in the slow path. |
| Blocks.BlockBuilder.Add | ios/Pods/leveldb-library/table/block_builder.cc:72-105 | The layout of the block grows by the pair, its key without all the bytes that it shares with the key before; a restart, with a whole key, is recorded exactly when the interval is used up. |
| Blocks.BlockBuilder.Finish | ios/Pods/leveldb-library/table/block_builder.cc:62-70 | The contents are the entries of the layout followed by the restart array that belongs to it; restarts come every interval, and between them each entry shares as many bytes as can be with the key before. |
| Blocks.EncodedUnique | ios/Pods/leveldb-library/table/block_builder.cc:5-27 | The bytes of a finished block determine the pairs in it. |
| Blocks.BlockIter.Seek | ios/Pods/leveldb-library/table/block.cc:163-201 | Binary search over the restarts and a scan end at the first pair of the block at or after the target. |
| Blocks.BlockIter.Prev | ios/Pods/leveldb-library/table/block.cc:142-161 | The iterator stands on the pair before, or becomes invalid at the first pair. |
| Blocks.BlockIter.Next | ios/Pods/leveldb-library/table/block.cc:137-140 | The iterator stands on the next pair. |
| Blocks.BlockIter.SeekToFirst | ios/Pods/leveldb-library/table/block.cc:203-206 | The iterator stands on the first pair. |
| Blocks.BlockIter.SeekToLast | ios/Pods/leveldb-library/table/block.cc:208-213 | The iterator stands on the last pair. |
| Blocks.BlockIter.ParseNextKey | ios/Pods/leveldb-library/table/block.cc:224-251 | The key rebuilt from its prefix, the value and the restart index are those of the next pair, or the iterator is at the end. |
| Formats.HandleRoundTrip | ios/Pods/leveldb-library/table/format.cc:15-29 | A block handle is decoded as it was encoded, and the input behind it is left. |
| Formats.FooterRoundTrip | ios/Pods/leveldb-library/table/format.cc:31-62 | The footer gives back both handles and passes the check of the magic number. |
| Formats.FooterByBytes | ios/Pods/leveldb-library/table/format.cc:41-62 | A footer is accepted exactly when it ends with the eight bytes of the magic number and two handles lead it. |
| Formats.StoredIsRead | ios/Pods/leveldb-library/table/format.cc:64-100 | A block that was written with its type and masked checksum is read back. |
| Formats.ReadIsStored | ios/Pods/leveldb-library/table/format.cc:64-100 | With checksums verified a block is read exactly if it was stored with its type and masked checksum. |
| Formats.BlockByBytes | ios/Pods/leveldb-library/table/format.cc:64-140 | By the bytes of the file: the block lies within it, its type byte is 0, and the word behind that is the masked checksum of contents and type. |
| TableBuilders.TableBuilder.Add | ios/Pods/leveldb-library/table/table_builder.cc:94-123 | The pair is added behind all others; the block is written out exactly when its size estimate has reached the block size; the invariant ties data blocks, delayed index entry, short separators and filter keys to the pairs added. |
| TableBuilders.TableBuilder.Flush | ios/Pods/leveldb-library/table/table_builder.cc:125-139 | The current data block, if there is anything in it, is stored in the file at its end, its index entry is pending, and no pair is lost. |
| TableBuilders.TableBuilder.Finish | ios/Pods/leveldb-library/table/table_builder.cc:198-253 | The file is a table of exactly the pairs added, with prefix-compressed data blocks, an index of whole keys that are the short separators and the short successor, and a filter, if any, that knows every key under its block's offset. |
| Tables.TableMeaning | ios/Pods/leveldb-library/table/table.cc:210-214 | The index and data blocks of a finished table meet the conditions of the two-level iterator, and their concatenation is the run of the pairs added. |
| Tables.TableOpens | ios/Pods/leveldb-library/table/table.cc:38-82 | Opening a finished table finds its index block and the handle of its metaindex block. |
| Tables.ReadMeta | ios/Pods/leveldb-library/table/table.cc:84-136 | A filter reader results if and only if the metaindex block names the filter; it has the bytes stored there, and misses no key of any data block. |
| Tables.GetFindsBlock | ios/Pods/leveldb-library/table/table.cc:216-244 | If the first pair of the table at or after the target has its user key, the index leads to the block that holds this pair, also when the separator was shortened. |
| Tables.Table.InternalGet | ios/Pods/leveldb-library/table/table.cc:216-244 | A pair with the user key looked for is reported exactly if the first pair of the table at or after the target has that user key, and it is that pair; nothing is when the filter excludes the key. |
| Tables.GetIsNewest | ios/Pods/leveldb-library/table/table.cc:216-244 | Such a report is the newest entry of the user key that the snapshot sees in the whole table. |
| Filters.BloomFilterPolicy.CreateFilter | ios/Pods/leveldb-library/util/bloom.cc:28-54 | A bit of the filter is set exactly if a probe of some key hits it, and the last byte is the number of probes. |
| Filters.BloomFilterPolicy.KeyMayMatch | ios/Pods/leveldb-library/util/bloom.cc:56-80 | The answer is whether every probe of the key hits a set bit, yes for reserved probe counts and no for filters without bits. |
| Filters.BloomNoFalseNegatives | ios/Pods/leveldb-library/util/bloom.cc:28-80 | Every key that went into a filter matches it. |
| Filters.BloomAnswers | ios/Pods/leveldb-library/util/bloom.cc:28-80 | A key matches a filter if and only if each of its probes hits a bit that some probe of some key of the filter hits. |
| Filters.DeltaRotates | ios/Pods/leveldb-library/util/bloom.cc:46 | Bit i of the step between probes is bit i + 17, around the end, of the hash. |
| Filters.ProbeIs | ios/Pods/leveldb-library/util/bloom.cc:43-51 | Probe j is the hash plus j times that step, modulo 2^32. |
| Filters.BloomFilterPolicy.constructor | ios/Pods/leveldb-library/util/bloom.cc:19-24 | The number of probes is 0.69 times the bits per key, rounded down, within 1 and 30. |
| Filters.FilterBlockBuilder.StartBlock | ios/Pods/leveldb-library/table/filter_block.cc:21-27 | Filters are made up to the 2 KiB range of the offset, and no added key is lost. |
| Filters.FilterBlockBuilder.AddKey | ios/Pods/leveldb-library/table/filter_block.cc:29-33 | The key is added under the current block's offset, behind the keys that wait for the next filter. |
| Filters.FilterBlockBuilder.GenerateFilter | ios/Pods/leveldb-library/table/filter_block.cc:51-75 | The waiting keys become the next filter, and no added key is lost. |
| Filters.FilterBlockBuilder.Finish | ios/Pods/leveldb-library/table/filter_block.cc:35-49 | Every key added for a block matches the finished contents under the block's offset, and a key matches under an offset only if all its probes collide with those of keys added for the same 2 KiB. |
| Filters.FilterBlockReader.KeyMayMatch | ios/Pods/leveldb-library/table/filter_block.cc:90-104 | The answer is that of the filter that the offset leads to, with no for an empty filter and yes for anything malformed. |
| Filters.FilterFound | ios/Pods/leveldb-library/table/filter_block.cc:77-104 | The offset array of the finished contents leads from a block's offset to the filter with the block's keys. |
| Filters.FilterAnswers | ios/Pods/leveldb-library/table/filter_block.cc:77-104 | For any offset and key the finished contents answer what the keys of that 2 KiB answer, no without any, and yes behind the last filter. |
| Logs.Writer.AddRecord | ios/Pods/leveldb-library/db/log_writer.cc:34-80 | The file grows by the record's fragments, so that it is the log of the old records and the new one, from any offset. |
| Logs.BlocksAreFilled | ios/Pods/leveldb-library/db/log_writer.cc:44-79 | The writer leaves over only fewer than seven bytes of a block, as zeros, and splits a record only where a block ends. |
| Logs.Reader.ReadPhysicalRecord | ios/Pods/leveldb-library/db/log_reader.cc:189-271 | For any file the result, the position and the reports are those of the physical record behind the position, which PhysicalByBytes describes by the bytes there. |
| Logs.PhysicalByBytes | ios/Pods/leveldb-library/db/log_reader.cc:189-271 | By the bytes: a frame within its block whose masked checksum matches its type and payload comes as it is; a damaged one is bad, and the rest of its block is reported; one that the end of the file cuts off is the end. |
| Logs.Reader.ReadRecord | ios/Pods/leveldb-library/db/log_reader.cc:56-174 | A record that is returned, from any file, is the payloads of adjacent frames behind the position, each with the checksum of its type and payload, one of type FULL or FIRST, any number of MIDDLE, and LAST; what was reported stays reported. |
| Logs.RecordIsGathered | ios/Pods/leveldb-library/db/log_reader.cc:56-174 | The same of the record that the reader's specification gives. |
| Logs.GatheredIsRead | ios/Pods/leveldb-library/db/log_reader.cc:56-174 | And the other way: such frames at the position are read as their record, with nothing reported. |
| Logs.DamageIsReported | ios/Pods/leveldb-library/db/log_reader.cc:244-256 | A frame whose stored checksum differs is skipped with the rest of its block; its bytes are reported, and those of the record it broke off. |
| Logs.RecordsAreGathered | ios/Pods/leveldb-library/db/log_reader.cc:56-174 | All records that reading a whole file gives are so gathered, each behind the one before. |
| Logs.ReadFragments | ios/Pods/leveldb-library/db/log_reader.cc:85-173 | A record's fragments, read from their start, give the record if they are all in the file and otherwise the end of the file, with nothing reported. |
| Logs.ReadPrefix | ios/Pods/leveldb-library/db/log_reader.cc:56-174 | Reading any byte prefix of a log gives exactly the records wholly inside it, and reports no corruption. |
| Logs.ReadWhole | ios/Pods/leveldb-library/db/log_reader.cc:56-174 | Reading a whole log gives exactly the records written. |
| VersionEdits.VersionEdit.EncodeTo | ios/Pods/leveldb-library/db/version_edit.cc:41-85 | The fields that are set are appended with their tags in the fixed order. |
| VersionEdits.VersionEdit.DecodeFrom | ios/Pods/leveldb-library/db/version_edit.cc:107-205 | For any bytes the edit and the status are those of decoding field by field into the cleared edit. |
| VersionEdits.VersionEdit.DeleteFile | ios/Pods/leveldb-library/db/version_edit.h:74-76 | The deleted files are those from before and this one, in ascending order. |
| VersionEdits.DecodeEncode | ios/Pods/leveldb-library/db/version_edit.cc:26-205 | Decoding an encoded edit gives it back, with its compaction keys behind those that were there before. |
| VersionEdits.RoundTrip | ios/Pods/leveldb-library/db/version_edit.cc:26-39 | The decoded edit equals the encoded one if and only if the edit decoded into had no compaction keys, which Clear leaves in place. |
| VersionEdits.CutEdit | ios/Pods/leveldb-library/db/version_edit.cc:107-205 | An encoded edit that is cut off within a field, whatever fields come before, is an error. |
| VersionEdits.BadTagOrLevel | ios/Pods/leveldb-library/db/version_edit.cc:107-205 | An unknown tag, or a level that does not exist, is an error wherever it comes. |
| VersionEdits.ManifestRoundTrip | ios/Pods/leveldb-library/db/version_set.cc:926-940 | Reading any byte prefix of a manifest decodes exactly the edits wholly inside it. |
| Manifests.ManifestFileReplay | ios/Pods/leveldb-library/db/version_set.cc:886-1011 | A manifest cut anywhere behind its snapshot decodes to edits that rebuild one of the versions of the run, the last whose edit is wholly there. |
| Manifests.Recover | ios/Pods/leveldb-library/db/version_set.cc:926-1000 | For any bytes: the edits are those that all records decode to, and each counter is the one set last, if nothing was dropped from the file, every record decodes, none names another comparator, and log number, next file number and last sequence are set; otherwise it is an error. |
| Manifests.ReadEditsExactly | ios/Pods/leveldb-library/db/version_set.cc:926-968 | Reading record by record fails if and only if something is wrong with any record, and otherwise has all their edits. |
| Manifests.FoldIsLast | ios/Pods/leveldb-library/db/version_set.cc:949-967 | The counters after any edits are, each, the value that was set last. |
| Manifests.CountersRecovered | ios/Pods/leveldb-library/db/version_set.cc:801-885 | From a manifest cut anywhere behind its snapshot come exactly the edits up to some version and the log number, previous log number, next file number and last sequence of that version, and no counters from a snapshot alone. |
| WriteBatches.WriteBatch.Put | ios/Pods/leveldb-library/db/write_batch.cc:98-103 | The bytes become those of the batch with the put added, count included. |
| WriteBatches.WriteBatch.Delete | ios/Pods/leveldb-library/db/write_batch.cc:105-109 | The bytes become those of the batch with the deletion added, count included. |
| WriteBatches.WriteBatch.Append | ios/Pods/leveldb-library/db/write_batch.cc:144-148 | The bytes become those of both batches' updates in order. |
| WriteBatches.WriteBatch.SetSequence | ios/Pods/leveldb-library/db/write_batch.cc:94-96 | The sequence number in the header is replaced and the updates stay. |
| WriteBatches.WriteBatch.Iterate | ios/Pods/leveldb-library/db/write_batch.cc:42-80 | For any bytes the handler calls are those that the records spell, up to the first place where no record starts; the status is good if and only if that is the end and the count in the header is their number. |
| WriteBatches.IteratedMeans | ios/Pods/leveldb-library/db/write_batch.cc:42-80 | The same of the specification that recovery is proved with. |
| WriteBatches.RepRoundTrip | ios/Pods/leveldb-library/db/write_batch.cc:42-80 | Iterating over a batch reports exactly its updates, in order, without error. |
| WriteBatches.LoggedBatchesSurvive | ios/Pods/leveldb-library/db/db_impl.cc:416-453 | What recovery reads and decodes from a log cut anywhere is exactly the batches whose records are wholly in it. |
| WriteBatches.InsertedEntry | ios/Pods/leveldb-library/db/write_batch.cc:116-130 | Update i of a batch goes to the memtable under the batch's sequence number plus i, in bytes and abstractly. |
| SkipLists.StoreKeeps | ios/Pods/leveldb-library/db/skiplist.h:337-368 | Every store that the writer makes, on its own, keeps each level a strictly sorted list that is a sublist of the level below. |
| SkipLists.PublishKeeps | ios/Pods/leveldb-library/db/skiplist.h:361-367 | Publishing a node at a level behind its predecessor, once its own link leads to the successor, keeps all levels sorted and nested. |
| SkipLists.SearchIsAtomic | ios/Pods/leveldb-library/db/skiplist.h:260-303 | A search whose loads are interleaved with any stores of the writer finds the first node at or after the key of the list at its last load, and the last node before the key, which FindLessThan returns. |
| SkipLists.SearchLastIsAtomic | ios/Pods/leveldb-library/db/skiplist.h:305-322 | FindLast, run in the same way, finds the last node of the list at its last load. |
| SkipLists.SeenIsHistory | ios/Pods/leveldb-library/db/skiplist.h:29-33 | The states that the loads of a reader see, taken in order from the states between the writer's stores, are a history: each extends the ones before. |
| SkipLists.SearchDuringWrites | ios/Pods/leveldb-library/db/skiplist.h:29-33 | So whatever stores a writer makes between the loads of a search from the head, the search answers for the list as it was after some number of them. |
| SkipLists.SearchEnds | ios/Pods/leveldb-library/db/skiplist.h:260-303 | Such a search ends after at most one load for each level left and one for each node behind its start. |
| SkipLists.SearchLastEnds | ios/Pods/leveldb-library/db/skiplist.h:305-322 | So does FindLast. |
| SkipLists.SkipList.FindGreaterOrEqual | ios/Pods/leveldb-library/db/skiplist.h:258-281 | The node found is the first of the list at or after the key, and prev holds the last node before the key on every level. |
| SkipLists.SkipList.FindLessThan | ios/Pods/leveldb-library/db/skiplist.h:283-303 | The node found is the last one before the key, or the head. |
| SkipLists.SkipList.FindLast | ios/Pods/leveldb-library/db/skiplist.h:305-322 | The node found is the last of the list, or the head. |
| SkipLists.SkipList.Insert | ios/Pods/leveldb-library/db/skiplist.h:337-368 | After every store the list has the old entries or the old ones and the new one, and at the end exactly the new one more, linked in at all levels below its height and at no other; the height is drawn by RandomHeight. |
| SkipLists.SkipList.RandomHeight | ios/Pods/leveldb-library/db/skiplist.h:241-252 | The height is one more than the number of draws divisible by 4 before the first that is not, up to 12, and that many draws are used. |
| SkipLists.Iterator.Seek | ios/Pods/leveldb-library/db/skiplist.h:224-226 | The iterator stands at the lower bound of the target in the sorted entries. |
| SkipLists.Iterator.Prev | ios/Pods/leveldb-library/db/skiplist.h:213-221 | The iterator stands at the entry before, found by a search, or becomes invalid at the first. |
| SkipLists.Iterator.Next | ios/Pods/leveldb-library/db/skiplist.h:207-210 | The iterator stands at the next entry. |
| SkipLists.Iterator.SeekToLast | ios/Pods/leveldb-library/db/skiplist.h:234-239 | The iterator stands at the last entry. |
| SkipLists.InsertedRun | ios/Pods/leveldb-library/db/skiplist.h:15-26 | An insertion puts the entry at its place in the sorted entries, and every node keeps its entry. |
| Caches.HandleTable.Insert | ios/Pods/leveldb-library/util/cache.cc:78-92 | The table maps the key and hash to the new handle and is otherwise unchanged, with twice the buckets exactly if there are now more handles than buckets; the handle replaced is returned. |
| Caches.HandleTable.Remove | ios/Pods/leveldb-library/util/cache.cc:94-102 | The key and hash are taken out of the map, and the handle that they had is returned. |
| Caches.HandleTable.Lookup | ios/Pods/leveldb-library/util/cache.cc:74-76 | The handle found is the one that the map has for the key and hash. |
| Caches.HandleTable.FindPointer | ios/Pods/leveldb-library/util/cache.cc:114-120 | The place found holds the handle of the key and hash, or is the end of its bucket. |
| Caches.HandleTable.Resize | ios/Pods/leveldb-library/util/cache.cc:122-146 | The table keeps its map and has the least power of two, from 4 on, of buckets that are no fewer than its handles. |
| Caches.LRUCache.Insert | ios/Pods/leveldb-library/util/cache.cc:266-303 | The handle returned is cached and in use if there is any capacity; exactly as many of the oldest idle handles are evicted as it takes to get within capacity or to have none idle. |
| Caches.LRUCache.Lookup | ios/Pods/leveldb-library/util/cache.cc:252-259 | The handle that the map has is returned with one more reference and leaves the list of idle handles. |
| Caches.LRUCache.Release | ios/Pods/leveldb-library/util/cache.cc:261-264 | The reference is given back; a cached handle without others becomes the newest idle one, and one no longer cached is deleted. |
| Caches.LRUCache.Erase | ios/Pods/leveldb-library/util/cache.cc:318-321 | The key and hash leave the map; the handle they had leaves its list and the usage and is deleted unless a client holds it, and without one nothing else changes. |
| Caches.LRUCache.Prune | ios/Pods/leveldb-library/util/cache.cc:323-332 | No idle handle is left, and the usage is the sum of the charges in use. |
| Caches.LRUCache.FinishErase | ios/Pods/leveldb-library/util/cache.cc:307-316 | A handle that the table no longer has leaves its list and the usage, and is deleted if no client holds it. |
| Caches.LRUCache.Ref | ios/Pods/leveldb-library/util/cache.cc:217-223 | An idle cached handle moves to the in-use list; the reference is counted. |
| Caches.LRUCache.Unref | ios/Pods/leveldb-library/util/cache.cc:225-237 | A handle without references is deleted, and a cached one that only the cache refers to becomes the newest idle one. |
| WriteQueues.BuildBatchGroup | ios/Pods/leveldb-library/db/db_impl.cc:1260-1306 | The batch returned has the updates of the longest group that the rules on sync writes and sizes allow, in queue order. |
| WriteQueues.GroupRules | ios/Pods/leveldb-library/db/db_impl.cc:1266-1304 | No sync write is in the group of a non-sync writer; the sizes add up to at most a first batch of up to 128 KiB and 128 KiB more, or 1 MiB, or the one larger batch; the next writer is left out for one of these two reasons. |
| WriteQueues.NextKeeps | ios/Pods/leveldb-library/db/db_impl.cc:1185-1256 | Every step of the protocol keeps its invariant: the log is the updates of the writers in queue order, each once, under consecutive sequence numbers, and the memtable follows. |
| WriteQueues.ReturnedIsCommitted | ios/Pods/leveldb-library/db/db_impl.cc:1185-1256 | In every state of every run a writer that has returned is in the log and the memtable behind all earlier ones, and in the synced part of the log if it asked for that. |
| Versions.FindFile | ios/Pods/leveldb-library/db/version_set.cc:88-106 | The index found separates the files whose largest key is before the key from the others. |
| Versions.SomeFileOverlapsRange | ios/Pods/leveldb-library/db/version_set.cc:122-156 | The answer is whether some file meets the range of user keys, for disjoint files by one binary search. |
| Versions.OneFileSuffices | ios/Pods/leveldb-library/db/version_set.cc:366-382 | In a sorted level the newest visible entry of a key, if there is one, is in the one file that the search looks at, even if the key spans two files. |
| Versions.SearchLevel | ios/Pods/leveldb-library/db/version_set.cc:340-418 | Searching one level finds the newest visible entry of the key in its files, on level 0 from newer files to older ones. |
| Versions.Get | ios/Pods/leveldb-library/db/version_set.cc:326-421 | Searching level by level and stopping at the first hit finds the newest entry of the key that the snapshot sees in all files. |
| Databases.Get | ios/Pods/leveldb-library/db/db_impl.cc:1100-1136 | Memtable, immutable memtable and version, searched in this order, give what the newest visible entry of all three says. |
| CompactionInputs.GetOverlappingInputs | ios/Pods/leveldb-library/db/version_set.cc:519-559 | Above level 0 the files that meet the range are found; on level 0, despite the restarts, the least set of files closed under overlap. |
| CompactionInputs.GetRange | ios/Pods/leveldb-library/db/version_set.cc:1205-1225 | The range is the least smallest and the greatest largest key of the files. |
| CompactionInputs.FindSmallestBoundaryFile | ios/Pods/leveldb-library/db/version_set.cc:1344-1363 | The file found is the one with the least smallest key among those that start behind the key with the same user key. |
| CompactionInputs.AddBoundaryInputs | ios/Pods/leveldb-library/db/version_set.cc:1378-1401 | The files are extended by the chain of boundary files behind their largest key. |
| CompactionInputs.SliceClosed | ios/Pods/leveldb-library/db/version_set.cc:1365-1401 | When the file behind a run of neighbours starts with another user key, no file left behind has an older entry of a user key in the run. |
| CompactionInputs.ExactRangeClosed | ios/Pods/leveldb-library/db/version_set.cc:1302-1316 | The files of a range that none of them sticks out of leave no older entry of their user keys behind, and have no boundary files. |
| CompactionInputs.CloseAtLevel | ios/Pods/leveldb-library/db/version_set.cc:1407-1408 | Above level 0 the inputs gain exactly the files behind them that go on with the user key before; then no file left at the level has an older entry of a user key of the inputs. |
| CompactionInputs.Expand | ios/Pods/leveldb-library/db/version_set.cc:1415-1447 | The files that the range of all inputs meets replace those picked exactly when they are more, stay below the size limit and meet as many files of the next level; the inputs of the next level stay the same, and the inputs stay legal. |
| CompactionInputs.SetupOtherInputs | ios/Pods/leveldb-library/db/version_set.cc:1403-1461 | The inputs are the pick with its boundary files, the files of the next level in their range, and the expansion if its conditions hold; the grandparents are the files two levels down in the range of all inputs, the compaction key is the largest key at the level. The inputs are closed, and no file of the next level outside them meets their hull. |
| CompactionInputs.PickBySize | ios/Pods/leveldb-library/db/version_set.cc:1283-1323 | The pick is the first file that ends behind the compaction key, or the first of all if none does; on level 0 with the least set closed under overlap; and it is what the later steps need as a start. |
| CompactionInputs.PickRange | ios/Pods/leveldb-library/db/version_set.cc:1464-1495 | Above level 0 the pick is the first of the files that meet the range, without a gap, up to the first place where their sizes reach the limit or the last of them; on level 0 the least closed set; nothing if and only if no file meets the range. |
| CompactionInputs.OverlapsMeans | ios/Pods/leveldb-library/db/version_set.cc:108-120 | A file meets a range exactly if some user key lies in both. |
| CompactionInputs.PickLevelForMemTableOutput | ios/Pods/leveldb-library/db/version_set.cc:491-516 | The level is the deepest that is allowed: no file of it or above meets the range unless it is 0, the files that do two levels below each level passed are no larger than the limit, and below level 2 it went no further because a file of level 0 or of the next level meets the range, or those of the level after that are too large. |
| CompactionWork.Compaction.IsBaseLevelForKey | ios/Pods/leveldb-library/db/version_set.cc:1533-1552 | For keys asked about in ascending order the answer is exact: no deeper file covers the key. |
| CompactionWork.Compaction.DoCompactionWork | ios/Pods/leveldb-library/db/db_impl.cc:906-1005 | An input entry is in the outputs if and only if no newer one of its user key is at or below the oldest snapshot, and it is no tombstone at or below it whose user key no file two or more levels down has in its range; so of one user key at most one entry at or below the snapshot is left. The outputs are cut where the overlapped files two levels down, or the output's own size, end one. With the largest sequence number as oldest snapshot everything would be dropped. |
| CompactionWork.KeptExactly | ios/Pods/leveldb-library/db/db_impl.cc:926-972 | Which entries the drop rules keep, said of each entry alone. |
| CompactionWork.Compaction.ShouldStopBefore | ios/Pods/leveldb-library/db/version_set.cc:1554-1576 | For ascending keys an output ends exactly when the files two levels down that were passed since the count started, and it starts anew at each such end, are larger than the limit together. |
| CompactionWork.StopsBySize | ios/Pods/leveldb-library/db/version_set.cc:1554-1576 | So between two such ends what counts is the size of the files passed from the first one on, and the first key alone never ends one. |
| CompactionWork.CompactionMeaning | ios/Pods/leveldb-library/db/db_impl.cc:926-972 | No reader at the oldest snapshot or later notices the drops if and only if no dropped tombstone uncovers an older value outside the compaction. |
| Lsm.InstallMeaning | ios/Pods/leveldb-library/db/db_impl.cc:860-876 | The same, for all files of the version before and after the result of a compaction is installed. |
| Lsm.ClosedUncoversNothing | ios/Pods/leveldb-library/db/version_set.cc:1533-1552 | If nothing older than an input stays behind at the next level either, no dropped tombstone uncovers anything. |
| Lsm.InstallLayered | ios/Pods/leveldb-library/db/db_impl.cc:860-876 | Installing a compaction keeps the levels layered. |
| Lsm.AddLayered | ios/Pods/leveldb-library/db/db_impl.cc:514-529 | Adding files newer than all data, at a level where they meet no file down to it, keeps the levels layered. |
| UncoveredTombstone.InputsAreChosen | ios/Pods/leveldb-library/db/version_set.cc:1403-1449 | For that version the chosen file has no boundary files, meets one file of the next level, and the hull of both takes in no more files. |
| UncoveredTombstone.TombstoneUncoversValue | ios/Pods/leveldb-library/db/version_set.cc:1410 | A concrete version in which the inputs of the next level are not extended by boundary files: before the compaction a reader finds a key deleted, after any installation of its outputs the old value. |
| TombstoneRun.VersionArises | ios/Pods/leveldb-library/db/db_impl.cc:878-1025 | That version arises in a run of the database from its creation, through three writes, two flushes and a compaction under a live snapshot. |
| TombstoneRun.DeletedValueReturns | ios/Pods/leveldb-library/db/version_set.cc:1410 | At the end of the run the compaction is legal and not harmless, and the value deleted last is found again after it. |
| VersionBuilders.Builder.Apply | ios/Pods/leveldb-library/db/version_set.cc:650-692 | The pending deletions and additions are updated by an edit as the set of files is. |
| VersionBuilders.SaveLevel | ios/Pods/leveldb-library/db/version_set.cc:695-738 | The merge of base and added files has exactly those that are not deleted, none before a smaller one; its order is strict if and only if no file that is left is in both. |
| VersionBuilders.BuildVersion | ios/Pods/leveldb-library/db/version_set.cc:650-754 | Applying any list of edits and saving once gives the files that folding the edits one by one gives, as long as a number stands for one file; sorted strictly, with no file twice, if and only if no file of the base that is still there was added again. |
| VersionBuilders.AddedAgain | ios/Pods/leveldb-library/db/version_set.cc:670-691 | Any file that one edit deletes and a later one adds again, at its level, is saved twice: adding it makes the builder forget the deletion. |
| VersionBuilders.SameFilesSameOrder | ios/Pods/leveldb-library/db/version_set.cc:592-605 | A set of files has one order by smallest key and number. |
| VersionBuilders.ManifestReplay | ios/Pods/leveldb-library/db/version_set.cc:1088-1116 | A snapshot and the edits behind it, saved to an empty version, rebuild the live version file for file. |
| Histories.InsertInto | ios/Pods/leveldb-library/db/write_batch.cc:132-137 | The memtable gains exactly the entries of the batch under consecutive sequence numbers and stays sorted. |
| Histories.HistoryIsMap | ios/Pods/leveldb-library/db/write_batch.cc:116-137 | What a reader at a sequence number finds in the entries of a history is what a plain map has after that many puts and deletions. |
| Recovery.RecoverLogFile | ios/Pods/leveldb-library/db/db_impl.cc:371-489 | Replaying one log extends the recovered tables by exactly the entries of its batches, newer tables with larger numbers: one table with the batches up to each place where the memtable is full, and one at the end. |
| Recovery.WriteLevel0Table | ios/Pods/leveldb-library/db/db_impl.cc:491-533 | A table of the memtable under the next number is added, unless the memtable is empty; the number is used up in either case. |
| Recovery.RecoverLogs | ios/Pods/leveldb-library/db/db_impl.cc:304-368 | Replaying the live logs in order recovers exactly the history that is not in the version, and its last sequence number. |
| Databases.KeepInv | ios/Pods/leveldb-library/db/db_impl.cc:535-566 | Each of the sixteen steps, among them memtable switch, flush, compaction, trivial move, deletion of obsolete files, crash and recovery, keeps the invariant. |
| Databases.KeepLogBatch | ios/Pods/leveldb-library/db/db_impl.cc:1209-1218 | Logging a batch keeps the invariant: recovery would now find it. |
| Databases.KeepApplyBatch | ios/Pods/leveldb-library/db/db_impl.cc:1224-1239 | Applying a logged batch to the memtable keeps the invariant. |
| Databases.KeepSwitchMemtable | ios/Pods/leveldb-library/db/db_impl.cc:1345-1366 | A new log and an empty memtable keep the invariant: the old log is still live. |
| Databases.KeepBuildFlush | ios/Pods/leveldb-library/db/db_impl.cc:491-507 | A table built from the immutable memtable is newer than all of level 0 and not yet part of the version. |
| Databases.KeepWriteOutput | ios/Pods/leveldb-library/db/db_impl.cc:786-809 | An output of a compaction gets a new number and is pending. |
| Databases.KeepCommitMove | ios/Pods/leveldb-library/db/db_impl.cc:716-733 | Moving a single file to the next level keeps what readers see and what recovery needs. |
| Databases.KeepSnapshots | ios/Pods/leveldb-library/db/db_impl.cc:1166-1174 | Taking and releasing snapshots keeps the invariant: no snapshot is older than what compactions respected. |
| Databases.KeepCrash | ios/Pods/leveldb-library/db/db_impl.cc:280-303 | Losing everything volatile keeps what recovery needs. |
| Databases.KeepRecover | ios/Pods/leveldb-library/db/db_impl.cc:304-369 | The version with the recovered tables, the new log and the larger of both last sequence numbers satisfies the invariant again. |
| Databases.KeepDeleteObsolete | ios/Pods/leveldb-library/db/db_impl.cc:223-278 | Deleting obsolete files, stopped anywhere, removes no log or table that recovery needs. |
| Maintenance.DeleteObsoleteFiles | ios/Pods/leveldb-library/db/db_impl.cc:223-278 | Run to its end it leaves exactly the logs from the manifest's log on and the tables that are in the version or being written, and is such a step. |
| Databases.KeepCommitFlush | ios/Pods/leveldb-library/db/db_impl.cc:535-566 | Installing a flushed memtable and dropping its log keeps every reader's view and what recovery needs. |
| Databases.KeepCommitCompaction | ios/Pods/leveldb-library/db/db_impl.cc:860-876 | Installing any compaction that uncovers no value keeps what readers at live snapshots see and what recovery needs. |
| Databases.RunInv | ios/Pods/leveldb-library/db/db_impl.cc:280-369 | The invariant holds in every state of every run, crashes at any step boundary included; the one condition on a run is that its compactions uncover no value. |
| Databases.ReadsSeeHistory | ios/Pods/leveldb-library/db/db_impl.cc:1100-1136 | A read at a live snapshot or at the last sequence number sees what a plain map has after the logged operations up to there, whatever was flushed, compacted, recovered or deleted. |
| Databases.Read | ios/Pods/leveldb-library/db/db_impl.cc:1100-1136 | A lookup in an open database, at a snapshot or at the last sequence number, gives what that map has for the key. |
| Databases.RecoveryIsFaithful | ios/Pods/leveldb-library/db/db_impl.cc:280-489 | However a run crashed, recovery gives what a plain map has after all logged operations, and their last sequence number. |
| Maintenance.Open | ios/Pods/leveldb-library/db/db_impl.cc:1474-1515 | Opening after a crash, with the code that replays logs and builds the version, is a recovery step of the state machine. |
| Maintenance.CompactMemTable | ios/Pods/leveldb-library/db/db_impl.cc:535-566 | Flushing, with the code that picks the level and builds the version, is a flush step of the state machine, to the deepest level allowed. |
| Compactions.Pick | ios/Pods/leveldb-library/db/version_set.cc:1270-1323 | For a compaction by size, by seeks or by hand the files picked are those that the request names, by turn, by index or by range, and what the later steps need as a start; none are picked exactly for a range that meets no file. |
| Compactions.ConcatIsLevelRun | ios/Pods/leveldb-library/db/version_set.cc:1254-1259 | The run of files one after the other is what the concatenating iterator over them goes over. |
| Compactions.InputMerge | ios/Pods/leveldb-library/db/version_set.cc:1237-1268 | The children of the input iterator, level-0 files one by one and another level as one run, have a sorted merge that holds exactly the input entries. |
| Compactions.MakeInputIterator | ios/Pods/leveldb-library/db/version_set.cc:1237-1268 | The merging iterator over these children goes over exactly the input entries, in order. |
| Compactions.CompactionRuns | ios/Pods/leveldb-library/db/db_impl.cc:878-1005 | The non-empty output runs together are exactly the entries kept of the merged input, cut where overlap or size end an output, and each can be a table. |
| Compactions.WriteOutputs | ios/Pods/leveldb-library/db/db_impl.cc:786-858 | Each run becomes a table of its size under the next number, protected from deletion; every table is a step of the state machine, and nothing else changes. |
| Compactions.EditInstalls | ios/Pods/leveldb-library/db/version_set.cc:1525-1531 | The version that the edit of a compaction makes is the old one without the inputs and with the outputs at the next level. |
| Compactions.InstallCompactionResults | ios/Pods/leveldb-library/db/db_impl.cc:860-876 | The next version is so built, with the log number as it was and the counters as they are. |
| Compactions.MoveFile | ios/Pods/leveldb-library/db/db_impl.cc:716-723 | A trivial move, through the edit that it logs, is a move step of the state machine. |
| Compactions.CompactPicked | ios/Pods/leveldb-library/db/db_impl.cc:716-744 | The job takes the completion of the files picked, and is a trivial move exactly under these conditions. |
| Compactions.CommitOutputs | ios/Pods/leveldb-library/db/db_impl.cc:860-876 | After the installation readers at the smallest snapshot or later see the same if and only if no dropped tombstone uncovers a value, and then it is a compaction step of the state machine. |
| Compactions.RunCompaction | ios/Pods/leveldb-library/db/db_impl.cc:736-744 | From legal inputs to the outputs installed and given free, at the oldest snapshot in use: table by table, commit and cleanup, steps of the state machine if the compaction is harmless; the counters of the manifest are those of the moment. |
| Compactions.SmallestSnapshot | ios/Pods/leveldb-library/db/db_impl.cc:890-894 | The oldest snapshot in use, or the last sequence number without any. |
| Compactions.FlushImm | ios/Pods/leveldb-library/db/db_impl.cc:535-566 | Building the table of the immutable memtable, unless it is empty, and committing it at the deepest level allowed are two steps of the state machine. |
| Compactions.BackgroundCompaction | ios/Pods/leveldb-library/db/db_impl.cc:688-767 | A background job flushes exactly if there is an immutable memtable, and otherwise answers the request: nothing for a range that meets no file; a trivial move exactly if it is not by hand and takes one file, none of the next level, and few grandparents; else a compaction of the completed pick. All of it is steps of the state machine, except that a compaction need not be harmless. |
| Compactions.JobKeepsInv | ios/Pods/leveldb-library/db/db_impl.cc:688-767 | So the invariant holds in every state that the job passes through, with a harmless compaction as the only condition. |
| Interleavings.FlushKeepsInputs | ios/Pods/leveldb-library/db/db_impl.cc:908-920 | After a flush by the compaction's own loop its inputs are still legal, if and only if the flush put no file into their hull at the level that the outputs go to. |
| Interleavings.FlushKeepsHarmless | ios/Pods/leveldb-library/db/db_impl.cc:908-920 | The flush changes nothing about what the compaction keeps, and makes no harmless compaction harmful. |
| Interleavings.CompactionUndisturbed | ios/Pods/leveldb-library/db/db_impl.cc:895-897 | The same for every step that other threads or the loop may take while the compaction works without the lock. |
| Interleavings.PendingUndisturbed | ios/Pods/leveldb-library/db/db_impl.cc:895-1020 | Outputs can be installed after any number of such steps, as if none had happened. |
| Interleavings.FlushIntoGap | ios/Pods/leveldb-library/db/db_impl.cc:908-920 | A concrete version in which a manual compaction takes two files with a gap and the flush goes into the gap: the outputs then overlap the flushed file. |
| Randoms.Random.Next | ios/Pods/leveldb-library/util/random.h:26-46 | The state becomes the state times 16807 modulo 2^31-1, and stays between 1 and 2^31-2. |
| Randoms.StepBack | ios/Pods/leveldb-library/util/random.h:29-36 | A step is undone by multiplying with 1407677000, so it never reaches 0. |
| Randoms.AfterInRange | ios/Pods/leveldb-library/util/random.h:22-46 | On every run the state stays in range. |
| Randoms.AfterIsPower | ios/Pods/leveldb-library/util/random.h:26-46 | After n steps the state is the first one times the n-th power of 16807, modulo 2^31-1. |
| Examples.LogBytes | ios/Pods/leveldb-library/db/log_format.h:14-30 | The bytes of a log with one small record. |
| Examples.BatchBytes | ios/Pods/leveldb-library/db/write_batch.cc:5-14 | The bytes of a batch with a put and a deletion. |
| Examples.EditBytes | ios/Pods/leveldb-library/db/version_edit.cc:13-24 | The bytes of an edit with a log number and a deleted file. |
| Examples.InternalKeyBytes | ios/Pods/leveldb-library/db/dbformat.cc:14-23 | The bytes of an internal key. |

## Left out

- Files, the environment, mmap, threads, mutexes and condition variables: files are byte sequences or abstract tables, and
  what happens under a lock is one step.
- I/O errors, background errors, reuse of logs at recovery, the legacy second log, whose number is always 0, and repair of
  damaged databases.
- The tables of the CRC: a checksum is any function of the bytes to 32-bit words. Bloom's hash is any such function too.
- Snappy compression: every block is stored uncompressed, and a block of another type counts as unreadable.
- Corrupt tables: blocks, table files and iterators are modelled on what the builders wrote. Logs, batches and edits are
  modelled on any bytes.
- Other user comparators than the bytewise one, at the level of bytes.
- Other filter policies than Bloom.
- Initial offsets of the log reader other than 0, and reading with checksums turned off.
- Choosing a compaction level by score, seek statistics and read sampling; the size of a table and when an output or a
  memtable is full are functions of its entries that are given; approximate sizes.
- The block cache in front of table reads, the sharding of the cache by the top bits of the hash, and the table cache.
- A flush-level choice made against one version and committed against another: the level is picked from the version it
  is committed to.
- Compactions.BackgroundCompaction: runs without other threads in between; what they and a flush by its own loop leave
  unchanged is `Interleavings.PendingUndisturbed`. The picked level and seek file are parameters, and a range left over
  by a manual compaction is a new request.
- MergingIterators.MergingIterator.Next: from the backward state only on an entry in view, as the database iterator
  uses it, because an entry added meanwhile may stand out of order there; every entry is in view of a compaction.
- MergingIterators.MergingIterator.Prev: likewise from the forward state.
- The order of memory operations beyond sequential consistency: a reader of the skip list sees the stores in order.
- Reference counts of versions, memtables and snapshots, and freeing memory; the cache's counts are modelled.
- Lists of the source as linked cells: the update in place of next and prev links in the cache's lists and hash chains
  is a sequence operation here.
- Blocks.BlockBuilder.Finish: for blocks of less than 4 GiB, because offsets inside blocks have 32 bits.
- Tables.Table.InternalGet: opened on a finished table whose blocks have less than 4 GiB each.
- Filters.FilterBlockBuilder.Finish: for filter blocks of less than 4 GiB, because filter offsets have 32 bits.
