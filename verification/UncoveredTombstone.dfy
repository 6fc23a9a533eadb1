/** A compaction that brings a deleted value back: boundary files are added at the compaction's own level
    (version_set.cc:1407 and 1422) but not at the next one (version_set.cc:1410). */
module UncoveredTombstone {
  import opened Keys
  import opened Versions
  import opened CompactionInputs
  import opened CompactionWork
  import opened Lsm

  const A: UserKey := 1.0
  const B: UserKey := 2.0

  function Value(k: UserKey, sequence: nat): Entry {
    Entry(IKey(k, sequence, TypeValue), [])
  }

  function Tombstone(k: UserKey, sequence: nat): Entry {
    Entry(IKey(k, sequence, TypeDeletion), [])
  }

  const RUN1: seq<Entry> := [Value(A, 4)]
  const RUN2: seq<Entry> := [Value(A, 2), Tombstone(B, 3)]
  const RUN3: seq<Entry> := [Value(B, 1)]
  const MERGED: seq<Entry> := [Value(A, 4), Value(A, 2), Tombstone(B, 3)]

  const FILE1: File := Table(8, 1, RUN1)
  const FILE2: File := Table(5, 1, RUN2)
  const FILE3: File := Table(6, 1, RUN3)

  /** Level 2 holds key A; level 3 holds A, a tombstone for B, and in the next file a value for B. */
  const LEVELS: Levels := [[], [], [FILE1], [FILE2, FILE3], [], [], []]

  lemma OneFile(f: File)
    ensures FilesEntries([f]) == Elements(f.run)
  {
  }

  lemma TwoFiles(f: File, g: File)
    ensures FilesEntries([f, g]) == Elements(f.run) + Elements(g.run)
  {
  }

  lemma LevelsAreLayered()
    ensures Layered(LEVELS)
  {
    hide FilesEntries, GoodTable;
    Layers();
    forall l, m | 0 <= l < m < |LEVELS| ensures Newer(FilesEntries(LEVELS[l]), FilesEntries(LEVELS[m])) {
      NoFiles();
      assert (l == 2 && m == 3) || LEVELS[l] == [] || LEVELS[m] == [];
    }
  }

  lemma Layers()
    ensures Newer(FilesEntries([FILE1]), FilesEntries([FILE2, FILE3])) && SortedDisjoint([FILE2, FILE3])
  {
    OneFile(FILE1);
    TwoFiles(FILE2, FILE3);
  }

  lemma Leaving()
    ensures Rest([FILE1], [FILE1]) == [] && Rest([FILE2, FILE3], [FILE2]) == [FILE3]
  {
    assert [FILE1][..0] == [] && [FILE2, FILE3][..1] == [FILE2] && [FILE2][..0] == [];
    assert Rest([FILE2], [FILE2]) == [];
  }

  lemma InputsAreGood()
    ensures GoodInputs(LEVELS[2], LEVELS[3], [FILE1], [FILE2]) && Elements(MERGED) == Input([FILE1], [FILE2])
  {
    OneFile(FILE1);
    OneFile(FILE2);
    Leaving();
    NoFiles();
    assert Elements(MERGED) == Elements(RUN1) + Elements(RUN2);
    assert AllAfter(FILE3, [FILE1] + [FILE2]);
  }

  /** The choice of the inputs: the file of level 2 has no boundary files and meets one file of level 3; the range of
      both takes in no more of level 2, so that there is nothing to expand. */
  lemma InputsAreChosen()
    ensures StartInputs(LEVELS[2], 2, [FILE1]) && BoundaryChain(LEVELS[2], FILE1.Largest()) == []
    ensures IsHull([FILE1], FILE1.Smallest(), FILE1.Largest()) && Selected(LEVELS[3], 2, Some(A), Some(A)) == [FILE2]
    ensures IsHull([FILE1] + [FILE2], FILE1.Smallest(), FILE2.Largest())
            && Selected(LEVELS[2], 1, Some(A), Some(B)) == [FILE1]
  {
    assert LEVELS[2] == LEVELS[2][0..1];
    assert Selected(LEVELS[3], 1, Some(A), Some(A)) == [FILE2];
    ChainHead(LEVELS[2], FILE1.Largest());
    var both := [FILE1] + [FILE2];
    assert both[0].Smallest() == FILE1.Smallest() && both[1].Largest() == FILE2.Largest();
    assert [FILE1][0] == FILE1;
  }

  lemma InputsInLevels()
    ensures (forall f :: f in [FILE1] ==> f in LEVELS[2]) && (forall f :: f in [FILE2] ==> f in LEVELS[3])
  {
  }

  lemma WhatStays()
    ensures LevelsEntries(Staying(LEVELS, 2, [FILE1], [FILE2])) == {Value(B, 1)}
  {
    var staying := Staying(LEVELS, 2, [FILE1], [FILE2]);
    Leaving();
    assert staying[2] == [] && staying[3] == [FILE3];
    OneFile(FILE3);
    forall e ensures e in LevelsEntries(staying) <==> e == Value(B, 1) {
      if e in LevelsEntries(staying) {
        var l := LevelOf(staying, e);
        NoFiles();
        assert l == 3;
      } else {
        assert e != Value(B, 1) by {
          if e == Value(B, 1) {
            LevelMember(staying, 3, e);
          }
        }
      }
    }
  }

  /** Before the compaction a reader finds the tombstone. */
  lemma Deleted()
    ensures LevelsEntries(LEVELS) == Elements(MERGED) + {Value(B, 1)}
    ensures Newest(LevelsEntries(LEVELS), B, 4) == Some(Tombstone(B, 3))
            && View(Newest(LevelsEntries(LEVELS), B, 4)) == None
  {
    hide Layered, GoodInputs, LevelsEntries, Staying, Newest, FilesEntries;
    InputsAreGood();
    InputsInLevels();
    WhatStays();
    EntriesBefore(LEVELS, 2, [FILE1], [FILE2]);
    LevelsAreLayered();
    LevelsDistinct(LEVELS);
    NewestOfAll(LevelsEntries(LEVELS));
  }

  lemma NewestOfAll(all: set<Entry>)
    requires all == Elements(MERGED) + {Value(B, 1)} && DistinctKeys(all)
    ensures Newest(all, B, 4) == Some(Tombstone(B, 3))
  {
    hide Newest;
    assert IsNewest(all, B, 4, Tombstone(B, 3));
    NewestIs(all, B, 4, Tombstone(B, 3));
  }

  lemma WhatIsKept(base: UserKey -> bool)
    requires base(B)
    ensures Kept(MERGED, 4, base, 3) == [Value(A, 4)]
  {
    assert Kept(MERGED, 4, base, 1) == [Value(A, 4)];
    assert Dropped(MERGED, 4, base, 1) && Dropped(MERGED, 4, base, 2);
    assert Kept(MERGED, 4, base, 2) == [Value(A, 4)];
  }

  lemma Uncovered(base: UserKey -> bool)
    requires base(B)
    ensures Sorted(MERGED) && !NothingUncovered(MERGED, 4, base, {Value(B, 1)})
  {
    hide Newest;
    var outside := {Value(B, 1)};
    assert IsNewest(outside, B, 4, Value(B, 1));
    NewestIs(outside, B, 4, Value(B, 1));
    assert Obsolete(base, MERGED[2], 4) && !Hidden(MERGED, 4, 2) && Uncovers(MERGED[2], 4, outside);
  }

  /** Compacting level 2 takes in the file with the tombstone for B but not its neighbour with the older value; the
      tombstone is dropped because no deeper level covers B, and the deleted value is back. */
  lemma TombstoneUncoversValue()
    ensures Layered(LEVELS) && GoodInputs(LEVELS[2], LEVELS[3], [FILE1], [FILE2])
    ensures Sorted(MERGED) && Elements(MERGED) == Input([FILE1], [FILE2])
    ensures !NothingUncovered(MERGED, 4, BaseOf(LEVELS, 2), LevelsEntries(Staying(LEVELS, 2, [FILE1], [FILE2])))
    ensures View(Newest(LevelsEntries(LEVELS), B, 4)) == None
    ensures forall levels', outputs :: Installed(LEVELS, levels', 2, [FILE1], [FILE2], outputs)
                                       && FilesEntries(outputs) == Elements(Kept(MERGED, 4, BaseOf(LEVELS, 2), 3))
              ==> View(Newest(LevelsEntries(levels'), B, 4)) == Some([])
  {
    hide Layered, GoodInputs, LevelsEntries, Staying, Newest, FilesEntries, Installed, Kept, NothingUncovered, Sorted;
    LevelsAreLayered();
    InputsAreGood();
    WhatStays();
    Deleted();
    DeepLevelsEmpty();
    WhatIsKept(BaseOf(LEVELS, 2));
    Uncovered(BaseOf(LEVELS, 2));
    forall levels', outputs | Installed(LEVELS, levels', 2, [FILE1], [FILE2], outputs)
                              && FilesEntries(outputs) == Elements(Kept(MERGED, 4, BaseOf(LEVELS, 2), 3))
      ensures View(Newest(LevelsEntries(levels'), B, 4)) == Some([])
    {
      EntriesAfter(LEVELS, levels', 2, [FILE1], [FILE2], outputs);
      assert IsNewest(LevelsEntries(levels'), B, 4, Value(B, 1));
      NewestIs(LevelsEntries(levels'), B, 4, Value(B, 1));
    }
  }

  lemma DeepLevelsEmpty()
    ensures BaseLevel(LEVELS, 2, B)
  {
  }
}
