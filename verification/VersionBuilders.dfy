/** version_set.cc, VersionSet::Builder: applying many edits at once, and replaying a manifest. */
module VersionBuilders {
  import opened Keys
  import opened Versions
  import opened Lsm

  /** The file changes of a version edit. */
  datatype Edit = Edit(deleted: set<(nat, nat)>, added: seq<(nat, File)>)

  ghost predicate GoodEdit(e: Edit) {
    && (forall d :: d in e.deleted ==> d.0 < NUM_LEVELS)
    && (forall i :: 0 <= i < |e.added| ==> e.added[i].0 < NUM_LEVELS)
  }

  // ----- One edit at a time

  /** The files that an edit adds at a level, in order. */
  function AddsAt(added: seq<(nat, File)>, level: nat): seq<File> {
    if added == [] then []
    else
      var n := |added| - 1;
      AddsAt(added[..n], level) + if added[n].0 == level then [added[n].1] else []
  }

  ghost function AddedAt(e: Edit, level: nat): set<File> {
    Members(AddsAt(e.added, level))
  }

  ghost function Numbers(files: seq<File>): set<nat> {
    set f | f in files :: f.number
  }

  ghost function Members(files: seq<File>): set<File> {
    set f | f in files
  }

  /** The files of a level after one edit: deletions first, then additions. */
  ghost function Apply1(files: set<File>, e: Edit, level: nat): set<File> {
    (set f | f in files && (level, f.number) !in e.deleted) + AddedAt(e, level)
  }

  ghost function ApplyAll(files: set<File>, edits: seq<Edit>, level: nat): set<File> {
    if edits == [] then files else Apply1(ApplyAll(files, edits[..|edits| - 1], level), edits[|edits| - 1], level)
  }

  ghost predicate DistinctNumbers(files: seq<File>) {
    forall i, j :: 0 <= i < j < |files| ==> files[i].number != files[j].number
  }

  ghost predicate AddedBy(edits: seq<Edit>, level: nat, f: File) {
    exists i :: 0 <= i < |edits| && f in AddedAt(edits[i], level)
  }

  ghost predicate Known(base: seq<File>, edits: seq<Edit>, level: nat, f: File) {
    f in base || AddedBy(edits, level, f)
  }

  /** A number stands for one file, whenever the file comes to the level. */
  ghost predicate NumbersMean(base: seq<File>, edits: seq<Edit>, level: nat) {
    forall f: File, g: File ::
      (Known(base, edits, level, f) && Known(base, edits, level, g) && f.number == g.number) ==> f == g
  }

  // ----- The order of a level determines its sequence

  lemma SmallerTotal(f: File, g: File)
    ensures SmallerFile(f, g) || SmallerFile(g, f) || (f.Smallest() == g.Smallest() && f.number == g.number)
    ensures !(SmallerFile(f, g) && SmallerFile(g, f))
  {
  }

  lemma SmallerTransitive(f: File, g: File, h: File)
    requires SmallerFile(f, g) && SmallerFile(g, h)
    ensures SmallerFile(f, h)
  {
  }

  lemma {:induction false} SameFilesSameOrder(a: seq<File>, b: seq<File>)
    requires BySmallest(a) && BySmallest(b) && forall f :: f in a <==> f in b
    ensures a == b
  {
    hide GoodTable, SmallerFile;
    assert b != [] ==> b[0] in b;
    if a != [] {
      assert a[0] in a;
      var i :| 0 <= i < |b| && b[i] == a[0];
      assert b[0] in b;
      var j :| 0 <= j < |a| && a[j] == b[0];
      SmallerTotal(a[0], b[0]);
      assert a[0] == b[0];
      TailMembers(a);
      TailMembers(b);
      SameFilesSameOrder(a[1..], b[1..]);
      assert a == [a[0]] + a[1..] && b == [b[0]] + b[1..];
    }
  }

  lemma TailMembers(a: seq<File>)
    requires BySmallest(a) && a != []
    ensures BySmallest(a[1..]) && forall f :: f in a[1..] <==> f in a && f != a[0]
  {
  }

  // ----- The ordered set of added files

  /** An insertion is lost when the set holds a file that compares equal. */
  function Insert(files: seq<File>, f: File): seq<File> {
    if files == [] || SmallerFile(f, files[0]) then [f] + files
    else if files[0].Smallest() == f.Smallest() && files[0].number == f.number then files
    else [files[0]] + Insert(files[1..], f)
  }

  function InsertAll(files: seq<File>, more: seq<File>): seq<File> {
    if more == [] then files else Insert(InsertAll(files, more[..|more| - 1]), more[|more| - 1])
  }

  lemma Prepend(f: File, files: seq<File>)
    requires BySmallest(files) && forall g :: g in files ==> SmallerFile(f, g)
    ensures BySmallest([f] + files)
  {
  }

  lemma FirstSmaller(f: File, files: seq<File>)
    requires BySmallest(files) && files != [] && SmallerFile(f, files[0])
    ensures forall g :: g in files ==> SmallerFile(f, g)
  {
  }

  lemma {:induction false} InsertGood(files: seq<File>, f: File)
    requires BySmallest(files)
    ensures BySmallest(Insert(files, f))
    ensures Members(Insert(files, f)) <= Members(files) + {f}
    ensures (forall g :: g in files && g.number == f.number ==> g == f) ==>
              Members(Insert(files, f)) == Members(files) + {f}
  {
    hide GoodTable, SmallerFile, BySmallest;
    if files == [] {
      Prepend(f, files);
    } else if SmallerFile(f, files[0]) {
      FirstSmaller(f, files);
      Prepend(f, files);
    } else if files[0].Smallest() == f.Smallest() && files[0].number == f.number {
      assert files[0] in files;
    } else {
      TailMembers(files);
      SmallerTotal(f, files[0]);
      InsertGood(files[1..], f);
      var r := Insert(files[1..], f);
      TailSmaller(files);
      forall g | g in r ensures SmallerFile(files[0], g) {
        assert g in Members(r);
      }
      Prepend(files[0], r);
      assert files == [files[0]] + files[1..];
      assert Members(Insert(files, f)) == {files[0]} + Members(r);
      assert Members(files) == {files[0]} + Members(files[1..]);
    }
  }

  lemma TailSmaller(files: seq<File>)
    requires BySmallest(files) && files != []
    ensures forall g :: g in files[1..] ==> SmallerFile(files[0], g)
  {
  }

  /** Files of these two lists with the same number are the same file. */
  ghost predicate SameMeaning(files: seq<File>, more: seq<File>) {
    forall f: File, g: File ::
      ((f in files || f in more) && (g in files || g in more) && f.number == g.number) ==> f == g
  }

  lemma {:induction false} InsertAllGood(files: seq<File>, more: seq<File>)
    requires BySmallest(files)
    ensures BySmallest(InsertAll(files, more))
    ensures Members(InsertAll(files, more)) <= Members(files) + Members(more)
    ensures SameMeaning(files, more) ==> Members(InsertAll(files, more)) == Members(files) + Members(more)
  {
    hide GoodTable, BySmallest, Insert;
    if more != [] {
      var n := |more| - 1;
      var front, f := more[..n], more[n];
      assert more == front + [f];
      InsertAllGood(files, front);
      InsertGood(InsertAll(files, front), f);
      forall g | g in InsertAll(files, front) ensures g in files || g in more {
        assert g in Members(InsertAll(files, front));
      }
    }
  }

  // ----- Merging the base files with the added ones

  ghost predicate NoneSmaller(v: seq<File>) {
    forall i, j :: 0 <= i < j < |v| ==> !SmallerFile(v[j], v[i])
  }

  /** No file that is left is in both lists. */
  ghost predicate NoTwins(x: seq<File>, y: seq<File>, deleted: set<nat>) {
    forall f: File, g: File :: f in x && g in y && f.number !in deleted ==> !Twins(f, g)
  }

  predicate Twins(f: File, g: File) {
    f.Smallest() == g.Smallest() && f.number == g.number
  }

  /** v holds the first i files of x and the first j of y, without the deleted ones, in order, before the rest. */
  ghost predicate Merged(v: seq<File>, x: seq<File>, i: nat, y: seq<File>, j: nat, deleted: set<nat>) {
    && i <= |x| && j <= |y| && NoneSmaller(v) && (BySmallest(v) <==> NoTwins(x[..i], y[..j], deleted))
    && (forall f :: f in v <==> (f in x[..i] || f in y[..j]) && f.number !in deleted)
    && (forall f, m :: f in v && i <= m < |x| ==> !SmallerFile(x[m], f))
    && (forall f, m :: f in v && j <= m < |y| ==> !SmallerFile(y[m], f))
  }

  function MaybeAddFile(v: seq<File>, f: File, deleted: set<nat>): seq<File> {
    if f.number in deleted then v else v + [f]
  }

  lemma MergeStep(v: seq<File>, x: seq<File>, i: nat, y: seq<File>, j: nat, deleted: set<nat>)
    requires Merged(v, x, i, y, j, deleted) && i < |x| && BySmallest(x) && BySmallest(y)
    requires j < |y| ==> !SmallerFile(y[j], x[i])
    ensures Merged(MaybeAddFile(v, x[i], deleted), x, i + 1, y, j, deleted)
  {
    hide GoodTable, SmallerFile, Twins, BySmallest, NoneSmaller, NoTwins;
    var w := MaybeAddFile(v, x[i], deleted);
    assert x[..i + 1] == x[..i] + [x[i]];
    NotSmallerLater(x, y, i, j);
    MergeTwins(v, x, i, y, j, deleted);
    NoneSmallerAppend(v, x[i]);
  }

  lemma NotSmallerLater(x: seq<File>, y: seq<File>, i: nat, j: nat)
    requires i < |x| && BySmallest(x) && BySmallest(y) && (j < |y| ==> !SmallerFile(y[j], x[i]))
    ensures forall m :: j <= m < |y| ==> !SmallerFile(y[m], x[i])
    ensures forall m :: i < m < |x| ==> !SmallerFile(x[m], x[i])
  {
    hide GoodTable, SmallerFile;
    forall m | j < m < |y| ensures !SmallerFile(y[m], x[i]) {
      if SmallerFile(y[m], x[i]) {
        SmallerTransitive(y[j], y[m], x[i]);
      }
    }
    forall m | i < m < |x| ensures !SmallerFile(x[m], x[i]) {
      SmallerTotal(x[i], x[m]);
    }
  }

  lemma NoneSmallerAppend(v: seq<File>, f: File)
    requires NoneSmaller(v) && forall g :: g in v ==> !SmallerFile(f, g)
    ensures NoneSmaller(v + [f])
  {
  }

  /** The order stays strict exactly if the file has no twin before it. */
  lemma MergeTwins(v: seq<File>, x: seq<File>, i: nat, y: seq<File>, j: nat, deleted: set<nat>)
    requires Merged(v, x, i, y, j, deleted) && i < |x| && BySmallest(x)
    ensures BySmallest(MaybeAddFile(v, x[i], deleted)) <==> NoTwins(x[..i + 1], y[..j], deleted)
  {
    hide GoodTable, SmallerFile, Twins, NoneSmaller;
    var f := x[i];
    assert x[..i + 1] == x[..i] + [f];
    if f.number !in deleted {
      if g: File :| g in y[..j] && Twins(f, g) {
        SameNumber(f, g);
        assert g in v;
        var p :| 0 <= p < |v| && v[p] == g;
        NotSmallerTwin(g, f);
        assert (v + [f])[p] == g && (v + [f])[|v|] == f;
      } else if BySmallest(v) {
        forall p | 0 <= p < |v| ensures SmallerFile(v[p], f) {
          assert v[p] in v && !SmallerFile(f, v[p]);
          SmallerTotal(v[p], f);
          if v[p] in x[..i] {
            var q :| 0 <= q < i && x[..i][q] == v[p];
            assert x[q] == v[p];
          } else {
            assert !Twins(f, v[p]);
            TwinsMeaning(f, v[p]);
          }
        }
      } else {
        StillNotStrict(v, f);
      }
    }
  }

  lemma SameNumber(f: File, g: File)
    requires Twins(f, g)
    ensures f.number == g.number
  {
  }

  lemma TwinsMeaning(f: File, g: File)
    ensures Twins(f, g) <==> f.Smallest() == g.Smallest() && f.number == g.number
  {
  }

  lemma NotSmallerTwin(f: File, g: File)
    requires Twins(g, f)
    ensures !SmallerFile(f, g)
  {
  }

  lemma StillNotStrict(v: seq<File>, f: File)
    requires !BySmallest(v)
    ensures !BySmallest(v + [f])
  {
    hide GoodTable, SmallerFile;
    var i, j :| 0 <= i < j < |v| && !SmallerFile(v[i], v[j]);
    assert (v + [f])[i] == v[i] && (v + [f])[j] == v[j];
  }

  lemma MergeSwap(v: seq<File>, x: seq<File>, i: nat, y: seq<File>, j: nat, deleted: set<nat>)
    requires Merged(v, x, i, y, j, deleted)
    ensures Merged(v, y, j, x, i, deleted)
  {
    hide GoodTable, SmallerFile, BySmallest, NoneSmaller;
  }

  lemma MergeEnd(v: seq<File>, x: seq<File>, y: seq<File>, deleted: set<nat>)
    requires Merged(v, x, |x|, y, |y|, deleted)
    ensures NoneSmaller(v) && (BySmallest(v) <==> NoTwins(x, y, deleted))
    ensures forall f :: f in v <==> (f in x || f in y) && f.number !in deleted
  {
    hide GoodTable, SmallerFile, BySmallest, NoneSmaller, NoTwins;
    assert x[..|x|] == x && y[..|y|] == y;
  }

  method SaveLevel(base: seq<File>, added: seq<File>, deleted: set<nat>) returns (v: seq<File>)
    requires BySmallest(base) && BySmallest(added)
    ensures NoneSmaller(v) && (BySmallest(v) <==> NoTwins(base, added, deleted))
    ensures forall f :: f in v <==> (f in base || f in added) && f.number !in deleted
  {
    hide GoodTable, SmallerFile, BySmallest, Merged;
    v := [];
    var b := 0;
    MergeStart(base, added, deleted);
    for a := 0 to |added|
      invariant b <= |base| && Merged(v, base, b, added, a, deleted)
    {
      // base files that sort before the added one
      while b < |base| && !SmallerFile(added[a], base[b])
        invariant b <= |base| && Merged(v, base, b, added, a, deleted)
      {
        MergeStep(v, base, b, added, a, deleted);
        v := MaybeAddFile(v, base[b], deleted);
        b := b + 1;
      }
      if b < |base| {
        SmallerTotal(added[a], base[b]);
      }
      MergeSwap(v, base, b, added, a, deleted);
      MergeStep(v, added, a, base, b, deleted);
      v := MaybeAddFile(v, added[a], deleted);
      MergeSwap(v, added, a + 1, base, b, deleted);
    }
    // what is left of base
    while b < |base|
      invariant b <= |base| && Merged(v, base, b, added, |added|, deleted)
    {
      MergeStep(v, base, b, added, |added|, deleted);
      v := MaybeAddFile(v, base[b], deleted);
      b := b + 1;
    }
    MergeEnd(v, base, added, deleted);
  }

  lemma MergeStart(base: seq<File>, added: seq<File>, deleted: set<nat>)
    ensures Merged([], base, 0, added, 0, deleted)
  {
  }

  lemma AddsNone()
    ensures forall added: seq<(nat, File)>, l :: AddsAt(added[..0], l) == []
    ensures forall files :: InsertAll(files, []) == files
  {
  }

  lemma AddsStep(added: seq<(nat, File)>, i: nat, l: nat, files: seq<File>)
    requires i < |added|
    ensures var before, after := AddsAt(added[..i], l), AddsAt(added[..i + 1], l);
            if added[i].0 == l
            then Numbers(after) == Numbers(before) + {added[i].1.number}
                && InsertAll(files, after) == Insert(InsertAll(files, before), added[i].1)
            else after == before
  {
    hide GoodTable;
    var before, after := AddsAt(added[..i], l), AddsAt(added[..i + 1], l);
    assert added[..i + 1][..i] == added[..i];
    if added[i].0 == l {
      assert after == before + [added[i].1] && after[..|after| - 1] == before;
    }
  }

  // ----- The builder

  class Builder {
    const base: Levels
    var deleted: seq<set<nat>>
    var added: seq<seq<File>>  // each in the order of smallest keys

    ghost predicate Valid()
      reads this
    {
      && |base| == |deleted| == |added| == NUM_LEVELS
      && (forall l :: 0 <= l < NUM_LEVELS ==> BySmallest(base[l]) && BySmallest(added[l]))
    }

    constructor (base: Levels)
      requires |base| == NUM_LEVELS && forall l :: 0 <= l < NUM_LEVELS ==> BySmallest(base[l])
      ensures Valid() && this.base == base
      ensures forall l :: 0 <= l < NUM_LEVELS ==> deleted[l] == {} && added[l] == []
    {
      this.base := base;
      deleted := seq(NUM_LEVELS, i => {});
      added := seq(NUM_LEVELS, i => []);
    }

    /** The files the builder would save at a level. */
    ghost function Pending(l: nat): set<File>
      requires Valid() && l < NUM_LEVELS
      reads this
    {
      set f | f in Members(base[l]) + Members(added[l]) && f.number !in deleted[l]
    }

    method Apply(e: Edit)
      requires Valid() && GoodEdit(e)
      modifies this
      ensures Valid()
      ensures forall l :: 0 <= l < NUM_LEVELS ==>
                && deleted[l] == (old(deleted[l]) + DeletedAt(e, l)) - Numbers(AddsAt(e.added, l))
                && added[l] == InsertAll(old(added[l]), AddsAt(e.added, l))
    {
      hide GoodTable, SmallerFile, BySmallest, Insert, InsertAll, AddsAt;
      deleted := seq(NUM_LEVELS, l requires 0 <= l < NUM_LEVELS reads this requires |deleted| == NUM_LEVELS =>
        deleted[l] + DeletedAt(e, l));
      ghost var deleted0, added0 := deleted, added;
      AddsNone();
      for i := 0 to |e.added|
        invariant Valid()
        invariant forall l :: 0 <= l < NUM_LEVELS ==> deleted[l] == deleted0[l] - Numbers(AddsAt(e.added[..i], l))
        invariant forall l :: 0 <= l < NUM_LEVELS ==> added[l] == InsertAll(added0[l], AddsAt(e.added[..i], l))
      {
        var level, f := e.added[i].0, e.added[i].1;
        InsertGood(added[level], f);
        forall l | 0 <= l < NUM_LEVELS
          ensures Numbers(AddsAt(e.added[..i + 1], l))
                  == Numbers(AddsAt(e.added[..i], l)) + if l == level then {f.number} else {}
          ensures InsertAll(added0[l], AddsAt(e.added[..i + 1], l))
                  == if l == level then Insert(InsertAll(added0[l], AddsAt(e.added[..i], l)), f)
                      else InsertAll(added0[l], AddsAt(e.added[..i], l))
        {
          AddsStep(e.added, i, l, added0[l]);
        }
        deleted := deleted[level := deleted[level] - {f.number}];
        added := added[level := Insert(added[level], f)];
      }
      assert e.added[..|e.added|] == e.added;
    }

    method SaveTo() returns (v: Levels)
      requires Valid()
      ensures |v| == NUM_LEVELS
      ensures forall l :: 0 <= l < NUM_LEVELS ==>
                && NoneSmaller(v[l]) && (BySmallest(v[l]) <==> NoTwins(base[l], added[l], deleted[l]))
                && forall f :: f in v[l] <==> (f in base[l] || f in added[l]) && f.number !in deleted[l]
    {
      hide GoodTable, SmallerFile, BySmallest, NoneSmaller, NoTwins;
      v := [];
      for l := 0 to NUM_LEVELS
        invariant |v| == l
        invariant forall m :: 0 <= m < l ==>
                    && NoneSmaller(v[m]) && (BySmallest(v[m]) <==> NoTwins(base[m], added[m], deleted[m]))
                    && forall f :: f in v[m] <==> (f in base[m] || f in added[m]) && f.number !in deleted[m]
      {
        var files := SaveLevel(base[l], added[l], deleted[l]);
        v := v + [files];
      }
    }
  }

  function DeletedAt(e: Edit, level: nat): set<nat> {
    set d | d in e.deleted && d.0 == level :: d.1
  }

  // ----- Many edits at once, and manifest replay

  /** What the builder holds after some edits is what applying them one at a time gives. */
  ghost predicate Holds(base: seq<File>, added: seq<File>, deleted: set<nat>, edits: seq<Edit>, level: nat) {
    && BySmallest(added)
    && (forall f :: f in ApplyAll(Members(base), edits, level) <==> (f in base || f in added) && f.number !in deleted)
    && (forall f :: f in added <==> AddedBy(edits, level, f))
  }

  lemma AddedByStep(edits: seq<Edit>, e: Edit, level: nat, f: File)
    ensures AddedBy(edits + [e], level, f) <==> AddedBy(edits, level, f) || f in AddsAt(e.added, level)
  {
    hide GoodTable, AddsAt;
    var all := edits + [e];
    assert all[|edits|] == e && forall i :: 0 <= i < |edits| ==> all[i] == edits[i];
    if f in AddsAt(e.added, level) {
      assert f in AddedAt(all[|edits|], level);
    }
    if AddedBy(edits, level, f) {
      var i :| 0 <= i < |edits| && f in AddedAt(edits[i], level);
      assert f in AddedAt(all[i], level);
    }
  }

  lemma HoldsStep(base: seq<File>, added: seq<File>, deleted: set<nat>, edits: seq<Edit>, e: Edit, level: nat)
    requires Holds(base, added, deleted, edits, level) && NumbersMean(base, edits + [e], level)
    ensures Holds(base, InsertAll(added, AddsAt(e.added, level)),
                  (deleted + DeletedAt(e, level)) - Numbers(AddsAt(e.added, level)), edits + [e], level)
  {
    hide GoodTable, SmallerFile, BySmallest, AddsAt, InsertAll, ApplyAll, NumbersMean, AddedBy;
    var more := AddsAt(e.added, level);
    KnownMeaning(base, added, edits, e, level);
    InsertAllGood(added, more);
    var added', deleted' := InsertAll(added, more), (deleted + DeletedAt(e, level)) - Numbers(more);
    forall f ensures f in added' <==> f in added || f in more {
      assert f in Members(added') <==> f in Members(added) + Members(more);
    }
    forall f ensures f in added' <==> AddedBy(edits + [e], level, f) {
      AddedByStep(edits, e, level, f);
    }
    ApplyAllStep(Members(base), edits, e, level);
    forall f
      ensures f in ApplyAll(Members(base), edits + [e], level) <==> (f in base || f in added') && f.number !in deleted'
    {
      if f in more {
        assert f.number in Numbers(more);
      } else if f in base || f in added {
        assert f.number !in Numbers(more);
      }
      assert (level, f.number) in e.deleted <==> f.number in DeletedAt(e, level);
    }
  }

  lemma ApplyAllStep(files: set<File>, edits: seq<Edit>, e: Edit, level: nat)
    ensures ApplyAll(files, edits + [e], level) == Apply1(ApplyAll(files, edits, level), e, level)
  {
  }

  /** A file that comes again is the one that was there, so that another file has another number. */
  lemma KnownMeaning(base: seq<File>, added: seq<File>, edits: seq<Edit>, e: Edit, level: nat)
    requires NumbersMean(base, edits + [e], level) && forall f :: f in added <==> AddedBy(edits, level, f)
    ensures SameMeaning(added, AddsAt(e.added, level))
    ensures forall f: File :: (f in base || f in added) && f !in AddsAt(e.added, level) ==>
              f.number !in Numbers(AddsAt(e.added, level))
  {
    hide GoodTable, AddsAt, AddedBy;
    var more := AddsAt(e.added, level);
    forall f: File | f in base || f in added || f in more ensures Known(base, edits + [e], level, f) {
      AddedByStep(edits, e, level, f);
    }
  }

  /** No file of the base that is still there was added again. */
  ghost predicate NotTwice(base: seq<File>, edits: seq<Edit>, level: nat) {
    forall f: File :: f in base && AddedBy(edits, level, f) ==> f !in ApplyAll(Members(base), edits, level)
  }

  /** Any file that an edit deletes and a later one adds again is such a file. */
  lemma AddedAgain(f: File)
    ensures var edits := [Edit({(0, f.number)}, []), Edit({}, [(0, f)])];
            NumbersMean([f], edits, 0) && !NotTwice([f], edits, 0)
  {
    hide GoodTable, AddsAt, ApplyAll, AddedBy;
    var first, second := Edit({(0, f.number)}, []), Edit({}, [(0, f)]);
    assert [first, second] == [first] + [second];
    OnlyAdds(f, first, second);
    ApplyAllStep(Members([f]), [first], second, 0);
    forall g: File ensures AddedBy([first, second], 0, g) <==> g == f {
      NothingAdded(g);
      AddedByStep([], first, 0, g);
      AddedByStep([first], second, 0, g);
      assert [] + [first] == [first];
    }
    assert f in AddedAt(second, 0);
    assert f in [f] && f in ApplyAll(Members([f]), [first, second], 0);
  }

  lemma OnlyAdds(f: File, first: Edit, second: Edit)
    requires first.added == [] && second.added == [(0, f)]
    ensures AddsAt(first.added, 0) == [] && AddsAt(second.added, 0) == [f]
  {
    assert second.added[..0] == [];
  }

  lemma NothingAdded(f: File)
    ensures !AddedBy([], 0, f)
  {
  }

  /** Applying all edits to the base and saving once, as the recovery of a manifest does.  A file that was deleted and
      added again is saved twice, because adding it makes the builder forget the deletion. */
  method BuildVersion(base: Levels, edits: seq<Edit>) returns (v: Levels)
    requires |base| == NUM_LEVELS && forall l :: 0 <= l < NUM_LEVELS ==> BySmallest(base[l])
    requires forall i :: 0 <= i < |edits| ==> GoodEdit(edits[i])
    requires forall l :: 0 <= l < NUM_LEVELS ==> NumbersMean(base[l], edits, l)
    ensures |v| == NUM_LEVELS
    ensures forall l :: 0 <= l < NUM_LEVELS ==>
              && Members(v[l]) == ApplyAll(Members(base[l]), edits, l)
              && NoneSmaller(v[l]) && (BySmallest(v[l]) <==> NotTwice(base[l], edits, l))
  {
    hide GoodTable, SmallerFile, BySmallest, NoneSmaller, NumbersMean, Holds, ApplyAll, AddsAt, InsertAll, NotTwice,
         NoTwins;
    var builder := new Builder(base);
    forall l | 0 <= l < NUM_LEVELS ensures Holds(base[l], [], {}, [], l) {
      HoldsStart(base[l], l);
    }
    for i := 0 to |edits|
      invariant builder.Valid() && builder.base == base
      invariant forall l :: 0 <= l < NUM_LEVELS ==> Holds(base[l], builder.added[l], builder.deleted[l], edits[..i], l)
    {
      forall l | 0 <= l < NUM_LEVELS
        ensures Holds(base[l], InsertAll(builder.added[l], AddsAt(edits[i].added, l)),
                      (builder.deleted[l] + DeletedAt(edits[i], l)) - Numbers(AddsAt(edits[i].added, l)),
                      edits[..i + 1], l)
      {
        assert edits[..i + 1] == edits[..i] + [edits[i]];
        MeansPrefix(base[l], edits, i + 1, l);
        HoldsStep(base[l], builder.added[l], builder.deleted[l], edits[..i], edits[i], l);
      }
      builder.Apply(edits[i]);
    }
    assert edits[..|edits|] == edits;
    v := builder.SaveTo();
    forall l | 0 <= l < NUM_LEVELS
      ensures Members(v[l]) == ApplyAll(Members(base[l]), edits, l)
      ensures NoTwins(base[l], builder.added[l], builder.deleted[l]) <==> NotTwice(base[l], edits, l)
    {
      HoldsMembers(base[l], builder.added[l], builder.deleted[l], edits, l, v[l]);
      HoldsTwins(base[l], builder.added[l], builder.deleted[l], edits, l);
    }
  }

  lemma HoldsStart(base: seq<File>, level: nat)
    ensures Holds(base, [], {}, [], level)
  {
  }

  lemma MeansPrefix(base: seq<File>, edits: seq<Edit>, n: nat, level: nat)
    requires n <= |edits| && NumbersMean(base, edits, level)
    ensures NumbersMean(base, edits[..n], level)
  {
    hide GoodTable;
    forall f: File | Known(base, edits[..n], level, f) ensures Known(base, edits, level, f) {
      if f !in base {
        var i :| 0 <= i < n && f in AddedAt(edits[..n][i], level);
        assert f in AddedAt(edits[i], level);
      }
    }
  }

  lemma HoldsMembers(base: seq<File>, added: seq<File>, deleted: set<nat>, edits: seq<Edit>, level: nat, v: seq<File>)
    requires Holds(base, added, deleted, edits, level)
    requires forall f :: f in v <==> (f in base || f in added) && f.number !in deleted
    ensures Members(v) == ApplyAll(Members(base), edits, level)
  {
  }

  lemma HoldsTwins(base: seq<File>, added: seq<File>, deleted: set<nat>, edits: seq<Edit>, level: nat)
    requires Holds(base, added, deleted, edits, level) && NumbersMean(base, edits, level)
    ensures NoTwins(base, added, deleted) <==> NotTwice(base, edits, level)
  {
    hide GoodTable, ApplyAll, AddedBy;
    forall f: File, g: File | f in base && g in added && Twins(f, g) ensures f == g {
      assert Known(base, edits, level, f) && Known(base, edits, level, g);
    }
    if f: File :| f in base && AddedBy(edits, level, f) && f in ApplyAll(Members(base), edits, level) {
      assert Twins(f, f);
    }
  }

  /** The versions of a run: each comes from the one before by one edit. */
  ghost predicate VersionRun(versions: seq<Levels>, edits: seq<Edit>) {
    && |versions| == |edits| + 1
    && (forall n :: 0 <= n < |versions| ==> |versions[n]| == NUM_LEVELS && forall l :: 0 <= l < NUM_LEVELS ==>
            BySmallest(versions[n][l]))
    && (forall n, l :: 0 <= n < |edits| && 0 <= l < NUM_LEVELS ==>
          Members(versions[n + 1][l]) == Apply1(Members(versions[n][l]), edits[n], l))
  }

  /** The snapshot written at the start of a manifest (version_set.cc:1088-1116). */
  ghost predicate IsSnapshot(e: Edit, levels: Levels) {
    e.deleted == {} && |levels| == NUM_LEVELS && forall l :: 0 <= l < NUM_LEVELS ==> AddedAt(e, l) == Members(levels[l])
  }

  /** Replaying a manifest from nothing, snapshot first, rebuilds the live version, file for file. */
  lemma ManifestReplay(versions: seq<Levels>, edits: seq<Edit>, snapshot: Edit, rebuilt: Levels, n: nat)
    requires VersionRun(versions, edits) && IsSnapshot(snapshot, versions[0]) && n < |versions|
    requires |rebuilt| == NUM_LEVELS
    requires forall l :: 0 <= l < NUM_LEVELS ==>
               BySmallest(rebuilt[l]) && Members(rebuilt[l]) == ApplyAll({}, [snapshot] + edits[..n], l)
    ensures rebuilt == versions[n]
  {
    hide GoodTable, BySmallest, AddsAt, ApplyAll, Apply1;
    forall l | 0 <= l < NUM_LEVELS ensures rebuilt[l] == versions[n][l] {
      ReplayMembers(versions, edits, snapshot, n, l);
      forall f ensures f in rebuilt[l] <==> f in versions[n][l] {
        assert f in Members(rebuilt[l]) <==> f in Members(versions[n][l]);
      }
      SameFilesSameOrder(rebuilt[l], versions[n][l]);
    }
  }

  lemma FirstEdit(e: Edit, l: nat)
    ensures ApplyAll({}, [e], l) == AddedAt(e, l)
  {
  }

  lemma {:induction false} ReplayMembers(versions: seq<Levels>, edits: seq<Edit>, snapshot: Edit, n: nat, l: nat)
    requires VersionRun(versions, edits) && IsSnapshot(snapshot, versions[0]) && n < |versions| && l < NUM_LEVELS
    ensures ApplyAll({}, [snapshot] + edits[..n], l) == Members(versions[n][l])
  {
    hide GoodTable, BySmallest, AddsAt, ApplyAll, Apply1, AddedAt, Members;
    if n == 0 {
      FirstEdit(snapshot, l);
      assert [snapshot] + edits[..0] == [snapshot];
    } else {
      ReplayMembers(versions, edits, snapshot, n - 1, l);
      assert [snapshot] + edits[..n] == ([snapshot] + edits[..n - 1]) + [edits[n - 1]];
      ApplyAllStep({}, [snapshot] + edits[..n - 1], edits[n - 1], l);
    }
  }
}
