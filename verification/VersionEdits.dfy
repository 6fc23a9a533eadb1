/** version_edit.cc: the tagged encoding of manifest records. */
module VersionEdits {
  import opened Keys
  import opened Coding
  import opened Logs
  import Versions

  datatype FileMetaData = FileMetaData(number: nat, fileSize: nat, smallest: Bytes, largest: Bytes)

  /** A field that is not set is None. */
  datatype Edit = Edit(comparator: Option<Bytes>, logNumber: Option<nat>, prevLogNumber: Option<nat>,
                       nextFileNumber: Option<nat>, lastSequence: Option<nat>, compactPointers: seq<(nat, Bytes)>,
                       deletedFiles: seq<(nat, nat)>, newFiles: seq<(nat, FileMetaData)>)

  const EMPTY: Edit := Edit(None, None, None, None, None, [], [], [])

  /** One tagged item of the encoding. */
  datatype Field =
    | Comparator(name: Bytes)
    | LogNumber(n: nat)
    | PrevLogNumber(n: nat)
    | NextFileNumber(n: nat)
    | LastSequence(n: nat)
    | CompactPointer(level: nat, key: Bytes)
    | DeletedFile(level: nat, number: nat)
    | NewFile(level: nat, f: FileMetaData)

  function EncodeField(x: Field): (r: Bytes)
    ensures r != []
  {
    match x
    case Comparator(name) => Varint(1) + LengthPrefixed(name)
    case LogNumber(n) => Varint(2) + Varint(n)
    case PrevLogNumber(n) => Varint(9) + Varint(n)
    case NextFileNumber(n) => Varint(3) + Varint(n)
    case LastSequence(n) => Varint(4) + Varint(n)
    case CompactPointer(level, key) => Varint(5) + Varint(level) + LengthPrefixed(key)
    case DeletedFile(level, number) => Varint(6) + Varint(level) + Varint(number)
    case NewFile(level, f) =>
      Varint(7) + Varint(level) + Varint(f.number) + Varint(f.fileSize) + LengthPrefixed(f.smallest)
          + LengthPrefixed(f.largest)
  }

  function EncodeFields(xs: seq<Field>): Bytes {
    if xs == [] then [] else EncodeField(xs[0]) + EncodeFields(xs[1..])
  }

  /** What fits the integer and length types of the encoding. */
  predicate FieldOk(x: Field) {
    match x
    case Comparator(name) => |name| < TWO32
    case LogNumber(n) => n < TWO64
    case PrevLogNumber(n) => n < TWO64
    case NextFileNumber(n) => n < TWO64
    case LastSequence(n) => n < TWO64
    case CompactPointer(level, key) => level < Versions.NUM_LEVELS && |key| < TWO32
    case DeletedFile(level, number) => level < Versions.NUM_LEVELS && number < TWO64
    case NewFile(level, f) =>
      level < Versions.NUM_LEVELS && f.number < TWO64 && f.fileSize < TWO64 && |f.smallest| < TWO32
          && |f.largest| < TWO32
  }

  // ----- Decoding one field

  function GetLevel(input: Bytes): Option<(nat, Bytes)> {
    var v := GetVarint32(input);
    if v.Some? && v.value.0 < Versions.NUM_LEVELS then v else None
  }

  /** The case of one tag; None stands for an error message. */
  function DecodeTagged(tag: nat, input: Bytes): (r: Option<(Field, Bytes)>)
    ensures r.Some? ==> |r.value.1| < |input|
  {
    if tag == 1 then
      var s := GetLengthPrefixed(input);
      if s.None? then None else Some((Comparator(s.value.0), s.value.1))
    else if tag == 2 || tag == 9 || tag == 3 || tag == 4 then
      var n := GetVarint64(input);
      if n.None? then None
      else Some((if tag == 2 then LogNumber(n.value.0) else if tag == 9 then PrevLogNumber(n.value.0)
                 else if tag == 3 then NextFileNumber(n.value.0) else LastSequence(n.value.0), n.value.1))
    else if tag == 5 then
      var level := GetLevel(input);
      if level.None? then None else
        var key := GetLengthPrefixed(level.value.1);
        if key.None? then None else Some((CompactPointer(level.value.0, key.value.0), key.value.1))
    else if tag == 6 then
      var level := GetLevel(input);
      if level.None? then None else
        var number := GetVarint64(level.value.1);
        if number.None? then None else Some((DeletedFile(level.value.0, number.value.0), number.value.1))
    else if tag == 7 then DecodeNewFile(input)
    else None
  }

  function DecodeNewFile(input: Bytes): (r: Option<(Field, Bytes)>)
    ensures r.Some? ==> |r.value.1| < |input|
  {
    var level := GetLevel(input);
    if level.None? then None else
      var number := GetVarint64(level.value.1);
      if number.None? then None else
        var size := GetVarint64(number.value.1);
        if size.None? then None else
          var smallest := GetLengthPrefixed(size.value.1);
          if smallest.None? then None else
            var largest := GetLengthPrefixed(smallest.value.1);
            if largest.None? then None
            else Some((NewFile(level.value.0, FileMetaData(number.value.0, size.value.0, smallest.value.0,
                                                           largest.value.0)), largest.value.1))
  }

  lemma GetLevelRoundTrip(level: nat, rest: Bytes)
    requires level < Versions.NUM_LEVELS
    ensures GetLevel(Varint(level) + rest) == Some((level, rest))
  {
    hide Varint, GetVarint32;
    Varint32RoundTrip(level, rest);
  }

  lemma NewFileRoundTrip(level: nat, f: FileMetaData, rest: Bytes)
    requires FieldOk(NewFile(level, f))
    ensures DecodeNewFile(Varint(level) + Varint(f.number) + Varint(f.fileSize) + LengthPrefixed(f.smallest)
                          + LengthPrefixed(f.largest) + rest) == Some((NewFile(level, f), rest))
  {
    hide Varint, GetVarint64, LengthPrefixed, GetLengthPrefixed, GetLevel;
    var largest := LengthPrefixed(f.largest) + rest;
    var smallest := LengthPrefixed(f.smallest) + largest;
    var size := Varint(f.fileSize) + smallest;
    var number := Varint(f.number) + size;
    assert Varint(level) + Varint(f.number) + Varint(f.fileSize) + LengthPrefixed(f.smallest)
             + LengthPrefixed(f.largest) + rest
        == Varint(level) + number;
    GetLevelRoundTrip(level, number);
    Varint64RoundTrip(f.number, size);
    Varint64RoundTrip(f.fileSize, smallest);
    LengthPrefixedRoundTrip(f.smallest, largest);
    LengthPrefixedRoundTrip(f.largest, rest);
  }

  function Tag(x: Field): nat {
    match x
    case Comparator(_) => 1
    case LogNumber(_) => 2
    case PrevLogNumber(_) => 9
    case NextFileNumber(_) => 3
    case LastSequence(_) => 4
    case CompactPointer(_, _) => 5
    case DeletedFile(_, _) => 6
    case NewFile(_, _) => 7
  }

  function Payload(x: Field): Bytes {
    match x
    case Comparator(name) => LengthPrefixed(name)
    case LogNumber(n) => Varint(n)
    case PrevLogNumber(n) => Varint(n)
    case NextFileNumber(n) => Varint(n)
    case LastSequence(n) => Varint(n)
    case CompactPointer(level, key) => Varint(level) + LengthPrefixed(key)
    case DeletedFile(level, number) => Varint(level) + Varint(number)
    case NewFile(level, f) =>
      Varint(level) + Varint(f.number) + Varint(f.fileSize) + LengthPrefixed(f.smallest) + LengthPrefixed(f.largest)
  }

  lemma FieldParts(x: Field)
    ensures EncodeField(x) == Varint(Tag(x)) + Payload(x)
  {
    hide Varint, LengthPrefixed;
  }

  lemma PayloadRoundTrip(x: Field, rest: Bytes)
    requires FieldOk(x)
    ensures DecodeTagged(Tag(x), Payload(x) + rest) == Some((x, rest))
  {
    hide Varint, GetVarint64, LengthPrefixed, GetLengthPrefixed, GetLevel, DecodeNewFile;
    match x {
      case Comparator(name) => LengthPrefixedRoundTrip(name, rest);
      case LogNumber(n) => Varint64RoundTrip(n, rest);
      case PrevLogNumber(n) => Varint64RoundTrip(n, rest);
      case NextFileNumber(n) => Varint64RoundTrip(n, rest);
      case LastSequence(n) => Varint64RoundTrip(n, rest);
      case CompactPointer(level, key) =>
        assert Payload(x) + rest == Varint(level) + (LengthPrefixed(key) + rest);
        GetLevelRoundTrip(level, LengthPrefixed(key) + rest);
        LengthPrefixedRoundTrip(key, rest);
      case DeletedFile(level, number) =>
        assert Payload(x) + rest == Varint(level) + (Varint(number) + rest);
        GetLevelRoundTrip(level, Varint(number) + rest);
        Varint64RoundTrip(number, rest);
      case NewFile(level, f) => NewFileRoundTrip(level, f, rest);
    }
  }

  // ----- The fields of an edit

  /** The fields that an edit may have at most once. */
  function Scalar(e: Edit, k: nat): seq<Field> {
    match k
    case 0 => if e.comparator.Some? then [Comparator(e.comparator.value)] else []
    case 1 => if e.logNumber.Some? then [LogNumber(e.logNumber.value)] else []
    case 2 => if e.prevLogNumber.Some? then [PrevLogNumber(e.prevLogNumber.value)] else []
    case 3 => if e.nextFileNumber.Some? then [NextFileNumber(e.nextFileNumber.value)] else []
    case _ => if e.lastSequence.Some? then [LastSequence(e.lastSequence.value)] else []
  }

  function Scalars(e: Edit): seq<Field> {
    Scalar(e, 0) + Scalar(e, 1) + Scalar(e, 2) + Scalar(e, 3) + Scalar(e, 4)
  }

  function Pointers(ps: seq<(nat, Bytes)>): seq<Field> {
    seq(|ps|, i requires 0 <= i < |ps| => CompactPointer(ps[i].0, ps[i].1))
  }

  function Deletions(ds: seq<(nat, nat)>): seq<Field> {
    seq(|ds|, i requires 0 <= i < |ds| => DeletedFile(ds[i].0, ds[i].1))
  }

  function Additions(fs: seq<(nat, FileMetaData)>): seq<Field> {
    seq(|fs|, i requires 0 <= i < |fs| => NewFile(fs[i].0, fs[i].1))
  }

  function Fields(e: Edit): seq<Field> {
    Scalars(e) + Pointers(e.compactPointers) + Deletions(e.deletedFiles) + Additions(e.newFiles)
  }

  lemma PointersAt(ps: seq<(nat, Bytes)>)
    ensures |Pointers(ps)| == |ps|
    ensures forall i :: 0 <= i < |ps| ==> Pointers(ps)[i] == CompactPointer(ps[i].0, ps[i].1)
  {
  }

  lemma DeletionsAt(ds: seq<(nat, nat)>)
    ensures |Deletions(ds)| == |ds|
    ensures forall i :: 0 <= i < |ds| ==> Deletions(ds)[i] == DeletedFile(ds[i].0, ds[i].1)
  {
  }

  lemma AdditionsAt(fs: seq<(nat, FileMetaData)>)
    ensures |Additions(fs)| == |fs|
    ensures forall i :: 0 <= i < |fs| ==> Additions(fs)[i] == NewFile(fs[i].0, fs[i].1)
  {
  }

  predicate Less(a: (nat, nat), b: (nat, nat)) {
    a.0 < b.0 || (a.0 == b.0 && a.1 < b.1)
  }

  /** std::set's insert. */
  function InsertFile(ds: seq<(nat, nat)>, d: (nat, nat)): seq<(nat, nat)> {
    if ds == [] || Less(d, ds[0]) then [d] + ds
    else if d == ds[0] then ds
    else [ds[0]] + InsertFile(ds[1..], d)
  }

  /** What DecodeFrom does with a field. */
  function ApplyField(e: Edit, x: Field): Edit {
    match x
    case Comparator(name) => e.(comparator := Some(name))
    case LogNumber(n) => e.(logNumber := Some(n))
    case PrevLogNumber(n) => e.(prevLogNumber := Some(n))
    case NextFileNumber(n) => e.(nextFileNumber := Some(n))
    case LastSequence(n) => e.(lastSequence := Some(n))
    case CompactPointer(level, key) => e.(compactPointers := e.compactPointers + [(level, key)])
    case DeletedFile(level, number) => e.(deletedFiles := InsertFile(e.deletedFiles, (level, number)))
    case NewFile(level, f) => e.(newFiles := e.newFiles + [(level, f)])
  }

  function ApplyFields(e: Edit, xs: seq<Field>): Edit
    decreases |xs|
  {
    if xs == [] then e else ApplyFields(ApplyField(e, xs[0]), xs[1..])
  }

  lemma {:induction false} ApplySplit(e: Edit, xs: seq<Field>, ys: seq<Field>)
    ensures ApplyFields(e, xs + ys) == ApplyFields(ApplyFields(e, xs), ys)
    decreases |xs|
  {
    hide ApplyField;
    if xs == [] {
      assert xs + ys == ys;
    } else {
      ApplySplit(ApplyField(e, xs[0]), xs[1..], ys);
      assert (xs + ys)[1..] == xs[1..] + ys;
    }
  }

  ghost predicate Ascending(ds: seq<(nat, nat)>) {
    forall i, j :: 0 <= i < j < |ds| ==> Less(ds[i], ds[j])
  }

  lemma {:induction false} InsertLast(ds: seq<(nat, nat)>, d: (nat, nat))
    requires Ascending(ds + [d])
    ensures InsertFile(ds, d) == ds + [d]
  {
    if ds != [] {
      assert (ds + [d])[0] == ds[0] && (ds + [d])[|ds|] == d;
      assert (ds + [d])[1..] == ds[1..] + [d];
      InsertLast(ds[1..], d);
    }
  }

  lemma {:induction false} ApplyPointers(e: Edit, ps: seq<(nat, Bytes)>)
    ensures ApplyFields(e, Pointers(ps)) == e.(compactPointers := e.compactPointers + ps)
    decreases |ps|
  {
    if ps == [] {
      assert e.compactPointers + ps == e.compactPointers;
    } else {
      assert Pointers(ps)[1..] == Pointers(ps[1..]);
      ApplyPointers(ApplyField(e, CompactPointer(ps[0].0, ps[0].1)), ps[1..]);
      assert e.compactPointers + [ps[0]] + ps[1..] == e.compactPointers + ps;
    }
  }

  lemma {:induction false} ApplyDeletions(e: Edit, ds: seq<(nat, nat)>)
    requires Ascending(e.deletedFiles + ds)
    ensures ApplyFields(e, Deletions(ds)) == e.(deletedFiles := e.deletedFiles + ds)
    decreases |ds|
  {
    if ds == [] {
      assert e.deletedFiles + ds == e.deletedFiles;
    } else {
      assert Deletions(ds)[1..] == Deletions(ds[1..]);
      assert e.deletedFiles + [ds[0]] + ds[1..] == e.deletedFiles + ds;
      assert e.deletedFiles + [ds[0]] == (e.deletedFiles + ds)[..|e.deletedFiles| + 1];
      InsertLast(e.deletedFiles, ds[0]);
      ApplyDeletions(ApplyField(e, DeletedFile(ds[0].0, ds[0].1)), ds[1..]);
    }
  }

  lemma {:induction false} ApplyAdditions(e: Edit, fs: seq<(nat, FileMetaData)>)
    ensures ApplyFields(e, Additions(fs)) == e.(newFiles := e.newFiles + fs)
    decreases |fs|
  {
    if fs == [] {
      assert e.newFiles + fs == e.newFiles;
    } else {
      assert Additions(fs)[1..] == Additions(fs[1..]);
      ApplyAdditions(ApplyField(e, NewFile(fs[0].0, fs[0].1)), fs[1..]);
      assert e.newFiles + [fs[0]] + fs[1..] == e.newFiles + fs;
    }
  }

  lemma ApplyScalars(start: Edit, e: Edit)
    requires start == EMPTY.(compactPointers := start.compactPointers)
    ensures ApplyFields(start, Scalars(e))
         == e.(compactPointers := start.compactPointers, deletedFiles := [], newFiles := [])
  {
    var a, b, c, d, f := Scalar(e, 0), Scalar(e, 1), Scalar(e, 2), Scalar(e, 3), Scalar(e, 4);
    ApplySplit(start, a + b + c + d, f);
    ApplySplit(start, a + b + c, d);
    ApplySplit(start, a + b, c);
    ApplySplit(start, a, b);
    ApplyScalar(start, e, 0);
    var s1 := ApplyFields(start, a);
    ApplyScalar(s1, e, 1);
    var s2 := ApplyFields(s1, b);
    ApplyScalar(s2, e, 2);
    var s3 := ApplyFields(s2, c);
    ApplyScalar(s3, e, 3);
    var s4 := ApplyFields(s3, d);
    ApplyScalar(s4, e, 4);
  }

  lemma ApplyScalar(start: Edit, e: Edit, k: nat)
    ensures ApplyFields(start, Scalar(e, k)) == if Scalar(e, k) == [] then start else ApplyField(start, Scalar(e, k)[0])
  {
  }

  /** Clear leaves the compaction pointers alone, so what is decoded into an edit that had some comes behind them. */
  lemma FieldsRoundTrip(start: Edit, e: Edit)
    requires start == EMPTY.(compactPointers := start.compactPointers) && Ascending(e.deletedFiles)
    ensures ApplyFields(start, Fields(e)) == e.(compactPointers := start.compactPointers + e.compactPointers)
  {
    hide ApplyFields, Scalars, Pointers, Deletions, Additions, Ascending;
    var s, p, d, a := Scalars(e), Pointers(e.compactPointers), Deletions(e.deletedFiles), Additions(e.newFiles);
    ApplySplit(start, s + p + d, a);
    ApplySplit(start, s + p, d);
    ApplySplit(start, s, p);
    ApplyScalars(start, e);
    var e1 := ApplyFields(start, s);
    ApplyPointers(e1, e.compactPointers);
    var e2 := ApplyFields(e1, p);
    assert e2.deletedFiles + e.deletedFiles == e.deletedFiles;
    ApplyDeletions(e2, e.deletedFiles);
    var e3 := ApplyFields(e2, d);
    assert e3.newFiles + e.newFiles == e.newFiles;
    ApplyAdditions(e3, e.newFiles);
  }

  // ----- Encoding and decoding

  function Encode(e: Edit): Bytes {
    EncodeFields(Fields(e))
  }

  /** The loop of DecodeFrom: the edit as far as it got, and whether there was no error. */
  function DecodeInto(e: Edit, input: Bytes): (Edit, bool)
    decreases |input|
  {
    var tag := GetVarint32(input);
    if tag.None? then (e, input == [])
    else
      var x := DecodeTagged(tag.value.0, tag.value.1);
      if x.None? then (e, false) else DecodeInto(ApplyField(e, x.value.0), x.value.1)
  }

  function Cleared(e: Edit): Edit {
    EMPTY.(compactPointers := e.compactPointers)
  }

  predicate EditOk(e: Edit) {
    forall x <- Fields(e) :: FieldOk(x)
  }

  /** Encoded fields are decoded, whatever follows them... */
  lemma {:induction false} DecodeBehind(e: Edit, xs: seq<Field>, rest: Bytes)
    requires forall x <- xs :: FieldOk(x)
    ensures DecodeInto(e, EncodeFields(xs) + rest) == DecodeInto(ApplyFields(e, xs), rest)
    decreases |xs|
  {
    hide Varint, GetVarint32, Payload, EncodeField, FieldOk, DecodeTagged, ApplyField;
    if xs == [] {
      assert EncodeFields(xs) + rest == rest;
    } else {
      var x, behind := xs[0], EncodeFields(xs[1..]) + rest;
      FieldParts(x);
      TagBound(x);
      assert EncodeFields(xs) + rest == Varint(Tag(x)) + (Payload(x) + behind);
      Varint32RoundTrip(Tag(x), Payload(x) + behind);
      PayloadRoundTrip(x, behind);
      DecodeBehind(ApplyField(e, x), xs[1..], rest);
    }
  }

  lemma GetLevelCut(level: nat, cut: nat)
    requires cut < |Varint(level)|
    ensures GetLevel(Varint(level)[..cut]) == None
  {
    hide Varint, GetVarint32, GetVarint64;
    Varint64Cut(level, cut);
  }

  lemma CutSum(a: Bytes, b: Bytes, cut: nat)
    requires cut <= |a| + |b|
    ensures (a + b)[..cut] == if cut <= |a| then a[..cut] else a + b[..cut - |a|]
  {
  }

  lemma LevelCut(level: nat, behind: Bytes, cut: nat)
    requires level < Versions.NUM_LEVELS && cut < |Varint(level) + behind|
    ensures var s := (Varint(level) + behind)[..cut];
            if cut < |Varint(level)| then GetLevel(s) == None
            else GetLevel(s) == Some((level, behind[..cut - |Varint(level)|]))
  {
    hide Varint, GetLevel;
    CutSum(Varint(level), behind, cut);
    if cut < |Varint(level)| {
      GetLevelCut(level, cut);
    } else {
      assert (Varint(level) + behind)[..cut] == Varint(level) + behind[..cut - |Varint(level)|];
      GetLevelRoundTrip(level, behind[..cut - |Varint(level)|]);
    }
  }

  lemma NumberCut(n: nat, behind: Bytes, cut: nat)
    requires n < TWO64 && cut < |Varint(n) + behind|
    ensures var s := (Varint(n) + behind)[..cut];
            if cut < |Varint(n)| then GetVarint64(s) == None
            else GetVarint64(s) == Some((n, behind[..cut - |Varint(n)|]))
  {
    hide Varint, GetVarint32, GetVarint64;
    CutSum(Varint(n), behind, cut);
    if cut < |Varint(n)| {
      Varint64Cut(n, cut);
    } else {
      assert (Varint(n) + behind)[..cut] == Varint(n) + behind[..cut - |Varint(n)|];
      Varint64RoundTrip(n, behind[..cut - |Varint(n)|]);
    }
  }

  lemma StringCut(s: Bytes, behind: Bytes, cut: nat)
    requires |s| < TWO32 && cut < |LengthPrefixed(s) + behind|
    ensures var t := (LengthPrefixed(s) + behind)[..cut];
            if cut < |LengthPrefixed(s)| then GetLengthPrefixed(t) == None
            else GetLengthPrefixed(t) == Some((s, behind[..cut - |LengthPrefixed(s)|]))
  {
    hide LengthPrefixed, GetLengthPrefixed;
    CutSum(LengthPrefixed(s), behind, cut);
    if cut < |LengthPrefixed(s)| {
      LengthPrefixedCut(s, cut);
    } else {
      assert (LengthPrefixed(s) + behind)[..cut] == LengthPrefixed(s) + behind[..cut - |LengthPrefixed(s)|];
      LengthPrefixedRoundTrip(s, behind[..cut - |LengthPrefixed(s)|]);
    }
  }

  lemma NewFileCut(level: nat, f: FileMetaData, cut: nat)
    requires FieldOk(NewFile(level, f)) && cut < |Payload(NewFile(level, f))|
    ensures DecodeNewFile(Payload(NewFile(level, f))[..cut]) == None
  {
    hide Varint, GetVarint64, LengthPrefixed, GetLengthPrefixed, GetLevel;
    var largest := LengthPrefixed(f.largest);
    var smallest := LengthPrefixed(f.smallest) + largest;
    var size := Varint(f.fileSize) + smallest;
    var number := Varint(f.number) + size;
    var payload := Payload(NewFile(level, f));
    assert payload == Varint(level) + number && largest + [] == largest;
    LevelCut(level, number, cut);
    var c := cut - |Varint(level)|;
    if c >= 0 {
      NumberCut(f.number, size, c);
      c := c - |Varint(f.number)|;
      if c >= 0 {
        NumberCut(f.fileSize, smallest, c);
        c := c - |Varint(f.fileSize)|;
        if c >= 0 {
          StringCut(f.smallest, largest, c);
          c := c - |LengthPrefixed(f.smallest)|;
          if c >= 0 {
            StringCut(f.largest, [], c);
          }
        }
      }
    }
  }

  lemma PayloadCut(x: Field, cut: nat)
    requires FieldOk(x) && cut < |Payload(x)|
    ensures DecodeTagged(Tag(x), Payload(x)[..cut]) == None
  {
    hide Varint, GetVarint64, LengthPrefixed, GetLengthPrefixed, GetLevel, DecodeNewFile;
    match x {
      case Comparator(name) => LengthPrefixedCut(name, cut);
      case LogNumber(n) => ScalarCut(n, cut);
      case PrevLogNumber(n) => ScalarCut(n, cut);
      case NextFileNumber(n) => ScalarCut(n, cut);
      case LastSequence(n) => ScalarCut(n, cut);
      case CompactPointer(level, key) =>
        LevelCut(level, LengthPrefixed(key), cut);
        if cut >= |Varint(level)| {
          LengthPrefixedCut(key, cut - |Varint(level)|);
        }
      case DeletedFile(level, number) =>
        LevelCut(level, Varint(number), cut);
        if cut >= |Varint(level)| {
          ScalarCut(number, cut - |Varint(level)|);
        }
      case NewFile(level, f) => NewFileCut(level, f, cut);
    }
  }

  lemma ScalarCut(n: nat, cut: nat)
    requires cut < |Varint(n)|
    ensures GetVarint64(Varint(n)[..cut]) == None
  {
    hide Varint, GetVarint32, GetVarint64;
    Varint64Cut(n, cut);
  }

  /** An edit that is cut off within a field is an error, wherever the cut is. */
  lemma CutEdit(e: Edit, xs: seq<Field>, x: Field, cut: nat)
    requires (forall y <- xs :: FieldOk(y)) && FieldOk(x) && 0 < cut < |EncodeField(x)|
    ensures DecodeInto(e, EncodeFields(xs) + EncodeField(x)[..cut]) == (ApplyFields(e, xs), false)
  {
    hide GetVarint32, EncodeFields, ApplyFields, FieldOk, Payload, EncodeField, DecodeTagged;
    FieldParts(x);
    TagIsByte(x);
    var payload := Payload(x)[..cut - 1];
    assert EncodeField(x)[..cut] == Varint(Tag(x)) + payload;
    DecodeBehind(e, xs, EncodeField(x)[..cut]);
    Varint32RoundTrip(Tag(x), payload);
    PayloadCut(x, cut - 1);
  }

  lemma TagIsByte(x: Field)
    ensures Varint(Tag(x)) == [Tag(x)] && Tag(x) < TWO32
  {
  }

  lemma DecodeFields(e: Edit, xs: seq<Field>)
    requires forall x <- xs :: FieldOk(x)
    ensures DecodeInto(e, EncodeFields(xs)) == (ApplyFields(e, xs), true)
  {
    hide EncodeFields, ApplyFields;
    DecodeBehind(e, xs, []);
    assert EncodeFields(xs) + [] == EncodeFields(xs);
    NoVarint();
  }

  /** ...and an unknown tag or a level that does not exist is an error wherever it comes. */
  lemma BadTagOrLevel(e: Edit, xs: seq<Field>, tag: nat, level: nat, rest: Bytes)
    requires (forall x <- xs :: FieldOk(x)) && tag < TWO32 && level < TWO32
    ensures tag == 0 || tag == 8 || tag > 9 ==>
              DecodeInto(e, EncodeFields(xs) + Varint(tag) + rest) == (ApplyFields(e, xs), false)
    ensures 5 <= tag <= 7 && level >= 7 ==>
              DecodeInto(e, EncodeFields(xs) + Varint(tag) + Varint(level) + rest) == (ApplyFields(e, xs), false)
  {
    hide Varint, GetVarint32, EncodeFields, ApplyFields;
    var front := EncodeFields(xs);
    DecodeBehind(e, xs, Varint(tag) + rest);
    assert front + Varint(tag) + rest == front + (Varint(tag) + rest);
    Varint32RoundTrip(tag, rest);
    DecodeBehind(e, xs, Varint(tag) + (Varint(level) + rest));
    assert front + Varint(tag) + Varint(level) + rest == front + (Varint(tag) + (Varint(level) + rest));
    Varint32RoundTrip(tag, Varint(level) + rest);
    Varint32RoundTrip(level, rest);
  }

  lemma NoVarint()
    ensures GetVarint32([]).None?
  {
  }

  lemma TagBound(x: Field)
    ensures Tag(x) < TWO32
  {
  }

  /** Decoding what an edit encoded gives the edit back, behind the compaction pointers that were there before... */
  lemma DecodeEncode(start: Edit, e: Edit)
    requires EditOk(e) && Ascending(e.deletedFiles)
    ensures DecodeInto(Cleared(start), Encode(e)) == (e.(compactPointers := start.compactPointers + e.compactPointers),
                                                      true)
  {
    hide Fields, EncodeFields, FieldOk, Ascending;
    DecodeFields(Cleared(start), Fields(e));
    FieldsRoundTrip(Cleared(start), e);
  }

  /** ...so it gives exactly the edit if and only if there were none. */
  lemma RoundTrip(start: Edit, e: Edit)
    requires EditOk(e) && Ascending(e.deletedFiles)
    ensures DecodeInto(Cleared(start), Encode(e)) == (e, true) <==> start.compactPointers == []
  {
    hide EditOk, Ascending, Encode, DecodeInto;
    DecodeEncode(start, e);
    var both := start.compactPointers + e.compactPointers;
    assert |both| == |start.compactPointers| + |e.compactPointers|;
    assert start.compactPointers == [] ==> both == e.compactPointers;
  }

  class VersionEdit {
    var e: Edit

    ghost predicate Valid()
      reads this
    {
      Ascending(e.deletedFiles)
    }

    constructor ()
      ensures Valid() && e == EMPTY
    {
      e := EMPTY;
    }

    method Clear()
      modifies this
      ensures Valid() && e == Cleared(old(e))
    {
      e := e.(comparator := None, logNumber := None, prevLogNumber := None, nextFileNumber := None,
              lastSequence := None, deletedFiles := [], newFiles := []);
    }

    method DeleteFile(level: nat, number: nat)
      requires Valid()
      modifies this
      ensures Valid() && e == old(e).(deletedFiles := e.deletedFiles)
      ensures forall x :: x in e.deletedFiles <==> x in old(e.deletedFiles) || x == (level, number)
    {
      InsertAscending(e.deletedFiles, (level, number));
      e := e.(deletedFiles := InsertFile(e.deletedFiles, (level, number)));
    }

    method AddFile(level: nat, f: FileMetaData)
      requires Valid()
      modifies this
      ensures Valid() && e == old(e).(newFiles := old(e.newFiles) + [(level, f)])
    {
      e := e.(newFiles := e.newFiles + [(level, f)]);
    }

    method SetCompactPointer(level: nat, key: Bytes)
      requires Valid()
      modifies this
      ensures Valid() && e == old(e).(compactPointers := old(e.compactPointers) + [(level, key)])
    {
      e := e.(compactPointers := e.compactPointers + [(level, key)]);
    }

    method EncodeTo(dst: Bytes) returns (r: Bytes)
      ensures r == dst + Encode(e)
    {
      hide EncodeField, EncodeFields, Scalars, Pointers, Deletions, Additions;
      ghost var done;
      r, done := EncodeScalars(dst);
      ghost var front := done;
      PointersAt(e.compactPointers);
      for i := 0 to |e.compactPointers|
        invariant r == dst + EncodeFields(done) && done == front + Pointers(e.compactPointers)[..i]
      {
        r, done := AppendField(dst, r, done, CompactPointer(e.compactPointers[i].0, e.compactPointers[i].1));
      }
      front := done;
      DeletionsAt(e.deletedFiles);
      for i := 0 to |e.deletedFiles|
        invariant r == dst + EncodeFields(done) && done == front + Deletions(e.deletedFiles)[..i]
      {
        r, done := AppendField(dst, r, done, DeletedFile(e.deletedFiles[i].0, e.deletedFiles[i].1));
      }
      front := done;
      AdditionsAt(e.newFiles);
      for i := 0 to |e.newFiles|
        invariant r == dst + EncodeFields(done) && done == front + Additions(e.newFiles)[..i]
      {
        r, done := AppendField(dst, r, done, NewFile(e.newFiles[i].0, e.newFiles[i].1));
      }
      assert done == Fields(e);
    }

    method EncodeScalars(dst: Bytes) returns (r: Bytes, ghost done: seq<Field>)
      ensures done == Scalars(e) && r == dst + EncodeFields(done)
    {
      hide EncodeField;
      r, done := dst, [];
      assert dst + EncodeFields(done) == dst;
      hide EncodeFields;
      ghost var all := Scalar(e, 0);
      if e.comparator.Some? {
        r, done := AppendField(dst, r, done, Comparator(e.comparator.value));
      }
      assert done == all;
      all := all + Scalar(e, 1);
      if e.logNumber.Some? {
        r, done := AppendField(dst, r, done, LogNumber(e.logNumber.value));
      }
      assert done == all;
      all := all + Scalar(e, 2);
      if e.prevLogNumber.Some? {
        r, done := AppendField(dst, r, done, PrevLogNumber(e.prevLogNumber.value));
      }
      assert done == all;
      all := all + Scalar(e, 3);
      if e.nextFileNumber.Some? {
        r, done := AppendField(dst, r, done, NextFileNumber(e.nextFileNumber.value));
      }
      assert done == all;
      all := all + Scalar(e, 4);
      if e.lastSequence.Some? {
        r, done := AppendField(dst, r, done, LastSequence(e.lastSequence.value));
      }
      assert done == all;
    }

    method DecodeFrom(src: Bytes) returns (ok: bool)
      requires Valid()
      modifies this
      ensures Valid() && (e, ok) == DecodeInto(Cleared(old(e)), src)
    {
      hide DecodeTagged, ApplyField, GetVarint32, Ascending;
      Clear();
      var input := src;
      ok := true;
      var tag := GetVarint32(input);
      while tag.Some?
        invariant Valid() && tag == GetVarint32(input)
        invariant DecodeInto(e, input) == DecodeInto(Cleared(old(e)), src)
        decreases |input|
      {
        var x := DecodeTagged(tag.value.0, tag.value.1);
        if x.None? {
          return false;
        }
        ApplyAscending(e, x.value.0);
        e := ApplyField(e, x.value.0);
        input := x.value.1;
        tag := GetVarint32(input);
      }
      ok := input == [];
    }
  }

  method AppendField(dst: Bytes, r: Bytes, ghost done: seq<Field>, x: Field)
    returns (more: Bytes, ghost all: seq<Field>)
    requires r == dst + EncodeFields(done)
    ensures all == done + [x] && more == dst + EncodeFields(all)
  {
    hide EncodeField, EncodeFields;
    more := r + EncodeField(x);
    all := done + [x];
    EncodeFieldsAppend(done, x);
    Associative(dst, EncodeFields(done), EncodeField(x));
  }

  lemma {:induction false} EncodeFieldsAppend(xs: seq<Field>, x: Field)
    ensures EncodeFields(xs + [x]) == EncodeFields(xs) + EncodeField(x)
  {
    hide EncodeField;
    if xs == [] {
      assert [x][1..] == [] && xs + [x] == [x];
      assert EncodeFields([x]) == EncodeField(x) + EncodeFields([]);
    } else {
      EncodeFieldsAppend(xs[1..], x);
      assert (xs + [x])[1..] == xs[1..] + [x];
    }
  }

  lemma {:induction false} InsertAscending(ds: seq<(nat, nat)>, d: (nat, nat))
    requires Ascending(ds)
    ensures Ascending(InsertFile(ds, d)) && forall x :: x in InsertFile(ds, d) <==> x in ds || x == d
  {
    if ds != [] && !Less(d, ds[0]) && d != ds[0] {
      InsertAscending(ds[1..], d);
      var r := InsertFile(ds[1..], d);
      forall x | x in r
        ensures Less(ds[0], x)
      {
        if x != d {
          var i :| 0 <= i < |ds[1..]| && ds[1..][i] == x;
          assert ds[i + 1] == x;
        }
      }
      assert forall x :: x in ds <==> x == ds[0] || x in ds[1..];
    }
  }

  lemma ApplyAscending(e: Edit, x: Field)
    requires Ascending(e.deletedFiles)
    ensures Ascending(ApplyField(e, x).deletedFiles)
  {
    if x.DeletedFile? {
      InsertAscending(e.deletedFiles, (x.level, x.number));
    }
  }

  // ----- The manifest

  function ManifestRecords(es: seq<Edit>): seq<Bytes> {
    seq(|es|, i requires 0 <= i < |es| => Encode(es[i]))
  }

  /** Every edit written to a manifest is read back from it, each into a fresh edit; a crash in the middle of a record
      loses only that record. */
  lemma ManifestRoundTrip(crc: Bytes -> Word, es: seq<Edit>, cut: nat) returns (whole: nat)
    requires forall e <- es :: EditOk(e) && Ascending(e.deletedFiles)
    requires cut <= |Log(crc, ManifestRecords(es))|
    ensures whole <= |es| && |Log(crc, ManifestRecords(es[..whole]))| <= cut
    ensures whole < |es| ==> cut < |Log(crc, ManifestRecords(es[..whole + 1]))|
    ensures var r := ReadAll(crc, Log(crc, ManifestRecords(es))[..cut], 0);
            && r.1 == [] && |r.0| == whole
            && forall i :: 0 <= i < whole ==> DecodeInto(EMPTY, r.0[i]) == (es[i], true)
  {
    hide Log, ReadAll, Encode, DecodeInto, EditOk, Ascending;
    var records := ManifestRecords(es);
    whole := ReadPrefix(crc, records, cut);
    assert records[..whole] == ManifestRecords(es[..whole]);
    if whole < |es| {
      assert records[..whole + 1] == ManifestRecords(es[..whole + 1]);
    }
    forall i | 0 <= i < whole
      ensures DecodeInto(EMPTY, records[i]) == (es[i], true)
    {
      assert es[i] in es;
      RoundTrip(EMPTY, es[i]);
    }
  }
}
