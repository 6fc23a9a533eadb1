/** A manifest file, from its bytes to the version it rebuilds. */
module Manifests {
  import opened Keys
  import opened Coding
  import opened Comparators
  import opened Logs
  import opened Versions
  import VersionEdits
  import VersionBuilders
  import Lsm

  /** The encoded edit names the files of the abstract one: same levels, numbers and sizes, and bounds that stand for
      the files' smallest and largest keys. */
  ghost predicate Describes(b: VersionEdits.Edit, a: VersionBuilders.Edit) {
    && (set d | d in b.deletedFiles) == a.deleted
    && |b.newFiles| == |a.added|
    && forall i :: 0 <= i < |a.added| ==> DescribesFile(b.newFiles[i], a.added[i])
  }

  ghost predicate DescribesFile(b: (nat, VersionEdits.FileMetaData), a: (nat, File)) {
    && b.0 == a.0 && b.1.number == a.1.number && b.1.fileSize == a.1.size
    && WellFormed(Internal, b.1.smallest) && Rank(Internal, b.1.smallest) == a.1.Smallest()
    && WellFormed(Internal, b.1.largest) && Rank(Internal, b.1.largest) == a.1.Largest()
  }

  /** A manifest that starts with a snapshot and was cut anywhere behind it: its records decode to the edits that were
      written, up to some version of the run, and saving those edits to an empty version rebuilds that version. */
  lemma ManifestFileReplay(crc: Bytes -> Word, versions: seq<Levels>, snapshot: VersionBuilders.Edit,
                           edits: seq<VersionBuilders.Edit>, encoded: seq<VersionEdits.Edit>, cut: nat) returns (n: nat)
    requires VersionBuilders.VersionRun(versions, edits) && VersionBuilders.IsSnapshot(snapshot, versions[0])
    requires |encoded| == |edits| + 1
    requires forall i :: 0 <= i < |encoded| ==>
               && VersionEdits.EditOk(encoded[i]) && VersionEdits.Ascending(encoded[i].deletedFiles)
               && Describes(encoded[i], ([snapshot] + edits)[i])
    requires |Log(crc, VersionEdits.ManifestRecords(encoded[..1]))| <= cut
    requires cut <= |Log(crc, VersionEdits.ManifestRecords(encoded))|
    ensures n <= |edits| && n < |versions|
    ensures n < |edits| ==> cut < |Log(crc, VersionEdits.ManifestRecords(encoded[..n + 2]))|
    ensures var r := ReadAll(crc, Log(crc, VersionEdits.ManifestRecords(encoded))[..cut], 0);
            && r.1 == [] && |r.0| == n + 1
            && forall i :: 0 <= i <= n ==>
                 && VersionEdits.DecodeInto(VersionEdits.EMPTY, r.0[i]) == (encoded[i], true)
                 && Describes(encoded[i], ([snapshot] + edits[..n])[i])
    ensures forall rebuilt: Levels ::
              |rebuilt| == NUM_LEVELS
              && (forall l :: 0 <= l < NUM_LEVELS ==>
                    && Lsm.BySmallest(rebuilt[l])
                    && VersionBuilders.Members(rebuilt[l]) == VersionBuilders.ApplyAll({}, [snapshot] + edits[..n], l))
              ==> rebuilt == versions[n]
  {
    hide Log, ReadAll, Describes, VersionEdits.DecodeInto, VersionEdits.EditOk, VersionEdits.Ascending,
         Lsm.BySmallest, VersionBuilders.ApplyAll;
    var whole := VersionEdits.ManifestRoundTrip(crc, encoded, cut);
    n := whole - 1;
    forall i | 0 <= i <= n
      ensures ([snapshot] + edits[..n])[i] == ([snapshot] + edits)[i]
    {
    }
    forall rebuilt: Levels |
      |rebuilt| == NUM_LEVELS
      && (forall l :: 0 <= l < NUM_LEVELS ==>
            && Lsm.BySmallest(rebuilt[l])
            && VersionBuilders.Members(rebuilt[l]) == VersionBuilders.ApplyAll({}, [snapshot] + edits[..n], l))
      ensures rebuilt == versions[n]
    {
      VersionBuilders.ManifestReplay(versions, edits, snapshot, rebuilt, n);
    }
  }

  // ----- The counters

  datatype Counters = Counters(logNumber: Option<nat>, prevLogNumber: Option<nat>, nextFile: Option<nat>,
                               lastSequence: Option<nat>)

  const NO_COUNTERS: Counters := Counters(None, None, None, None)

  function Later(a: Option<nat>, b: Option<nat>): Option<nat> {
    if b.Some? then b else a
  }

  /** What an edit sets replaces what the edits before it set. */
  function Fold(c: Counters, e: VersionEdits.Edit): Counters {
    Counters(Later(c.logNumber, e.logNumber), Later(c.prevLogNumber, e.prevLogNumber),
             Later(c.nextFile, e.nextFileNumber), Later(c.lastSequence, e.lastSequence))
  }

  /** The counters and edits of the records from position p on, added to those before; None for a corrupted record, one
      that does not decode, or one of another comparator. */
  function ReadEdits(crc: Bytes -> Word, file: Bytes, p: nat, name: Bytes, c: Counters, es: seq<VersionEdits.Edit>)
    : Option<(Counters, seq<VersionEdits.Edit>)>
    requires p <= |file|
    decreases |file| - p
  {
    var r := ReadFrom(crc, file, p, None, []);
    if r.drops != [] then None
    else if r.record.None? then Some((c, es))
    else
      var d := VersionEdits.DecodeInto(VersionEdits.EMPTY, r.record.value);
      if !d.1 || (d.0.comparator.Some? && d.0.comparator.value != name) then None
      else ReadEdits(crc, file, r.next, name, Fold(c, d.0), es + [d.0])
  }

  /** A record decodes to an edit that does not name another comparator. */
  predicate GoodRecord(record: Bytes, name: Bytes) {
    var d := VersionEdits.DecodeInto(VersionEdits.EMPTY, record);
    d.1 && (d.0.comparator == None || d.0.comparator == Some(name))
  }

  function Decoded(records: seq<Bytes>): (es: seq<VersionEdits.Edit>)
    ensures |es| == |records|
  {
    seq(|records|, i requires 0 <= i < |records| => VersionEdits.DecodeInto(VersionEdits.EMPTY, records[i]).0)
  }

  /** The file is a manifest: no bytes are dropped from it, and all of its records are good. */
  ghost predicate Readable(crc: Bytes -> Word, file: Bytes, name: Bytes) {
    var r := ReadAll(crc, file, 0);
    r.1 == [] && forall i :: 0 <= i < |r.0| ==> GoodRecord(r.0[i], name)
  }

  /** The last value that is set. */
  function LastSet(values: seq<Option<nat>>): (r: Option<nat>)
    ensures r.None? <==> forall i :: 0 <= i < |values| ==> values[i].None?
    ensures r.Some? ==>
              exists i :: 0 <= i < |values| && values[i] == r && forall j :: i < j < |values| ==> values[j].None?
  {
    if values == [] then None
    else if values[|values| - 1].Some? then values[|values| - 1]
    else LastSet(values[..|values| - 1])
  }

  function LogNumbers(es: seq<VersionEdits.Edit>): seq<Option<nat>> {
    seq(|es|, i requires 0 <= i < |es| => es[i].logNumber)
  }

  function PrevLogNumbers(es: seq<VersionEdits.Edit>): seq<Option<nat>> {
    seq(|es|, i requires 0 <= i < |es| => es[i].prevLogNumber)
  }

  function NextFiles(es: seq<VersionEdits.Edit>): seq<Option<nat>> {
    seq(|es|, i requires 0 <= i < |es| => es[i].nextFileNumber)
  }

  function LastSequences(es: seq<VersionEdits.Edit>): seq<Option<nat>> {
    seq(|es|, i requires 0 <= i < |es| => es[i].lastSequence)
  }

  /** VersionSet::Recover, up to applying the edits: the log number, the previous one, the next file number and the last
      sequence number, each as it was set last, and the edits; None for an error. */
  method Recover(crc: Bytes -> Word, file: Bytes, name: Bytes)
    returns (counters: Option<(nat, nat, nat, nat)>, es: seq<VersionEdits.Edit>)
    ensures var all := Decoded(ReadAll(crc, file, 0).0);
            var log, prev := LastSet(LogNumbers(all)), LastSet(PrevLogNumbers(all));
            var next, last := LastSet(NextFiles(all)), LastSet(LastSequences(all));
            if Readable(crc, file, name) && next.Some? && log.Some? && last.Some? then
              && es == all
              && counters == Some((log.value, if prev.Some? then prev.value else 0, next.value, last.value))
            else counters == None
  {
    hide ReadFrom, VersionEdits.DecodeInto, ReadEdits, Readable, Decoded, FoldAll, LastSet;
    ReadEditsMeans(crc, file, name);
    var c := NO_COUNTERS;
    es := [];
    var reader := new Reader(crc, file);
    while true
      invariant fresh(reader) && reader.Valid() && reader.crc == crc && reader.file == file && reader.drops == []
      invariant ReadEdits(crc, file, 0, name, NO_COUNTERS, []) == ReadEdits(crc, file, reader.Position(), name, c, es)
      decreases |file| - reader.Position()
    {
      ghost var p := reader.Position();
      ReadEditsStep(crc, file, p, name, c, es);
      var record := reader.ReadRecord();
      if reader.drops != [] {
        return None, [];
      }
      if record.None? {
        break;
      }
      var edit := new VersionEdits.VersionEdit();
      var ok := edit.DecodeFrom(record.value);
      if !ok || (edit.e.comparator.Some? && edit.e.comparator.value != name) {
        return None, [];
      }
      c := Fold(c, edit.e);
      es := es + [edit.e];
    }
    FoldIsLast(es);
    if c.nextFile.None? || c.logNumber.None? || c.lastSequence.None? {
      return None, es;
    }
    counters := Some((c.logNumber.value, if c.prevLogNumber.Some? then c.prevLogNumber.value else 0, c.nextFile.value,
                      c.lastSequence.value));
  }

  /** Reading record by record gives all the edits and their counters, unless something is wrong anywhere. */
  lemma {:induction false} ReadEditsExactly(crc: Bytes -> Word, file: Bytes, p: nat, name: Bytes, c: Counters,
                                            before: seq<VersionEdits.Edit>)
    requires p <= |file|
    ensures var r := ReadAll(crc, file, p);
            ReadEdits(crc, file, p, name, c, before)
              == if r.1 == [] && forall i :: 0 <= i < |r.0| ==> GoodRecord(r.0[i], name)
                 then Some((FoldAll(c, Decoded(r.0)), before + Decoded(r.0))) else None
    decreases |file| - p
  {
    hide ReadFrom, ReadAll, ReadEdits, VersionEdits.DecodeInto, Fold;
    ReadEditsStep(crc, file, p, name, c, before);
    ReadAllStep(crc, file, p);
    var r := ReadFrom(crc, file, p, None, []);
    if r.record.None? {
      assert Decoded([]) == [] && before + [] == before;
    } else if r.drops == [] {
      var rest := ReadAll(crc, file, r.next);
      assert r.drops + rest.1 == rest.1;
      var records := [r.record.value] + rest.0;
      var e := VersionEdits.DecodeInto(VersionEdits.EMPTY, r.record.value).0;
      assert records[0] == r.record.value && records[1..] == rest.0;
      assert Decoded(records) == [e] + Decoded(rest.0);
      assert before + [e] + Decoded(rest.0) == before + Decoded(records);
      ReadEditsExactly(crc, file, r.next, name, Fold(c, e), before + [e]);
      assert (forall i :: 0 <= i < |records| ==> GoodRecord(records[i], name))
        <==> GoodRecord(r.record.value, name) && forall i :: 0 <= i < |rest.0| ==> GoodRecord(rest.0[i], name) by {
        forall i | 0 <= i < |rest.0| ensures records[i + 1] == rest.0[i] {
        }
        forall i | 0 <= i < |records| ensures i > 0 ==> records[i] == rest.0[i - 1] {
        }
      }
    }
  }

  lemma ReadEditsMeans(crc: Bytes -> Word, file: Bytes, name: Bytes)
    ensures var all := Decoded(ReadAll(crc, file, 0).0);
            ReadEdits(crc, file, 0, name, NO_COUNTERS, [])
              == if Readable(crc, file, name) then Some((FoldAll(NO_COUNTERS, all), all)) else None
  {
    hide ReadAll, ReadEdits, GoodRecord, FoldAll;
    ReadEditsExactly(crc, file, 0, name, NO_COUNTERS, []);
    assert [] + Decoded(ReadAll(crc, file, 0).0) == Decoded(ReadAll(crc, file, 0).0);
  }

  /** Folding keeps what was set last. */
  lemma {:induction false} FoldIsLast(es: seq<VersionEdits.Edit>)
    ensures FoldAll(NO_COUNTERS, es)
            == Counters(LastSet(LogNumbers(es)), LastSet(PrevLogNumbers(es)), LastSet(NextFiles(es)),
                        LastSet(LastSequences(es)))
  {
    hide FoldAll, LastSet;
    if es == [] {
      FoldNothing();
    } else {
      var n := |es| - 1;
      FoldIsLast(es[..n]);
      FoldAppend(NO_COUNTERS, es[..n], es[n]);
      assert es[..n] + [es[n]] == es;
      LastSetAppend(LogNumbers(es[..n]), es[n].logNumber, LogNumbers(es));
      LastSetAppend(PrevLogNumbers(es[..n]), es[n].prevLogNumber, PrevLogNumbers(es));
      LastSetAppend(NextFiles(es[..n]), es[n].nextFileNumber, NextFiles(es));
      LastSetAppend(LastSequences(es[..n]), es[n].lastSequence, LastSequences(es));
    }
  }

  lemma LastSetAppend(front: seq<Option<nat>>, v: Option<nat>, values: seq<Option<nat>>)
    requires values == front + [v]
    ensures LastSet(values) == Later(LastSet(front), v)
  {
    assert values[..|values| - 1] == front;
  }

  lemma ReadEditsStep(crc: Bytes -> Word, file: Bytes, p: nat, name: Bytes, c: Counters, es: seq<VersionEdits.Edit>)
    requires p <= |file|
    ensures var r := ReadFrom(crc, file, p, None, []);
            ReadEdits(crc, file, p, name, c, es)
              == if r.drops != [] then None
                 else if r.record.None? then Some((c, es))
                 else
                   var d := VersionEdits.DecodeInto(VersionEdits.EMPTY, r.record.value);
                   if !d.1 || (d.0.comparator.Some? && d.0.comparator.value != name) then None
                   else ReadEdits(crc, file, r.next, name, Fold(c, d.0), es + [d.0])
  {
    hide ReadFrom, VersionEdits.DecodeInto;
  }

  lemma ReadAllStep(crc: Bytes -> Word, file: Bytes, p: nat)
    requires p <= |file|
    ensures var r := ReadFrom(crc, file, p, None, []);
            ReadAll(crc, file, p)
              == if r.record.None? then ([], r.drops)
                 else ([r.record.value] + ReadAll(crc, file, r.next).0, r.drops + ReadAll(crc, file, r.next).1)
  {
    hide ReadFrom;
  }

  function FoldAll(c: Counters, es: seq<VersionEdits.Edit>): Counters
    decreases |es|
  {
    if es == [] then c else FoldAll(Fold(c, es[0]), es[1..])
  }

  /** The edits of a manifest as LogAndApply writes them: a snapshot without counters, then edits that set all four. */
  ghost predicate Counted(es: seq<VersionEdits.Edit>, name: Bytes, counters: seq<(nat, nat, nat, nat)>) {
    && |es| == |counters| + 1
    && es[0].comparator == Some(name) && Fold(NO_COUNTERS, es[0]) == NO_COUNTERS
    && forall i :: 0 < i < |es| ==>
         && es[i].comparator == None
         && Fold(NO_COUNTERS, es[i])
            == Counters(Some(counters[i - 1].0), Some(counters[i - 1].1), Some(counters[i - 1].2),
                        Some(counters[i - 1].3))
  }

  lemma {:induction false} FoldAppend(c: Counters, es: seq<VersionEdits.Edit>, e: VersionEdits.Edit)
    ensures FoldAll(c, es + [e]) == Fold(FoldAll(c, es), e)
    decreases |es|
  {
    if es != [] {
      assert (es + [e])[1..] == es[1..] + [e];
      FoldAppend(Fold(c, es[0]), es[1..], e);
    } else {
      assert es + [e] == [e];
    }
  }

  lemma {:induction false} LastCounters(es: seq<VersionEdits.Edit>, name: Bytes, counters: seq<(nat, nat, nat, nat)>,
                                        n: nat)
    requires Counted(es, name, counters) && n < |es|
    ensures FoldAll(NO_COUNTERS, es[..n + 1])
            == if n == 0 then NO_COUNTERS
               else Counters(Some(counters[n - 1].0), Some(counters[n - 1].1), Some(counters[n - 1].2),
                             Some(counters[n - 1].3))
  {
    hide FoldAll;
    assert es[..n + 1] == es[..n] + [es[n]];
    FoldAppend(NO_COUNTERS, es[..n], es[n]);
    if n > 0 {
      LastCounters(es, name, counters, n - 1);
    } else {
      assert es[..0] == [];
      FoldNothing();
    }
  }

  lemma FoldNothing()
    ensures FoldAll(NO_COUNTERS, []) == NO_COUNTERS && LastSet([]) == None
  {
  }

  /** Recovery from a manifest that was cut anywhere behind its snapshot has the edits up to some version n, as above,
      and the counters of that version; a snapshot alone is not enough, and is never made the current manifest. */
  lemma CountersRecovered(crc: Bytes -> Word, es: seq<VersionEdits.Edit>, name: Bytes,
                          counters: seq<(nat, nat, nat, nat)>, cut: nat) returns (n: nat)
    requires Counted(es, name, counters)
    requires forall e <- es :: VersionEdits.EditOk(e) && VersionEdits.Ascending(e.deletedFiles)
    requires |Log(crc, VersionEdits.ManifestRecords(es[..1]))| <= cut <= |Log(crc, VersionEdits.ManifestRecords(es))|
    ensures n < |es| && |Log(crc, VersionEdits.ManifestRecords(es[..n + 1]))| <= cut
    ensures n + 1 < |es| ==> cut < |Log(crc, VersionEdits.ManifestRecords(es[..n + 2]))|
    ensures ReadEdits(crc, Log(crc, VersionEdits.ManifestRecords(es))[..cut], 0, name, NO_COUNTERS, [])
            == Some((if n == 0 then NO_COUNTERS
                     else Counters(Some(counters[n - 1].0), Some(counters[n - 1].1), Some(counters[n - 1].2),
                                   Some(counters[n - 1].3)),
                     es[..n + 1]))
  {
    hide Log, ReadAll, ReadEdits, VersionEdits.DecodeInto, VersionEdits.EditOk, VersionEdits.Ascending, FoldAll;
    var whole := VersionEdits.ManifestRoundTrip(crc, es, cut);
    n := whole - 1;
    var file := Log(crc, VersionEdits.ManifestRecords(es))[..cut];
    var records := ReadAll(crc, file, 0).0;
    assert Decoded(records) == es[..whole];
    forall i | 0 <= i < whole ensures GoodRecord(records[i], name) {
      assert es[i].comparator == None || es[i].comparator == Some(name);
    }
    ReadEditsMeans(crc, file, name);
    LastCounters(es, name, counters, n);
  }
}
