/** write_batch.cc: batches as bytes, what Iterate makes of any bytes, and what survives the trip through a log. */
module WriteBatches {
  import opened Keys
  import opened Coding
  import opened Comparators
  import opened Histories
  import opened Logs

  const HEADER_SIZE: nat := 12

  /** An operation with the user key in bytes. */
  datatype Update = PutBytes(key: Bytes, value: Bytes) | DeleteBytes(key: Bytes)

  predicate Fits(u: Update) {
    |u.key| < TWO32 && (u.PutBytes? ==> |u.value| < TWO32)
  }

  function Record(u: Update): (r: Bytes)
    ensures r != []
  {
    match u
    case PutBytes(k, v) => [1] + LengthPrefixed(k) + LengthPrefixed(v)
    case DeleteBytes(k) => [0] + LengthPrefixed(k)
  }

  function Records(us: seq<Update>): Bytes {
    if us == [] then [] else Record(us[0]) + Records(us[1..])
  }

  function Rep(sequence: nat, us: seq<Update>): Bytes {
    Fixed64(sequence) + Fixed32(|us|) + Records(us)
  }

  lemma {:induction false} RecordsAppend(us: seq<Update>, vs: seq<Update>)
    ensures Records(us + vs) == Records(us) + Records(vs)
  {
    hide Record;
    if us == [] {
      assert us + vs == vs;
    } else {
      RecordsAppend(us[1..], vs);
      assert (us + vs)[1..] == us[1..] + vs && (us + vs)[0] == us[0];
      Associative(Record(us[0]), Records(us[1..]), Records(vs));
    }
  }

  /** The last record's bytes, as Put and Delete append them. */
  lemma AppendedRecord(before: Bytes, u: Update)
    ensures u.PutBytes? ==> before + [1] + LengthPrefixed(u.key) + LengthPrefixed(u.value) == before + Records([u])
    ensures u.DeleteBytes? ==> before + [0] + LengthPrefixed(u.key) == before + Records([u])
  {
  }

  // ----- Reading a batch

  datatype Status = OK | Corruption

  /** The handler calls that Iterate makes for the records, and how it ends. */
  function ParseUpdates(input: Bytes): (seq<Update>, Status)
    decreases |input|
  {
    if input == [] then ([], OK)
    else
      var u := ParseUpdate(input);
      if u.None? then ([], Corruption)
      else
        var rest := ParseUpdates(u.value.1);
        ([u.value.0] + rest.0, rest.1)
  }

  function ParseUpdate(input: Bytes): (r: Option<(Update, Bytes)>)
    requires input != []
    ensures r.Some? ==> |r.value.1| < |input|
  {
    var key := GetLengthPrefixed(input[1..]);
    if key.None? then None
    else if input[0] == 1 then
      var value := GetLengthPrefixed(key.value.1);
      if value.None? then None else Some((PutBytes(key.value.0, value.value.0), value.value.1))
    else if input[0] == 0 then Some((DeleteBytes(key.value.0), key.value.1))
    else None
  }

  lemma ParseOneRecord(u: Update, rest: Bytes)
    requires Fits(u)
    ensures ParseUpdate(Record(u) + rest) == Some((u, rest))
  {
    hide LengthPrefixed, GetLengthPrefixed;
    var input := Record(u) + rest;
    match u {
      case PutBytes(k, v) =>
        assert input[1..] == LengthPrefixed(k) + (LengthPrefixed(v) + rest);
        LengthPrefixedRoundTrip(k, LengthPrefixed(v) + rest);
        LengthPrefixedRoundTrip(v, rest);
      case DeleteBytes(k) =>
        assert input[1..] == LengthPrefixed(k) + rest;
        LengthPrefixedRoundTrip(k, rest);
    }
  }

  lemma {:induction false} ParseRecords(us: seq<Update>)
    requires forall u <- us :: Fits(u)
    ensures ParseUpdates(Records(us)) == (us, OK)
  {
    hide Record, ParseUpdate, Fits;
    if us != [] {
      ParseOneRecord(us[0], Records(us[1..]));
      ParseRecords(us[1..]);
      assert us == [us[0]] + us[1..];
    }
  }

  /** Iterate as a whole: too short, a bad record, a wrong count, or all the updates. */
  function Iterated(rep: Bytes): (seq<Update>, Status) {
    if |rep| < HEADER_SIZE then ([], Corruption)
    else
      var r := ParseUpdates(rep[HEADER_SIZE..]);
      (r.0, if r.1.OK? && |r.0| != DecodeFixed(rep[8..12]) then Corruption else r.1)
  }

  /** The bytes start with the record of an update: its type, its key, and, for a put, its value. */
  ghost predicate StartsWith(s: Bytes, u: Update, rest: Bytes) {
    && s != []
    && var key := GetLengthPrefixed(s[1..]);
       && key.Some? && key.value.0 == u.key
       && match u
          case DeleteBytes(_) => s[0] == 0 && key.value.1 == rest
          case PutBytes(_, v) => s[0] == 1 && GetLengthPrefixed(key.value.1) == Some((v, rest))
  }

  /** The records of the updates, one behind the other, up to the rest. */
  ghost predicate Spells(s: Bytes, us: seq<Update>, rest: Bytes) {
    if us == [] then s == rest
    else exists mid :: StartsWith(s, us[0], mid) && Spells(mid, us[1..], rest)
  }

  lemma ParseUpdateIs(s: Bytes)
    requires s != []
    ensures forall u, rest :: StartsWith(s, u, rest) <==> ParseUpdate(s) == Some((u, rest))
  {
    hide GetLengthPrefixed;
  }

  /** The records are read up to the first place where there is none. */
  lemma {:induction false} ParsedIs(input: Bytes) returns (rest: Bytes)
    ensures Spells(input, ParseUpdates(input).0, rest) && forall u, t :: !StartsWith(rest, u, t)
    ensures ParseUpdates(input).1 == OK <==> rest == []
    decreases |input|
  {
    hide StartsWith, ParseUpdate;
    rest := input;
    if input == [] {
      NothingStarts();
    } else {
      ParseUpdateIs(input);
      var u := ParseUpdate(input);
      if u.Some? {
        rest := ParsedIs(u.value.1);
        SpellsMore(input, u.value.0, u.value.1, ParseUpdates(u.value.1).0, rest);
      }
    }
  }

  lemma NothingStarts()
    ensures forall u, rest :: !StartsWith([], u, rest)
  {
  }

  lemma SpellsMore(s: Bytes, u: Update, mid: Bytes, us: seq<Update>, rest: Bytes)
    requires StartsWith(s, u, mid) && Spells(mid, us, rest)
    ensures Spells(s, [u] + us, rest)
  {
    assert ([u] + us)[1..] == us;
  }

  /** What was put into a batch, Iterate reports, in order; and the header has its sequence number. */
  lemma RepRoundTrip(sequence: nat, us: seq<Update>)
    requires sequence < TWO64 && |us| < TWO32 && forall u <- us :: Fits(u)
    ensures Iterated(Rep(sequence, us)) == (us, OK)
    ensures DecodeFixed(Rep(sequence, us)[..8]) == sequence && |Rep(sequence, us)| >= HEADER_SIZE
  {
    hide Fixed64, Fixed32, DecodeFixed, Records, ParseUpdates, Fits;
    var rep := Rep(sequence, us);
    assert rep[..8] == Fixed64(sequence) && rep[8..12] == Fixed32(|us|) && rep[12..] == Records(us);
    Fixed64RoundTrip(sequence);
    Fixed32RoundTrip(|us|);
    ParseRecords(us);
  }

  /** Any bytes: the calls are those of the records up to the first place where there is none, and the status is good
      when that is the end and their number is the one in the header. */
  lemma IteratedMeans(rep: Bytes)
    ensures |rep| < 12 ==> Iterated(rep) == ([], Corruption)
    ensures |rep| >= 12 ==>
              exists rest :: Spells(rep[12..], Iterated(rep).0, rest) && (forall u, t :: !StartsWith(rest, u, t))
                             && (Iterated(rep).1 == OK <==> rest == [] && |Iterated(rep).0| == DecodeFixed(rep[8..12]))
  {
    hide Spells, StartsWith, ParseUpdates, DecodeFixed;
    if |rep| >= 12 {
      var rest := ParsedIs(rep[12..]);
      assert rep[HEADER_SIZE..] == rep[12..];
      assert Spells(rep[12..], Iterated(rep).0, rest);
    }
  }

  // ----- The batch object

  class WriteBatch {
    var rep: Bytes
    ghost var sequence: nat
    ghost var updates: seq<Update>

    ghost predicate Valid()
      reads this
    {
      rep == Rep(sequence, updates) && |updates| < TWO32 && forall u <- updates :: Fits(u)
    }

    constructor ()
      ensures Valid() && updates == []
    {
      rep := Fixed64(0) + Fixed32(0);
      sequence, updates := 0, [];
    }

    method Clear()
      modifies this
      ensures Valid() && updates == []
    {
      rep := Fixed64(0) + Fixed32(0);
      sequence, updates := 0, [];
    }

    function Count(): (n: nat)
      requires Valid()
      reads this
      ensures n == |updates|
    {
      RepParts(sequence, updates);
      DecodeFixed(rep[8..12])
    }

    method SetCount(n: nat)
      requires |rep| >= HEADER_SIZE
      modifies `rep
      ensures rep == old(rep)[..8] + Fixed32(n) + old(rep)[12..]
    {
      rep := rep[..8] + Fixed32(n) + rep[12..];
    }

    method SetSequence(n: nat)
      requires Valid()
      modifies this
      ensures Valid() && sequence == n && updates == old(updates)
    {
      RepParts(sequence, updates);
      rep := Fixed64(n) + rep[8..];
      sequence := n;
      assert rep == Rep(n, updates);
    }

    method Put(key: Bytes, value: Bytes)
      requires Valid() && |updates| + 1 < TWO32 && |key| < TWO32 && |value| < TWO32
      modifies this
      ensures Valid() && updates == old(updates) + [PutBytes(key, value)] && sequence == old(sequence)
    {
      hide Fixed32, Fixed64, Record, Records;
      RepParts(sequence, updates);
      ghost var u := PutBytes(key, value);
      SetCount(Count() + 1);
      AppendedRecord(rep, u);
      rep := rep + [1];
      rep := rep + LengthPrefixed(key);
      rep := rep + LengthPrefixed(value);
      RepAppend(sequence, updates, [u], old(rep), rep);
      updates := updates + [u];
    }

    method Delete(key: Bytes)
      requires Valid() && |updates| + 1 < TWO32 && |key| < TWO32
      modifies this
      ensures Valid() && updates == old(updates) + [DeleteBytes(key)] && sequence == old(sequence)
    {
      hide Fixed32, Fixed64, Record, Records;
      RepParts(sequence, updates);
      ghost var u := DeleteBytes(key);
      SetCount(Count() + 1);
      AppendedRecord(rep, u);
      rep := rep + [0];
      rep := rep + LengthPrefixed(key);
      RepAppend(sequence, updates, [u], old(rep), rep);
      updates := updates + [u];
    }

    /** WriteBatchInternal::Append: the counts are added, and the records of the source follow. */
    method Append(source: WriteBatch)
      requires Valid() && source.Valid() && source != this && |updates| + |source.updates| < TWO32
      modifies this
      ensures Valid() && updates == old(updates) + source.updates && sequence == old(sequence)
    {
      hide Fixed32, Fixed64, Records;
      RepParts(sequence, updates);
      RepParts(source.sequence, source.updates);
      SetCount(Count() + source.Count());
      rep := rep + source.rep[HEADER_SIZE..];
      RepAppend(sequence, updates, source.updates, old(rep), rep);
      updates := updates + source.updates;
    }

    /** Calls the handler for each update; the calls are what is returned. */
    method Iterate() returns (calls: seq<Update>, status: Status)
      ensures (calls, status) == Iterated(rep)
      ensures |rep| < 12 ==> calls == []
      ensures |rep| >= 12 ==>
                exists rest :: Spells(rep[12..], calls, rest) && (forall u, t :: !StartsWith(rest, u, t))
                               && (status == OK <==> rest == [] && |calls| == DecodeFixed(rep[8..12]))
      ensures status == OK ==> |rep| >= 12
    {
      IteratedMeans(rep);
      hide Spells, StartsWith;
      calls := [];
      if |rep| < HEADER_SIZE {
        return [], Corruption;
      }
      var input := rep[HEADER_SIZE..];
      assert calls + ParseUpdates(input).0 == ParseUpdates(input).0;
      while input != []
        invariant ParseUpdates(rep[HEADER_SIZE..]) == (calls + ParseUpdates(input).0, ParseUpdates(input).1)
        decreases |input|
      {
        var u := ParseUpdate(input);
        if u.None? {
          assert calls + [] == calls;
          return calls, Corruption;
        }
        assert calls + ([u.value.0] + ParseUpdates(u.value.1).0) == calls + [u.value.0] + ParseUpdates(u.value.1).0;
        calls := calls + [u.value.0];
        input := u.value.1;
      }
      assert calls + [] == calls;
      status := if |calls| != DecodeFixed(rep[8..12]) then Corruption else OK;
    }
  }

  lemma RepParts(sequence: nat, us: seq<Update>)
    requires |us| < TWO32
    ensures var rep := Rep(sequence, us);
            && |rep| >= HEADER_SIZE && rep[..8] == Fixed64(sequence) && rep[8..12] == Fixed32(|us|)
            && rep[12..] == Records(us) && DecodeFixed(rep[8..12]) == |us| && rep[8..] == Fixed32(|us|) + Records(us)
  {
    hide Fixed64, Fixed32, DecodeFixed, Records;
    Fixed32RoundTrip(|us|);
  }

  lemma RepAppend(sequence: nat, us: seq<Update>, vs: seq<Update>, before: Bytes, after: Bytes)
    requires before == Rep(sequence, us) && |before| >= HEADER_SIZE
    requires after == before[..8] + Fixed32(|us| + |vs|) + before[12..] + Records(vs)
    ensures after == Rep(sequence, us + vs)
  {
    hide *;
    RepIs(sequence, us);
    RepIs(sequence, us + vs);
    RecordsAppend(us, vs);
    assert |us + vs| == |us| + |vs|;
    Associative(Fixed64(sequence) + Fixed32(|us| + |vs|), Records(us), Records(vs));
  }

  lemma RepIs(sequence: nat, us: seq<Update>)
    ensures var rep := Rep(sequence, us);
            && rep == Fixed64(sequence) + Fixed32(|us|) + Records(us)
            && |rep| >= 12 && rep[..8] == Fixed64(sequence) && rep[12..] == Records(us)
  {
  }

  // ----- Batches in a log

  datatype ByteBatch = ByteBatch(sequence: nat, updates: seq<Update>)

  predicate Loggable(b: ByteBatch) {
    b.sequence < TWO64 && |b.updates| < TWO32 && forall u <- b.updates :: Fits(u)
  }

  /** The log records of a history of batches. */
  function LogRecords(bs: seq<ByteBatch>): seq<Bytes> {
    seq(|bs|, i requires 0 <= i < |bs| => Rep(bs[i].sequence, bs[i].updates))
  }

  /** What recovery makes of a log record: a batch, unless it is too short or malformed. */
  function DecodeRecord(record: Bytes): Option<ByteBatch> {
    if |record| < HEADER_SIZE then None
    else
      var r := Iterated(record);
      if r.1.OK? then Some(ByteBatch(DecodeFixed(record[..8]), r.0)) else None
  }

  /** A crash cuts the log anywhere; what recovery then reads and decodes is exactly the batches whose records are
      wholly in the file, and nothing is reported as corrupt. */
  lemma LoggedBatchesSurvive(crc: Bytes -> Word, bs: seq<ByteBatch>, cut: nat) returns (whole: nat)
    requires forall b <- bs :: Loggable(b)
    requires cut <= |Log(crc, LogRecords(bs))|
    ensures whole <= |bs| && |Log(crc, LogRecords(bs[..whole]))| <= cut
    ensures whole < |bs| ==> cut < |Log(crc, LogRecords(bs[..whole + 1]))|
    ensures var r := ReadAll(crc, Log(crc, LogRecords(bs))[..cut], 0);
            && r.1 == [] && |r.0| == whole
            && forall i :: 0 <= i < whole ==> DecodeRecord(r.0[i]) == Some(bs[i])
  {
    hide Log, ReadAll, Rep, DecodeRecord;
    var records := LogRecords(bs);
    whole := ReadPrefix(crc, records, cut);
    assert records[..whole] == LogRecords(bs[..whole]);
    if whole < |bs| {
      assert records[..whole + 1] == LogRecords(bs[..whole + 1]);
    }
    forall i | 0 <= i < whole
      ensures DecodeRecord(records[i]) == Some(bs[i])
    {
      assert bs[i] in bs;
      RecordDecodes(bs[i]);
    }
  }

  lemma RecordDecodes(b: ByteBatch)
    requires Loggable(b)
    ensures DecodeRecord(Rep(b.sequence, b.updates)) == Some(b)
  {
    hide Rep, Iterated, DecodeFixed, Fits;
    RepRoundTrip(b.sequence, b.updates);
  }

  // ----- Batches and histories

  function ToOp(u: Update): Op {
    match u
    case PutBytes(k, v) => Put(Embed(k), v)
    case DeleteBytes(k) => Delete(Embed(k))
  }

  /** The batch of the abstract history that the bytes stand for. */
  function ToBatch(b: ByteBatch): Batch {
    Batch(b.sequence, seq(|b.updates|, i requires 0 <= i < |b.updates| => ToOp(b.updates[i])))
  }

  /** MemTableInserter adds update i as the internal key with sequence number b.sequence + i, in bytes, which stands
      for the entry that the abstract batch has there. */
  lemma InsertedEntry(b: ByteBatch, i: nat)
    requires i < |b.updates| && b.sequence + i <= MAX_SEQUENCE
    ensures var u := b.updates[i];
            var kind := if u.PutBytes? then TypeValue else TypeDeletion;
            var key := InternalKey(u.key, b.sequence + i, kind);
            && WellFormed(Internal, key)
            && OpEntry(ToBatch(b).ops[i], b.sequence + i)
                == Entry(Rank(Internal, key), if u.PutBytes? then u.value else [])
  {
    var u := b.updates[i];
    InternalKeyRoundTrip(u.key, b.sequence + i, if u.PutBytes? then TypeValue else TypeDeletion);
  }
}
