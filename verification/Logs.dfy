/** log_writer.cc and log_reader.cc: records in 32 KiB blocks, fragmented at block boundaries, and what a reader
    makes of any file; then what it makes of any prefix of a file that a writer wrote. */
module Logs {
  import opened Keys
  import opened Coding
  import opened Checksums

  const BLOCK: nat := 32768
  const HEADER: nat := 7

  const FULL: nat := 1
  const FIRST: nat := 2
  const MIDDLE: nat := 3
  const LAST: nat := 4
  const EOF: nat := 5  // kMaxRecordType + 1
  const BAD: nat := 6  // kMaxRecordType + 2

  // ----- What a writer writes

  function Physical(crc: Bytes -> Word, kind: Byte, data: Bytes): (r: Bytes)
    requires |data| < 0x1_0000
    ensures |r| == HEADER + |data|
  {
    Fixed32(Mask(crc([kind] + data))) + [|data| % 256, |data| / 256, kind] + data
  }

  function Zeros(n: nat): (r: Bytes)
    ensures |r| == n
  {
    seq(n, _ => 0)
  }

  /** How many bytes of a block are left over behind position p because no header fits there. */
  function Gap(p: nat): (g: nat)
    ensures g < HEADER
    ensures (p + g) % BLOCK + HEADER <= BLOCK
  {
    if BLOCK - p % BLOCK < HEADER then BLOCK - p % BLOCK else 0
  }

  function Available(p: nat): (n: nat)
    ensures n <= BLOCK - HEADER
  {
    BLOCK - HEADER - (p + Gap(p)) % BLOCK
  }

  function Kind(begin: bool, end: bool): Byte {
    if begin && end then FULL else if begin then FIRST else if end then LAST else MIDDLE
  }

  /** How much of the data fits in the block. */
  function Fit(p: nat, data: Bytes): (n: nat)
    ensures n <= |data| && n <= Available(p)
    ensures n == 0 && data != [] ==> Available(p) == 0
  {
    if |data| < Available(p) then |data| else Available(p)
  }

  /** The padding and the next physical record, in a file of p bytes. */
  function FirstFragment(crc: Bytes -> Word, p: nat, data: Bytes, begin: bool): (r: Bytes)
    ensures |r| == Gap(p) + HEADER + Fit(p, data)
  {
    var n := Fit(p, data);
    Zeros(Gap(p)) + Physical(crc, Kind(begin, n == |data|), data[..n])
  }

  /** Only fewer than seven bytes at the end of a block are left over, as zeros, and a record is only split where a
      block ends. */
  lemma BlocksAreFilled(crc: Bytes -> Word, p: nat, data: Bytes, begin: bool)
    ensures var first := FirstFragment(crc, p, data, begin);
            && (forall i :: 0 <= i < Gap(p) ==> first[i] == 0)
            && (Gap(p) > 0 ==> p % 32768 > 32768 - 7 && (p + Gap(p)) % 32768 == 0)
            && (Fit(p, data) < |data| ==> (p + |first|) % 32768 == 0)
  {
    hide Physical;
    var at := p + Gap(p);
    assert at % BLOCK + HEADER + Available(p) == BLOCK;
    assert Fit(p, data) < |data| ==> p + |FirstFragment(crc, p, data, begin)| == at - at % BLOCK + BLOCK;
  }

  /** What AddRecord appends to a file of p bytes for the rest of a record's data. */
  function Fragments(crc: Bytes -> Word, p: nat, data: Bytes, begin: bool): Bytes
    decreases |data|, if Available(p) == 0 then 1 else 0
  {
    var first := FirstFragment(crc, p, data, begin);
    var n := Fit(p, data);
    if n == |data| then first
    else
      EmptyOnlyAtEnd(p, data);
      first + Fragments(crc, p + |first|, data[n..], false)
  }

  /** A fragment is empty only at the very end of a block, and then the next one is not. */
  lemma EmptyOnlyAtEnd(p: nat, data: Bytes)
    ensures Fit(p, data) == 0 && data != [] ==> Available(p) == 0 && Available(p + Gap(p) + HEADER) > 0
  {
  }

  function Log(crc: Bytes -> Word, records: seq<Bytes>): Bytes {
    if records == [] then [] else
      var before := Log(crc, records[..|records| - 1]);
      before + Fragments(crc, |before|, records[|records| - 1], true)
  }

  class Writer {
    const crc: Bytes -> Word
    var file: Bytes
    var blockOffset: nat
    ghost var records: seq<Bytes>

    ghost predicate Valid()
      reads this
    {
      file == Log(crc, records) && blockOffset <= BLOCK && Aligned(blockOffset, |file|)
    }

    /** Writing starts, or goes on, at the end of a file that holds some records. */
    constructor (crc: Bytes -> Word, file: Bytes, ghost records: seq<Bytes>)
      requires file == Log(crc, records)
      ensures Valid() && this.crc == crc && this.file == file && this.records == records
    {
      hide Log;
      this.crc, this.file, this.records := crc, file, records;
      blockOffset := |file| % BLOCK;
    }

    method AddRecord(record: Bytes)
      requires Valid()
      modifies this
      ensures Valid() && records == old(records) + [record]
      ensures old(file) <= file
    {
      hide Log, Aligned, Available, Fragments, FirstFragment;
      var ptr: nat, left: nat, begin := 0, |record|, true;
      records := records + [record];
      ghost var was := file;
      var more := true;
      while more
        invariant ptr + left == |record| && blockOffset <= BLOCK && Aligned(blockOffset, |file|)
        invariant records == old(records) + [record] && was <= file
        invariant was + Fragments(crc, |was|, record, true)
               == if more then file + Fragments(crc, |file|, record[ptr..], begin) else file
        decreases more, left, if Available(|file|) == 0 then 1 else 0
      {
        ghost var start, rest := file, record[ptr..];
        var length := AddFragment(record, ptr, begin);
        EmptyOnlyAtEnd(|start|, rest);
        FragmentsUnfold(crc, start, rest, begin, length, file);
        assert rest[length..] == record[ptr + length..];
        ptr, left, begin := ptr + length, left - length, false;
        more := left > 0;
      }
      LogAppend(crc, old(records), record);
    }

    /** One round of AddRecord's loop: pads the block if no header fits, and emits what fits of the rest. */
    method AddFragment(record: Bytes, ptr: nat, begin: bool) returns (length: nat)
      requires ptr <= |record| && blockOffset <= BLOCK && Aligned(blockOffset, |file|)
      modifies `file, `blockOffset
      ensures length == Fit(old(|file|), record[ptr..])
      ensures file == old(file) + FirstFragment(crc, old(|file|), record[ptr..], begin)
      ensures blockOffset <= BLOCK && Aligned(blockOffset, |file|)
    {
      hide Physical, Aligned, Gap, Available, FirstFragment;
      ghost var start, rest := file, record[ptr..];
      AlignedGap(blockOffset, |start|);
      var left, leftover := |record| - ptr, BLOCK - blockOffset;
      if leftover < HEADER {
        if leftover > 0 {
          file := file + Zeros(leftover);
        }
        blockOffset := 0;
      }
      assert file == start + Zeros(Gap(|start|));
      var avail := BLOCK - blockOffset - HEADER;
      length := if left < avail then left else avail;
      var end := left == length;
      AlignedAdd(blockOffset, |file|, HEADER + length);
      assert rest[..length] == record[ptr..ptr + length];
      EmitPhysicalRecord(Kind(begin, end), record[ptr..ptr + length]);
      FirstFragmentAppended(crc, start, rest, begin, length, file);
    }

    method EmitPhysicalRecord(kind: Byte, data: Bytes)
      requires blockOffset + HEADER + |data| <= BLOCK
      modifies `file, `blockOffset
      ensures file == old(file) + Physical(crc, kind, data)
      ensures blockOffset == old(blockOffset) + HEADER + |data|
    {
      var header := Fixed32(Mask(crc([kind] + data))) + [|data| % 256, |data| / 256, kind];
      file := file + header + data;
      blockOffset := blockOffset + HEADER + |data|;
    }
  }

  /** The writer's offset is the file length modulo the block size, up to a full block. */
  predicate Aligned(offset: nat, p: nat) {
    offset % BLOCK == p % BLOCK
  }

  lemma AlignedGap(offset: nat, p: nat)
    requires offset <= BLOCK && Aligned(offset, p)
    ensures var left := BLOCK - offset;
            && Gap(p) == (if left < HEADER then left else 0)
            && Aligned(if left < HEADER then 0 else offset, p + Gap(p))
            && Available(p) == (if left < HEADER then BLOCK else left) - HEADER
  {
  }

  lemma AlignedAdd(offset: nat, p: nat, n: nat)
    requires Aligned(offset, p)
    ensures Aligned(offset + n, p + n)
  {
  }

  lemma FragmentsUnfold(crc: Bytes -> Word, start: Bytes, data: Bytes, begin: bool, n: nat, file: Bytes)
    requires n == Fit(|start|, data) && file == start + FirstFragment(crc, |start|, data, begin)
    ensures start + Fragments(crc, |start|, data, begin)
         == if n == |data| then file else file + Fragments(crc, |file|, data[n..], false)
  {
    hide Fragments, FirstFragment, Physical, Zeros, Gap, Available, Fit;
    FragmentsStep(crc, |start|, data, begin);
    var first := FirstFragment(crc, |start|, data, begin);
    if n < |data| {
      var rest := Fragments(crc, |start| + |first|, data[n..], false);
      Associative(start, first, rest);
    }
  }

  lemma FragmentsStep(crc: Bytes -> Word, p: nat, data: Bytes, begin: bool)
    ensures var first, n := FirstFragment(crc, p, data, begin), Fit(p, data);
            Fragments(crc, p, data, begin)
              == if n == |data| then first else first + Fragments(crc, p + |first|, data[n..], false)
  {
  }

  lemma FirstFragmentAppended(crc: Bytes -> Word, start: Bytes, data: Bytes, begin: bool, n: nat, file: Bytes)
    requires n == Fit(|start|, data)
    requires file == start + Zeros(Gap(|start|)) + Physical(crc, Kind(begin, n == |data|), data[..n])
    ensures file == start + FirstFragment(crc, |start|, data, begin)
  {
  }

  lemma Associative(a: Bytes, b: Bytes, c: Bytes)
    ensures a + b + c == a + (b + c)
  {
  }

  lemma LogAppend(crc: Bytes -> Word, records: seq<Bytes>, record: Bytes)
    ensures Log(crc, records + [record]) == Log(crc, records) + Fragments(crc, |Log(crc, records)|, record, true)
  {
  }

  // ----- What a reader reads, from any file

  datatype Frame = Frame(kind: nat, data: Bytes, next: nat, drops: seq<nat>)

  function Min(a: nat, b: nat): nat {
    if a < b then a else b
  }

  /** Parses the physical record at the front of a buffer that holds the file from position q on, to the end of
      its block or, if it is short, to the end of the file. */
  function Parse(crc: Bytes -> Word, buffer: Bytes, q: nat, short: bool): (f: Frame)
    requires |buffer| >= HEADER
    ensures f.next <= q + |buffer|
    ensures f.kind != EOF ==> q < f.next
  {
    var end := q + |buffer|;
    var length: nat := buffer[4] as int + 256 * buffer[5] as int;
    var kind := buffer[6];
    if HEADER + length > |buffer| then
      if short then Frame(EOF, [], end, []) else Frame(BAD, [], end, [|buffer|])
    else if kind == 0 && length == 0 then Frame(BAD, [], end, [])
    else if Unmask(DecodeFixed32(buffer)) != crc(buffer[6..7 + length]) then Frame(BAD, [], end, [|buffer|])
    else Frame(kind, buffer[7..7 + length], q + 7 + length, [])
  }

  /** The physical record behind position p: its type and data, where the next one starts, what was reported. */
  function ReadPhysical(crc: Bytes -> Word, file: Bytes, p: nat): (f: Frame)
    requires p <= |file|
    ensures f.next <= |file|
    ensures f.kind != EOF ==> p < f.next
  {
    var q := p + Gap(p);
    if q + HEADER > |file| then Frame(EOF, [], |file|, [])
    else
      var blockEnd := q - q % BLOCK + BLOCK;
      var end := Min(|file|, blockEnd);
      Parse(crc, file[q..end], q, end < blockEnd)
  }

  function DecodeFixed32(s: Bytes): Word
    requires |s| >= 4
  {
    Fixed32Bound(s[..4]);
    DecodeFixed(s[..4])
  }

  datatype Read = Read(record: Option<Bytes>, next: nat, drops: seq<nat>)

  function Partial(scratch: Option<Bytes>): seq<nat> {
    if scratch.Some? && scratch.value != [] then [|scratch.value|] else []
  }

  /** What ReadRecord does with one physical record: it goes on with new scratch contents, or it is done. */
  datatype Step = More(scratch: Option<Bytes>, drops: seq<nat>) | Done(record: Option<Bytes>, drops: seq<nat>)

  /** scratch holds the fragments read so far, if inside a record. */
  function Handle(f: Frame, scratch: Option<Bytes>, drops: seq<nat>): (r: Step)
    ensures f.kind == EOF ==> r.Done? && r.record.None?
  {
    if f.kind == FULL then Done(Some(f.data), drops + Partial(scratch))
    else if f.kind == FIRST then More(Some(f.data), drops + Partial(scratch))
    else if f.kind == MIDDLE then
      if scratch.None? then More(None, drops + [|f.data|]) else More(Some(scratch.value + f.data), drops)
    else if f.kind == LAST then
      if scratch.None? then More(None, drops + [|f.data|]) else Done(Some(scratch.value + f.data), drops)
    else if f.kind == EOF then Done(None, drops)
    else if f.kind == BAD then More(None, if scratch.Some? then drops + [|scratch.value|] else drops)
    else More(None, drops + [|f.data| + if scratch.Some? then |scratch.value| else 0])
  }

  /** The record behind position p. */
  function ReadFrom(crc: Bytes -> Word, file: Bytes, p: nat, scratch: Option<Bytes>, drops: seq<nat>): (r: Read)
    requires p <= |file|
    ensures r.next <= |file|
    ensures r.record.Some? ==> p < r.next
    decreases |file| - p
  {
    var f := ReadPhysical(crc, file, p);
    match Handle(f, scratch, drops + f.drops)
    case More(next, drops) => ReadFrom(crc, file, f.next, next, drops)
    case Done(record, drops) => Read(record, f.next, drops)
  }

  lemma ReadFromStep(crc: Bytes -> Word, file: Bytes, p: nat, scratch: Option<Bytes>, drops: seq<nat>)
    requires p <= |file|
    ensures var f := ReadPhysical(crc, file, p);
            var step := Handle(f, scratch, drops + f.drops);
            ReadFrom(crc, file, p, scratch, drops)
              == if step.More? then ReadFrom(crc, file, f.next, step.scratch, step.drops)
                 else Read(step.record, f.next, step.drops)
  {
  }

  class Reader {
    const crc: Bytes -> Word
    const file: Bytes
    var buffer: Bytes
    var eof: bool
    var endOfBuffer: nat
    var drops: seq<nat>  // the sizes reported to the reporter

    /** The buffer is the unread part of the last block read. */
    ghost predicate Valid()
      reads `buffer, `eof, `endOfBuffer
    {
      && endOfBuffer <= |file| && |buffer| <= endOfBuffer && |buffer| <= BLOCK
      && buffer == file[endOfBuffer - |buffer|..endOfBuffer]
      && (if eof then endOfBuffer == |file| && |buffer| <= endOfBuffer % BLOCK else endOfBuffer % BLOCK == 0)
    }

    constructor (crc: Bytes -> Word, file: Bytes)
      ensures Valid() && this.crc == crc && this.file == file && Position() == 0 && drops == []
    {
      this.crc, this.file := crc, file;
      buffer, eof, endOfBuffer, drops := [], false, 0, [];
    }

    ghost function Position(): (p: nat)
      requires Valid()
      reads `buffer, `eof, `endOfBuffer
      ensures p <= |file|
    {
      endOfBuffer - |buffer|
    }

    method ReportCorruption(bytes: nat)
      modifies `drops
      ensures drops == old(drops) + [bytes]
    {
      drops := drops + [bytes];
    }

    method ReadBlock()
      requires Valid() && !eof
      modifies `buffer, `eof, `endOfBuffer
      ensures Valid() && Position() == old(endOfBuffer) && (eof || |buffer| == BLOCK)
    {
      var end := Min(endOfBuffer + BLOCK, |file|);
      buffer := file[endOfBuffer..end];
      endOfBuffer := end;
      if |buffer| < BLOCK {
        eof := true;
      }
    }

    method ReadPhysicalRecord() returns (kind: nat, fragment: Bytes)
      requires Valid()
      modifies this
      ensures Valid() && old(drops) <= drops
      ensures ReadPhysical(crc, file, old(Position())) == Frame(kind, fragment, Position(), drops[|old(drops)|..])
    {
      hide ReadPhysical, Parse, Gap;
      ghost var p := Position();
      while |buffer| < HEADER
        invariant Valid() && drops == old(drops)
        invariant ReadPhysical(crc, file, Position()) == ReadPhysical(crc, file, p)
        decreases !eof, if |buffer| < HEADER then 1 else 0
      {
        if eof {
          ShortTail(crc, file, Position());
          buffer := [];
          return EOF, [];
        }
        SkipTrailer(crc, file, Position(), endOfBuffer);
        ReadBlock();
      }
      BlockEnd(Position(), endOfBuffer, |file|, eof);
      ReadPhysicalAt(crc, file, Position(), endOfBuffer);
      kind, fragment := ParseBuffer();
    }

    /** Checks the header at the front of the buffer; a bad one costs the rest of the buffer. */
    method ParseBuffer() returns (kind: nat, fragment: Bytes)
      requires Valid() && |buffer| >= HEADER
      modifies this
      ensures Valid() && old(drops) <= drops
      ensures Parse(crc, old(buffer), old(Position()), old(eof))
                == Frame(kind, fragment, Position(), drops[|old(drops)|..])
    {
      hide Unmask, DecodeFixed;
      var length: nat := buffer[4] as int + 256 * buffer[5] as int;
      kind := buffer[6];
      fragment := [];
      if HEADER + length > |buffer| {
        var dropped := |buffer|;
        buffer := [];
        if !eof {
          ReportCorruption(dropped);
          return BAD, [];
        }
        return EOF, [];
      }
      if kind == 0 && length == 0 {
        buffer := [];
        return BAD, [];
      }
      if Unmask(DecodeFixed32(buffer)) != crc(buffer[6..7 + length]) {
        var dropped := |buffer|;
        buffer := [];
        ReportCorruption(dropped);
        return BAD, [];
      }
      fragment := buffer[HEADER..HEADER + length];
      buffer := buffer[HEADER + length..];
    }

    /** The next logical record, or None at the end of the file. */
    method ReadRecord() returns (record: Option<Bytes>)
      requires Valid()
      modifies this
      ensures Valid()
      ensures ReadFrom(crc, file, old(Position()), None, old(drops)) == Read(record, Position(), drops)
      ensures record.Some? ==> exists parts :: Gathered(crc, file, old(Position()), Position(), parts, record.value)
      ensures old(drops) <= drops
    {
      hide ReadFrom, ReadPhysical, Valid, Position, Gathered;
      RecordIsGathered(crc, file, Position(), Position(), [], None, drops);
      DropsStay(crc, file, Position(), None, drops);
      var scratch, inFragmentedRecord := [], false;
      while true
        invariant Valid()
        invariant ReadFrom(crc, file, Position(), if inFragmentedRecord then Some(scratch) else None, drops)
               == ReadFrom(crc, file, old(Position()), None, old(drops))
        decreases |file| - Position()
      {
        ghost var before := drops;
        ReadFromStep(crc, file, Position(), if inFragmentedRecord then Some(scratch) else None, drops);
        var kind, fragment := ReadPhysicalRecord();
        assert drops == before + drops[|before|..] && drops + [] == drops;
        if kind == FULL {
          if inFragmentedRecord && scratch != [] {
            ReportCorruption(|scratch|);
          }
          return Some(fragment);
        } else if kind == FIRST {
          if inFragmentedRecord && scratch != [] {
            ReportCorruption(|scratch|);
          }
          scratch, inFragmentedRecord := fragment, true;
        } else if kind == MIDDLE {
          if !inFragmentedRecord {
            ReportCorruption(|fragment|);
          } else {
            scratch := scratch + fragment;
          }
        } else if kind == LAST {
          if !inFragmentedRecord {
            ReportCorruption(|fragment|);
          } else {
            return Some(scratch + fragment);
          }
        } else if kind == EOF {
          return None;
        } else if kind == BAD {
          if inFragmentedRecord {
            ReportCorruption(|scratch|);
            scratch, inFragmentedRecord := [], false;
          }
        } else {
          ReportCorruption(|fragment| + if inFragmentedRecord then |scratch| else 0);
          scratch, inFragmentedRecord := [], false;
        }
      }
    }
  }

  lemma ShortTail(crc: Bytes -> Word, file: Bytes, p: nat)
    requires p <= |file| < p + HEADER
    ensures ReadPhysical(crc, file, p) == Frame(EOF, [], |file|, [])
  {
  }

  lemma SkipTrailer(crc: Bytes -> Word, file: Bytes, p: nat, end: nat)
    requires p <= end <= |file| && end - p < HEADER && end % BLOCK == 0
    ensures ReadPhysical(crc, file, p) == ReadPhysical(crc, file, end)
  {
    assert p + Gap(p) == end && Gap(end) == 0;
  }

  lemma BlockEnd(q: nat, end: nat, size: nat, eof: bool)
    requires q + HEADER <= end <= size && end <= q + BLOCK
    requires if eof then end == size && end - q <= end % BLOCK else end % BLOCK == 0
    ensures Gap(q) == 0 && end == Min(size, q - q % BLOCK + BLOCK)
    ensures eof <==> end < q - q % BLOCK + BLOCK
  {
  }

  lemma ReadPhysicalAt(crc: Bytes -> Word, file: Bytes, q: nat, end: nat)
    requires q + HEADER <= end <= |file| && Gap(q) == 0
    requires end == Min(|file|, q - q % BLOCK + BLOCK)
    ensures ReadPhysical(crc, file, q) == Parse(crc, file[q..end], q, end < q - q % BLOCK + BLOCK)
  {
  }

  // ----- What the bytes of a returned record must be

  /** A frame in a file: where it starts and how long its payload is. */
  datatype Part = Part(at: nat, length: nat) {
    function End(): nat {
      at + HEADER + length
    }
  }

  function LengthAt(file: Bytes, q: nat): nat
    requires q + HEADER <= |file|
  {
    file[q + 4] as int + 256 * file[q + 5] as int
  }

  /** The frame lies in one block, has its length in bytes 4 and 5, and the checksum of type and payload, masked, in the
      first four. */
  ghost predicate Sound(crc: Bytes -> Word, file: Bytes, part: Part) {
    && part.End() <= |file| && part.at % BLOCK + HEADER + part.length <= BLOCK
    && LengthAt(file, part.at) == part.length
    && Unmask(DecodeFixed32(file[part.at..part.at + 4])) == crc(file[part.at + 6..part.End()])
  }

  function TypeOf(file: Bytes, part: Part): nat {
    if part.End() <= |file| then file[part.at + 6] else 0
  }

  function Payload(file: Bytes, part: Part): Bytes {
    if part.End() <= |file| then file[part.at + HEADER..part.End()] else []
  }

  /** The payloads, one after the other. */
  function Payloads(file: Bytes, parts: seq<Part>): Bytes {
    if parts == [] then [] else Payloads(file, parts[..|parts| - 1]) + Payload(file, parts[|parts| - 1])
  }

  /** Frame i + 1 starts where frame i ends, or at the next block if no header fits there. */
  ghost predicate Adjacent(parts: seq<Part>) {
    forall i :: 0 < i < |parts| ==> parts[i].at == Behind(parts[i - 1].End())
  }

  function Behind(end: nat): nat {
    if end % BLOCK + HEADER > BLOCK then end - end % BLOCK + BLOCK else end
  }

  ghost predicate AllSound(crc: Bytes -> Word, file: Bytes, parts: seq<Part>) {
    forall i :: 0 <= i < |parts| ==> Sound(crc, file, parts[i])
  }

  /** The frames of the beginning of a record: FIRST, MIDDLE, MIDDLE, ... */
  ghost predicate Opens(crc: Bytes -> Word, file: Bytes, parts: seq<Part>) {
    && AllSound(crc, file, parts) && Adjacent(parts)
    && forall i :: 0 <= i < |parts| ==> TypeOf(file, parts[i]) == if i == 0 then FIRST else MIDDLE
  }

  /** The record consists of the payloads of sound, adjacent frames between the two positions: one of type FULL, or
      one FIRST, any number of MIDDLE, and one LAST. */
  ghost predicate Gathered(crc: Bytes -> Word, file: Bytes, from: nat, to: nat, parts: seq<Part>, record: Bytes) {
    && parts != [] && AllSound(crc, file, parts) && Adjacent(parts)
    && from <= parts[0].at && parts[|parts| - 1].End() == to
    && record == Payloads(file, parts)
    && (forall i :: 0 <= i < |parts| - 1 ==> TypeOf(file, parts[i]) == if i == 0 then FIRST else MIDDLE)
    && TypeOf(file, parts[|parts| - 1]) == if |parts| == 1 then FULL else LAST
  }

  lemma BehindIsGap(p: nat)
    ensures p + Gap(p) == Behind(p)
  {
  }

  /** What comes from position p, by the bytes there. */
  lemma PhysicalByBytes(crc: Bytes -> Word, file: Bytes, p: nat)
    requires p <= |file|
    ensures var q, f := Behind(p), ReadPhysical(crc, file, p);
            if q + HEADER > |file| then f == Frame(EOF, [], |file|, [])
            else
              var end := Min(|file|, q - q % BLOCK + BLOCK);
              var part := Part(q, LengthAt(file, q));
              if part.End() > end then
                f == if end < q - q % BLOCK + BLOCK then Frame(EOF, [], end, []) else Frame(BAD, [], end, [end - q])
              else if file[q + 6] == 0 && part.length == 0 then f == Frame(BAD, [], end, [])
              else if Sound(crc, file, part) then f == Frame(TypeOf(file, part), Payload(file, part), part.End(), [])
              else f == Frame(BAD, [], end, [end - q])
  {
    hide Unmask, DecodeFixed, Gap, Parse, ReadPhysical, Behind, Sound;
    BehindIsGap(p);
    var q := Behind(p);
    if q + HEADER <= |file| {
      var end := Min(|file|, q - q % BLOCK + BLOCK);
      FrameStart(p);
      ReadPhysicalBehind(crc, file, p);
      ReadPhysicalAt(crc, file, q, end);
      ParseByBytes(crc, file, q, end, end < q - q % BLOCK + BLOCK);
    } else {
      NoFrame(crc, file, p);
    }
  }

  lemma FrameStart(p: nat)
    ensures Gap(Behind(p)) == 0 && Behind(p) % BLOCK + HEADER <= BLOCK
  {
  }

  lemma ReadPhysicalBehind(crc: Bytes -> Word, file: Bytes, p: nat)
    requires p <= |file| && Behind(p) <= |file|
    ensures ReadPhysical(crc, file, p) == ReadPhysical(crc, file, Behind(p))
  {
    hide Parse;
    BehindIsGap(p);
    FrameStart(p);
  }

  lemma NoFrame(crc: Bytes -> Word, file: Bytes, p: nat)
    requires p <= |file| < Behind(p) + HEADER
    ensures ReadPhysical(crc, file, p) == Frame(EOF, [], |file|, [])
  {
    hide Parse;
    BehindIsGap(p);
  }

  lemma ParseByBytes(crc: Bytes -> Word, file: Bytes, q: nat, end: nat, short: bool)
    requires q + HEADER <= end <= |file| && end == Min(|file|, q - q % BLOCK + BLOCK) && q % BLOCK + HEADER <= BLOCK
    ensures var part, f := Part(q, LengthAt(file, q)), Parse(crc, file[q..end], q, short);
            if part.End() > end then f == if short then Frame(EOF, [], end, []) else Frame(BAD, [], end, [end - q])
            else if file[q + 6] == 0 && part.length == 0 then f == Frame(BAD, [], end, [])
            else if Sound(crc, file, part) then f == Frame(TypeOf(file, part), Payload(file, part), part.End(), [])
            else f == Frame(BAD, [], end, [end - q])
  {
    hide Unmask, DecodeFixed;
    var buffer, length := file[q..end], LengthAt(file, q);
    assert buffer[..4] == file[q..q + 4] == file[q..q + 4][..4];
    if q + HEADER + length <= end {
      assert buffer[6..7 + length] == file[q + 6..q + 7 + length];
      assert buffer[7..7 + length] == file[q + 7..q + 7 + length];
    }
  }

  lemma OpensMore(crc: Bytes -> Word, file: Bytes, parts: seq<Part>, part: Part)
    requires Opens(crc, file, parts) && Sound(crc, file, part)
    requires parts != [] ==> part.at == Behind(parts[|parts| - 1].End())
    requires TypeOf(file, part) == if parts == [] then FIRST else MIDDLE
    ensures Opens(crc, file, parts + [part])
    ensures Payloads(file, parts + [part]) == Payloads(file, parts) + Payload(file, part)
  {
    hide Sound, TypeOf, Payload, Behind;
    assert (parts + [part])[..|parts|] == parts;
  }

  lemma GatheredLast(crc: Bytes -> Word, file: Bytes, from: nat, parts: seq<Part>, part: Part)
    requires Opens(crc, file, parts) && Sound(crc, file, part) && from <= (if parts == [] then part else parts[0]).at
    requires parts != [] ==> part.at == Behind(parts[|parts| - 1].End())
    requires TypeOf(file, part) == if parts == [] then FULL else LAST
    ensures Gathered(crc, file, from, part.End(), parts + [part], Payloads(file, parts) + Payload(file, part))
  {
    hide Sound, TypeOf, Payload, Behind;
    assert (parts + [part])[..|parts|] == parts;
  }

  lemma {:induction false} DropsStay(crc: Bytes -> Word, file: Bytes, p: nat, scratch: Option<Bytes>, drops: seq<nat>)
    requires p <= |file|
    ensures drops <= ReadFrom(crc, file, p, scratch, drops).drops
    decreases |file| - p
  {
    hide ReadFrom, ReadPhysical;
    ReadFromStep(crc, file, p, scratch, drops);
    var f := ReadPhysical(crc, file, p);
    var step := Handle(f, scratch, drops + f.drops);
    if step.More? {
      DropsStay(crc, file, f.next, step.scratch, step.drops);
    }
  }

  /** The frames that the scratch buffer at position p was filled from. */
  ghost predicate Filled(crc: Bytes -> Word, file: Bytes, from: nat, p: nat, parts: seq<Part>, scratch: Option<Bytes>) {
    if scratch.None? then parts == []
    else
      && parts != [] && Opens(crc, file, parts) && from <= parts[0].at && parts[|parts| - 1].End() == p
      && scratch.value == Payloads(file, parts)
  }

  /** A record that is returned, from any file, was gathered from sound frames behind the position. */
  lemma {:induction false} RecordIsGathered(crc: Bytes -> Word, file: Bytes, from: nat, p: nat, parts: seq<Part>,
                                            scratch: Option<Bytes>, drops: seq<nat>)
    requires from <= p <= |file| && Filled(crc, file, from, p, parts, scratch)
    ensures var r := ReadFrom(crc, file, p, scratch, drops);
            r.record.Some? ==> exists all :: Gathered(crc, file, from, r.next, all, r.record.value)
    decreases |file| - p
  {
    hide ReadFrom, ReadPhysical, Sound, Gathered, Payload, TypeOf, Behind, Handle, Filled;
    ReadFromStep(crc, file, p, scratch, drops);
    var f := ReadPhysical(crc, file, p);
    var step := Handle(f, scratch, drops + f.drops);
    if f.kind == EOF || f.kind == BAD || FULL > f.kind || LAST < f.kind {
      NothingGathered(crc, file, from, f, scratch, drops + f.drops);
      if step.More? {
        RecordIsGathered(crc, file, from, f.next, [], None, step.drops);
      }
    } else {
      var part := SoundFrame(crc, file, p);
      var all := FrameGathered(crc, file, from, p, parts, scratch, part, drops + f.drops);
      if step.More? {
        RecordIsGathered(crc, file, from, f.next, all, step.scratch, step.drops);
      }
    }
  }

  lemma NothingGathered(crc: Bytes -> Word, file: Bytes, from: nat, f: Frame, scratch: Option<Bytes>, drops: seq<nat>)
    requires f.kind == EOF || f.kind == BAD || FULL > f.kind || LAST < f.kind
    ensures var step := Handle(f, scratch, drops);
            if step.More? then step.scratch == None && Filled(crc, file, from, f.next, [], None)
            else step.record == None
  {
    hide Opens, Payloads;
  }

  /** What a sound frame makes of the frames gathered so far. */
  lemma FrameGathered(crc: Bytes -> Word, file: Bytes, from: nat, p: nat, parts: seq<Part>, scratch: Option<Bytes>,
                      part: Part, drops: seq<nat>) returns (all: seq<Part>)
    requires from <= p && Filled(crc, file, from, p, parts, scratch)
    requires part.at == Behind(p) >= p && Sound(crc, file, part) && FULL <= TypeOf(file, part) <= LAST
    ensures var step := Handle(Frame(TypeOf(file, part), Payload(file, part), part.End(), []), scratch, drops);
            if step.More? then Filled(crc, file, from, part.End(), all, step.scratch)
            else step.record.Some? && Gathered(crc, file, from, part.End(), all, step.record.value)
  {
    hide Sound, Gathered, Opens, Payload, TypeOf, Behind, Payloads;
    NothingOpen(crc, file);
    var kind := TypeOf(file, part);
    all := [];
    if kind == FULL {
      GatheredLast(crc, file, from, [], part);
      all := [part];
    } else if kind == FIRST {
      OpensMore(crc, file, [], part);
      all := [part];
    } else if scratch.Some? && kind == MIDDLE {
      OpensMore(crc, file, parts, part);
      all := parts + [part];
    } else if scratch.Some? {
      GatheredLast(crc, file, from, parts, part);
      all := parts + [part];
    }
  }

  lemma SoundFrame(crc: Bytes -> Word, file: Bytes, p: nat) returns (part: Part)
    requires p <= |file| && FULL <= ReadPhysical(crc, file, p).kind <= LAST
    ensures part.at == Behind(p) >= p && Sound(crc, file, part)
    ensures ReadPhysical(crc, file, p) == Frame(TypeOf(file, part), Payload(file, part), part.End(), [])
  {
    hide ReadPhysical, Sound, TypeOf, Payload;
    PhysicalByBytes(crc, file, p);
    part := Part(Behind(p), LengthAt(file, Behind(p)));
  }

  lemma NothingOpen(crc: Bytes -> Word, file: Bytes)
    ensures Opens(crc, file, []) && Payloads(file, []) == []
    ensures forall data: Bytes :: [] + data == data
    ensures forall part: Part :: [] + [part] == [part]
  {
  }

  /** And the other way: sound, adjacent frames from the position on that make up a record are read as this record, and
      nothing is reported. */
  lemma {:induction false} GatheredIsRead(crc: Bytes -> Word, file: Bytes, p: nat, n: nat, to: nat, parts: seq<Part>,
                                          record: Bytes, drops: seq<nat>)
    requires Gathered(crc, file, Behind(p), to, parts, record) && parts[0].at == Behind(p) && n < |parts|
    ensures |file| >= (if n == 0 then p else parts[n - 1].End())
    ensures var scratch := if n == 0 then None else Some(Payloads(file, parts[..n]));
            ReadFrom(crc, file, if n == 0 then p else parts[n - 1].End(), scratch, drops)
              == Read(Some(record), to, drops)
    decreases |parts| - n
  {
    hide ReadFrom, ReadPhysical, Sound, Payload, TypeOf, Behind;
    var q := if n == 0 then p else parts[n - 1].End();
    var scratch := if n == 0 then None else Some(Payloads(file, parts[..n]));
    var part := parts[n];
    SoundIsRead(crc, file, q, part);
    ReadFromStep(crc, file, q, scratch, drops);
    assert drops + [] == drops;
    assert parts[..n + 1][..n] == parts[..n];
    if n + 1 < |parts| {
      NothingOpen(crc, file);
      assert n == 0 ==> parts[..0] == [];
      GatheredIsRead(crc, file, p, n + 1, to, parts, record, drops);
    } else {
      NothingOpen(crc, file);
      assert parts[..n + 1] == parts && parts[..|parts| - 1] == parts[..n];
      assert n == 0 ==> parts[..n] == [];
      assert drops + [] + [] == drops;
    }
  }

  lemma SoundIsRead(crc: Bytes -> Word, file: Bytes, p: nat, part: Part)
    requires Sound(crc, file, part) && part.at == Behind(p) && 0 < TypeOf(file, part)
    ensures p <= |file|
    ensures ReadPhysical(crc, file, p) == Frame(TypeOf(file, part), Payload(file, part), part.End(), [])
  {
    hide ReadPhysical, Unmask, DecodeFixed;
    PhysicalByBytes(crc, file, p);
  }

  /** A frame whose stored sum differs is skipped together with the rest of its block, which is reported, and what was
      gathered before it is lost, which is reported too. */
  lemma DamageIsReported(crc: Bytes -> Word, file: Bytes, p: nat, scratch: Option<Bytes>, drops: seq<nat>)
    requires p <= |file| && Behind(p) + HEADER <= |file|
    requires var q := Behind(p);
             && Part(q, LengthAt(file, q)).End() <= Min(|file|, q - q % BLOCK + BLOCK)
             && (file[q + 6] != 0 || LengthAt(file, q) != 0)
             && Unmask(DecodeFixed32(file[q..q + 4])) != crc(file[q + 6..q + HEADER + LengthAt(file, q)])
    ensures var q := Behind(p);
            var end := Min(|file|, q - q % BLOCK + BLOCK);
            var reports := [end - q] + if scratch.Some? then [|scratch.value|] else [];
            && ReadFrom(crc, file, p, scratch, drops) == ReadFrom(crc, file, end, None, drops + reports)
            && drops + reports <= ReadFrom(crc, file, p, scratch, drops).drops
  {
    hide ReadFrom, ReadPhysical, Unmask, DecodeFixed, Behind;
    var q := Behind(p);
    var end := Min(|file|, q - q % BLOCK + BLOCK);
    PhysicalByBytes(crc, file, p);
    ReadFromStep(crc, file, p, scratch, drops);
    var reports := [end - q] + if scratch.Some? then [|scratch.value|] else [];
    if scratch.Some? {
      assert drops + [end - q] + [|scratch.value|] == drops + reports;
    } else {
      assert drops + [end - q] == drops + reports;
    }
    DropsStay(crc, file, end, None, drops + reports);
  }

  /** Every record that reading a whole file gives was gathered from sound frames, behind those of the one before. */
  ghost predicate AllGathered(crc: Bytes -> Word, file: Bytes, from: nat, records: seq<Bytes>)
    decreases |records|
  {
    records != [] ==>
      exists to, parts :: Gathered(crc, file, from, to, parts, records[0]) && AllGathered(crc, file, to, records[1..])
  }

  lemma {:induction false} RecordsAreGathered(crc: Bytes -> Word, file: Bytes, p: nat)
    requires p <= |file|
    ensures AllGathered(crc, file, p, ReadAll(crc, file, p).0)
    decreases |file| - p
  {
    hide ReadFrom, Gathered;
    var r := ReadFrom(crc, file, p, None, []);
    if r.record.Some? {
      RecordIsGathered(crc, file, p, p, [], None, []);
      var parts :| Gathered(crc, file, p, r.next, parts, r.record.value);
      RecordsAreGathered(crc, file, r.next);
      var records := ReadAll(crc, file, p).0;
      assert records[0] == r.record.value && records[1..] == ReadAll(crc, file, r.next).0;
    }
  }

  // ----- Reading back what was written

  /** From position p on, the file has the bytes s, as far as it goes. */
  ghost predicate Agree(file: Bytes, p: nat, s: Bytes) {
    forall i :: 0 <= i < |s| && p + i < |file| ==> file[p + i] == s[i]
  }

  lemma AgreeSlice(file: Bytes, p: nat, s: Bytes, i: nat, j: nat)
    requires Agree(file, p, s) && i <= j <= |s| && p + j <= |file|
    ensures file[p + i..p + j] == s[i..j]
  {
  }

  lemma AgreeParts(file: Bytes, p: nat, a: Bytes, b: Bytes)
    requires Agree(file, p, a + b)
    ensures Agree(file, p, a) && Agree(file, p + |a|, b)
  {
    forall i | 0 <= i < |a| && p + i < |file|
      ensures file[p + i] == a[i]
    {
      assert (a + b)[i] == a[i];
    }
    forall i | 0 <= i < |b| && p + |a| + i < |file|
      ensures file[p + |a| + i] == b[i]
    {
      assert (a + b)[|a| + i] == b[i] && p + (|a| + i) == p + |a| + i;
    }
  }

  lemma ParseWholeFrame(crc: Bytes -> Word, buffer: Bytes, q: nat, short: bool, kind: Byte, data: Bytes)
    requires |data| < 0x1_0000 && kind != 0 && Physical(crc, kind, data) <= buffer
    ensures Parse(crc, buffer, q, short) == Frame(kind, data, q + HEADER + |data|, [])
  {
    hide Fixed32, Mask, Unmask, DecodeFixed;
    var frame, sum := Physical(crc, kind, data), Mask(crc([kind] + data));
    assert buffer[..4] == frame[..4] == Fixed32(sum);
    assert buffer[6..7 + |data|] == frame[6..7 + |data|] == [kind] + data;
    assert buffer[7..7 + |data|] == frame[7..7 + |data|] == data;
    assert buffer[4] == frame[4] && buffer[5] == frame[5] && buffer[6] == frame[6];
    Fixed32RoundTrip(sum);
    UnmaskMask(crc([kind] + data));
  }

  lemma ParseCutFrame(crc: Bytes -> Word, buffer: Bytes, q: nat, kind: Byte, data: Bytes)
    requires |data| < 0x1_0000 && HEADER <= |buffer| < HEADER + |data| && buffer <= Physical(crc, kind, data)
    ensures Parse(crc, buffer, q, true) == Frame(EOF, [], q + |buffer|, [])
  {
  }

  lemma ReadFrame(crc: Bytes -> Word, file: Bytes, q: nat, kind: Byte, data: Bytes)
    requires Gap(q) == 0 && q % BLOCK + HEADER + |data| <= BLOCK && kind != 0
    requires q <= |file| && Agree(file, q, Physical(crc, kind, data))
    ensures ReadPhysical(crc, file, q)
         == if q + HEADER + |data| <= |file| then Frame(kind, data, q + HEADER + |data|, [])
             else Frame(EOF, [], |file|, [])
  {
    hide Physical, Gap, Parse, ReadPhysical;
    if q + HEADER <= |file| {
      var blockEnd := q - q % BLOCK + BLOCK;
      var end := Min(|file|, blockEnd);
      var buffer, frame := file[q..end], Physical(crc, kind, data);
      ReadPhysicalAt(crc, file, q, end);
      if q + |frame| <= |file| {
        AgreeSlice(file, q, frame, 0, |frame|);
        assert buffer[..|frame|] == file[q..q + |frame|] == frame;
        ParseWholeFrame(crc, buffer, q, end < blockEnd, kind, data);
      } else {
        AgreeSlice(file, q, frame, 0, |file| - q);
        assert buffer == frame[..|file| - q];
        ParseCutFrame(crc, buffer, q, kind, data);
      }
    } else {
      ShortTail(crc, file, q);
    }
  }

  lemma BehindGap(crc: Bytes -> Word, file: Bytes, p: nat)
    requires p <= |file|
    ensures var q := p + Gap(p);
            && Gap(q) == 0 && q % BLOCK + HEADER + Available(p) == BLOCK
            && ReadPhysical(crc, file, p) == if q <= |file| then ReadPhysical(crc, file, q)
                else Frame(EOF, [], |file|, [])
  {
    hide Parse;
  }

  lemma ReadFirst(crc: Bytes -> Word, file: Bytes, p: nat, data: Bytes, begin: bool)
    requires p <= |file| && Agree(file, p, FirstFragment(crc, p, data, begin))
    ensures var first, n := FirstFragment(crc, p, data, begin), Fit(p, data);
            ReadPhysical(crc, file, p)
              == if p + |first| <= |file| then Frame(Kind(begin, n == |data|), data[..n], p + |first|, [])
                 else Frame(EOF, [], |file|, [])
  {
    hide Physical, ReadPhysical, Gap, Zeros, Available;
    var q, n := p + Gap(p), Fit(p, data);
    var kind := Kind(begin, n == |data|);
    AgreeParts(file, p, Zeros(Gap(p)), Physical(crc, kind, data[..n]));
    BehindGap(crc, file, p);
    if q <= |file| {
      ReadFrame(crc, file, q, kind, data[..n]);
    }
  }

  ghost function Joined(scratch: Option<Bytes>, data: Bytes): Bytes {
    if scratch.None? then data else scratch.value + data
  }

  /** One fragment: the end of the file, the end of the record, or a longer scratch. */
  lemma ReadFragment(crc: Bytes -> Word, file: Bytes, p: nat, data: Bytes, scratch: Option<Bytes>, drops: seq<nat>)
    requires p <= |file| && Agree(file, p, FirstFragment(crc, p, data, scratch.None?))
    ensures var next, n := p + |FirstFragment(crc, p, data, scratch.None?)|, Fit(p, data);
            ReadFrom(crc, file, p, scratch, drops)
              == if next > |file| then Read(None, |file|, drops)
                 else if n == |data| then Read(Some(Joined(scratch, data)), next, drops)
                 else ReadFrom(crc, file, next, Some(Joined(scratch, data[..n])), drops)
  {
    hide FirstFragment, ReadPhysical, ReadFrom, Gap, Available, Fit;
    ReadFromStep(crc, file, p, scratch, drops);
    ReadFirst(crc, file, p, data, scratch.None?);
    assert drops + [] == drops && data[..|data|] == data;
  }

  /** The fragments of one record, whole or cut anywhere. */
  lemma {:induction false} ReadFragments(crc: Bytes -> Word, file: Bytes, p: nat, data: Bytes, scratch: Option<Bytes>,
                                         drops: seq<nat>)
    requires p <= |file| && Agree(file, p, Fragments(crc, p, data, scratch.None?))
    ensures var end := p + |Fragments(crc, p, data, scratch.None?)|;
            ReadFrom(crc, file, p, scratch, drops)
              == if end <= |file| then Read(Some(Joined(scratch, data)), end, drops) else Read(None, |file|, drops)
    decreases |data|, if Available(p) == 0 then 1 else 0
  {
    hide FirstFragment, ReadFrom, Gap, Available, Fragments, Fit, Joined;
    var begin := scratch.None?;
    var first, n := FirstFragment(crc, p, data, begin), Fit(p, data);
    FragmentsStep(crc, p, data, begin);
    if n < |data| {
      AgreeParts(file, p, first, Fragments(crc, p + |first|, data[n..], false));
    }
    ReadFragment(crc, file, p, data, scratch, drops);
    if p + |first| <= |file| && n < |data| {
      EmptyOnlyAtEnd(p, data);
      JoinedTwice(scratch, data, n);
      ReadFragments(crc, file, p + |first|, data[n..], Some(Joined(scratch, data[..n])), drops);
    }
  }

  lemma JoinedTwice(scratch: Option<Bytes>, data: Bytes, n: nat)
    requires n <= |data|
    ensures Joined(Some(Joined(scratch, data[..n])), data[n..]) == Joined(scratch, data)
  {
    assert data == data[..n] + data[n..];
  }

  lemma {:induction false} LogPrefix(crc: Bytes -> Word, records: seq<Bytes>, n: nat)
    requires n <= |records|
    ensures Log(crc, records[..n]) <= Log(crc, records)
  {
    if n < |records| {
      LogPrefix(crc, records[..|records| - 1], n);
      assert records[..|records| - 1][..n] == records[..n];
    } else {
      assert records[..n] == records;
    }
  }

  /** Reading at the start of record n of a log cut anywhere: the record when it is wholly there, otherwise the end
      of the file; and nothing is reported as corrupt. */
  lemma ReadRecordBack(crc: Bytes -> Word, records: seq<Bytes>, cut: nat, n: nat, drops: seq<nat>)
    requires n < |records| && |Log(crc, records[..n])| <= cut <= |Log(crc, records)|
    ensures var start, end := |Log(crc, records[..n])|, |Log(crc, records[..n + 1])|;
            ReadFrom(crc, Log(crc, records)[..cut], start, None, drops)
              == if end <= cut then Read(Some(records[n]), end, drops) else Read(None, cut, drops)
  {
    hide Log, ReadFrom, Fragments;
    var file, start := Log(crc, records)[..cut], |Log(crc, records[..n])|;
    LogAppend(crc, records[..n], records[n]);
    assert records[..n] + [records[n]] == records[..n + 1];
    LogPrefix(crc, records, n + 1);
    var fragments := Fragments(crc, start, records[n], true);
    assert Agree(file, start, fragments) by {
      AgreeAppended(Log(crc, records)[..cut], Log(crc, records), Log(crc, records[..n]), fragments);
    }
    ReadFragments(crc, file, start, records[n], None, drops);
  }

  lemma AgreeAppended(file: Bytes, whole: Bytes, a: Bytes, b: Bytes)
    requires file <= whole && a + b <= whole
    ensures Agree(file, |a|, b)
  {
  }

  lemma ReadAtEnd(crc: Bytes -> Word, file: Bytes, drops: seq<nat>)
    ensures ReadFrom(crc, file, |file|, None, drops) == Read(None, |file|, drops)
  {
  }

  /** Every record from position p on, as recovery reads them, and all that was reported. */
  function ReadAll(crc: Bytes -> Word, file: Bytes, p: nat): (seq<Bytes>, seq<nat>)
    requires p <= |file|
    decreases |file| - p
  {
    var r := ReadFrom(crc, file, p, None, []);
    if r.record.None? then ([], r.drops)
    else
      var rest := ReadAll(crc, file, r.next);
      ([r.record.value] + rest.0, r.drops + rest.1)
  }

  lemma {:induction false} ReadAllFrom(crc: Bytes -> Word, records: seq<Bytes>, cut: nat, n: nat, whole: nat)
    requires n <= whole <= |records| && |Log(crc, records[..n])| <= cut <= |Log(crc, records)|
    requires |Log(crc, records[..whole])| <= cut && (whole < |records| ==> cut < |Log(crc, records[..whole + 1])|)
    ensures ReadAll(crc, Log(crc, records)[..cut], |Log(crc, records[..n])|) == (records[n..whole], [])
    decreases whole - n
  {
    hide Log, ReadFrom;
    var file := Log(crc, records)[..cut];
    if n < whole {
      LogPrefix(crc, records[..whole], n + 1);
      assert records[..whole][..n + 1] == records[..n + 1];
      ReadRecordBack(crc, records, cut, n, []);
      ReadAllFrom(crc, records, cut, n + 1, whole);
      assert records[n..whole] == [records[n]] + records[n + 1..whole];
      var r := ReadFrom(crc, file, |Log(crc, records[..n])|, None, []);
      var rest := ReadAll(crc, file, r.next);
      assert rest == (records[n + 1..whole], []);
      assert r.drops + rest.1 == [];
      assert ReadAll(crc, file, |Log(crc, records[..n])|) == ([records[n]] + rest.0, r.drops + rest.1);
    } else if n < |records| {
      ReadRecordBack(crc, records, cut, n, []);
      assert ReadAll(crc, file, |Log(crc, records[..n])|) == ([], []);
    } else {
      assert records[..n] == records;
      ReadAtEnd(crc, file, []);
    }
  }

  /** Reading any prefix of a log gives exactly the records wholly inside it, and no corruption is reported. */
  lemma ReadPrefix(crc: Bytes -> Word, records: seq<Bytes>, cut: nat) returns (whole: nat)
    requires cut <= |Log(crc, records)|
    ensures whole <= |records| && |Log(crc, records[..whole])| <= cut
    ensures whole < |records| ==> cut < |Log(crc, records[..whole + 1])|
    ensures ReadAll(crc, Log(crc, records)[..cut], 0) == (records[..whole], [])
  {
    hide Log, ReadAll;
    whole := WholeRecords(crc, records, cut);
    NoRecords(crc, records);
    ReadAllFrom(crc, records, cut, 0, whole);
    assert records[0..whole] == records[..whole];
  }

  lemma NoRecords(crc: Bytes -> Word, records: seq<Bytes>)
    ensures |Log(crc, records[..0])| == 0
  {
  }

  /** How many records the first cut bytes hold. */
  lemma WholeRecords(crc: Bytes -> Word, records: seq<Bytes>, cut: nat) returns (whole: nat)
    ensures whole <= |records| && |Log(crc, records[..whole])| <= cut
    ensures whole < |records| ==> cut < |Log(crc, records[..whole + 1])|
  {
    hide Log;
    NoRecords(crc, records);
    whole := 0;
    while whole < |records| && |Log(crc, records[..whole + 1])| <= cut
      invariant whole <= |records| && |Log(crc, records[..whole])| <= cut
    {
      whole := whole + 1;
    }
  }

  /** Reading the whole file gives every record. */
  lemma ReadWhole(crc: Bytes -> Word, records: seq<Bytes>)
    ensures ReadAll(crc, Log(crc, records), 0) == (records, [])
  {
    hide Log, ReadAll;
    var log := Log(crc, records);
    var whole := ReadPrefix(crc, records, |log|);
    if whole < |records| {
      LogPrefix(crc, records, whole + 1);
    }
    assert records[..|records|] == records && log[..|log|] == log;
  }
}
