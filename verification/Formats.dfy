/** format.cc: block handles, the table footer, and blocks with their type byte and checksum. */
module Formats {
  import opened Keys
  import opened Coding
  import opened Checksums

  datatype BlockHandle = BlockHandle(offset: nat, size: nat)

  function EncodeHandle(h: BlockHandle): Bytes {
    Varint(h.offset) + Varint(h.size)
  }

  function DecodeHandle(s: Bytes): Option<(BlockHandle, Bytes)> {
    var offset := GetVarint64(s);
    if offset.None? then None else
      var size := GetVarint64(offset.value.1);
      if size.None? then None else Some((BlockHandle(offset.value.0, size.value.0), size.value.1))
  }

  lemma HandleRoundTrip(h: BlockHandle, rest: Bytes)
    requires h.offset < TWO64 && h.size < TWO64
    ensures DecodeHandle(EncodeHandle(h) + rest) == Some((h, rest)) && |EncodeHandle(h)| <= 20
  {
    hide Varint, GetVarint64;
    assert EncodeHandle(h) + rest == Varint(h.offset) + (Varint(h.size) + rest);
    Varint64RoundTrip(h.offset, Varint(h.size) + rest);
    Varint64RoundTrip(h.size, rest);
    Varint64Length(h.offset);
    Varint64Length(h.size);
  }

  // ----- Footer

  const MAGIC: nat := 0xDB47_7524_8B80_FB57
  const HANDLES_LENGTH: nat := 40
  const FOOTER_LENGTH: nat := 48

  /** std::string::resize. */
  function Resize(s: Bytes, n: nat): (r: Bytes)
    ensures |r| == n
  {
    if n <= |s| then s[..n] else s + seq(n - |s|, _ => 0)
  }

  function EncodeFooter(metaindex: BlockHandle, index: BlockHandle): (r: Bytes)
    ensures |r| == FOOTER_LENGTH
  {
    Resize(EncodeHandle(metaindex) + EncodeHandle(index), HANDLES_LENGTH)
    + Fixed32(MAGIC % TWO32) + Fixed32(MAGIC / TWO32)
  }

  function DecodeFooter(s: Bytes): Option<(BlockHandle, BlockHandle)>
    requires |s| == FOOTER_LENGTH
  {
    if DecodeFixed(s[40..44]) + TWO32 * DecodeFixed(s[44..48]) != MAGIC then None
    else
      var metaindex := DecodeHandle(s);
      if metaindex.None? then None
      else
        var index := DecodeHandle(metaindex.value.1);
        if index.None? then None else Some((metaindex.value.0, index.value.0))
  }

  lemma FooterRoundTrip(metaindex: BlockHandle, index: BlockHandle)
    requires metaindex.offset < TWO64 && metaindex.size < TWO64 && index.offset < TWO64 && index.size < TWO64
    ensures DecodeFooter(EncodeFooter(metaindex, index)) == Some((metaindex, index))
  {
    hide EncodeHandle, DecodeHandle, Fixed32, DecodeFixed;
    var handles := EncodeHandle(metaindex) + EncodeHandle(index);
    var low, high := Fixed32(MAGIC % TWO32), Fixed32(MAGIC / TWO32);
    HandleRoundTrip(metaindex, []);
    HandleRoundTrip(index, []);
    var padding := seq(HANDLES_LENGTH - |handles|, _ => 0);
    var s := EncodeFooter(metaindex, index);
    assert s == handles + padding + low + high;
    assert s[40..44] == low && s[44..48] == high;
    Fixed32RoundTrip(MAGIC % TWO32);
    Fixed32RoundTrip(MAGIC / TWO32);
    var behind := padding + low + high;
    assert s == EncodeHandle(metaindex) + (EncodeHandle(index) + behind);
    HandleRoundTrip(metaindex, EncodeHandle(index) + behind);
    HandleRoundTrip(index, behind);
  }

  const MAGIC_BYTES: Bytes := [0x57, 0xFB, 0x80, 0x8B, 0x24, 0x75, 0x47, 0xDB]

  /** A footer is accepted exactly when its last eight bytes are the magic number and two handles lead it. */
  lemma FooterByBytes(s: Bytes)
    requires |s| == FOOTER_LENGTH
    ensures DecodeFooter(s).Some? <==>
              && s[40..] == MAGIC_BYTES
              && DecodeHandle(s).Some? && DecodeHandle(DecodeHandle(s).value.1).Some?
  {
    hide DecodeHandle, DecodeFixed, Fixed;
    MagicWords(s[40..44], s[44..48]);
    assert s[40..] == s[40..44] + s[44..48];
    assert s[40..][..4] == s[40..44] && s[40..][4..] == s[44..48];
  }

  lemma MagicWords(low: Bytes, high: Bytes)
    requires |low| == 4 && |high| == 4
    ensures DecodeFixed(low) + TWO32 * DecodeFixed(high) == MAGIC <==>
              low == MAGIC_BYTES[..4] && high == MAGIC_BYTES[4..]
  {
    hide DecodeFixed, Fixed;
    Fixed32Bound(low);
    Fixed32Bound(high);
    FixedOfDecoded(low);
    FixedOfDecoded(high);
    Fixed32Bytes(MAGIC % TWO32);
    Fixed32Bytes(MAGIC / TWO32);
    Fixed32RoundTrip(MAGIC % TWO32);
    Fixed32RoundTrip(MAGIC / TWO32);
    assert Fixed32(MAGIC % TWO32) == MAGIC_BYTES[..4];
    assert Fixed32(MAGIC / TWO32) == MAGIC_BYTES[4..];
    var a, b := DecodeFixed(low), DecodeFixed(high);
    assert a + TWO32 * b == MAGIC <==> a == MAGIC % TWO32 && b == MAGIC / TWO32;
  }

  // ----- Stored blocks

  const TRAILER: nat := 5
  const NO_COMPRESSION: Byte := 0

  function Trailer(crc: Bytes -> Word, contents: Bytes, kind: Byte): (r: Bytes)
    ensures |r| == TRAILER
  {
    [kind] + Fixed32(Mask(crc(contents + [kind])))
  }

  /** ReadBlock for uncompressed blocks: None stands for an error. */
  function ReadBlock(crc: Bytes -> Word, verifyChecksums: bool, file: Bytes, h: BlockHandle): Option<Bytes> {
    if h.offset + h.size + TRAILER > |file| then None
    else
      var contents := file[h.offset..h.offset + h.size + TRAILER];
      var n := h.size;
      if verifyChecksums && Unmask(StoredSum(contents[n + 1..n + 5])) != crc(contents[..n + 1]) then None
      else if contents[n] != NO_COMPRESSION then None
      else Some(contents[..n])
  }

  function StoredSum(s: Bytes): Word
    requires |s| == 4
  {
    Fixed32Bound(s);
    DecodeFixed(s)
  }

  ghost predicate Stored(crc: Bytes -> Word, file: Bytes, h: BlockHandle, contents: Bytes) {
    && |contents| == h.size && h.offset + h.size + TRAILER <= |file|
    && file[h.offset..h.offset + h.size + TRAILER] == contents + Trailer(crc, contents, NO_COMPRESSION)
  }

  lemma StoredIsRead(crc: Bytes -> Word, verifyChecksums: bool, file: Bytes, h: BlockHandle, contents: Bytes)
    requires Stored(crc, file, h, contents)
    ensures ReadBlock(crc, verifyChecksums, file, h) == Some(contents)
  {
    hide Mask, Unmask, Fixed32, DecodeFixed;
    var sum := Mask(crc(contents + [NO_COMPRESSION]));
    var stored := contents + Trailer(crc, contents, NO_COMPRESSION);
    var n := h.size;
    assert stored[..n] == contents && stored[..n + 1] == contents + [NO_COMPRESSION];
    assert stored[n + 1..n + 5] == Fixed32(sum);
    Fixed32RoundTrip(sum);
    UnmaskMask(crc(contents + [NO_COMPRESSION]));
  }

  /** With checksums verified a block is read exactly if it was stored so. */
  lemma ReadIsStored(crc: Bytes -> Word, file: Bytes, h: BlockHandle, contents: Bytes)
    ensures ReadBlock(crc, true, file, h) == Some(contents) <==> Stored(crc, file, h, contents)
  {
    hide Mask, Unmask, Fixed32, DecodeFixed;
    if ReadBlock(crc, true, file, h) == Some(contents) {
      var n := h.size;
      var all := file[h.offset..h.offset + n + TRAILER];
      var sum := all[n + 1..n + 5];
      SumOfBytes(sum);
      MaskUnmask(StoredSum(sum));
      assert all[..n + 1] == contents + [NO_COMPRESSION];
      assert all == contents + ([NO_COMPRESSION] + sum);
    } else if Stored(crc, file, h, contents) {
      StoredIsRead(crc, true, file, h, contents);
      assert false;
    }
  }

  lemma SumOfBytes(s: Bytes)
    requires |s| == 4
    ensures Fixed32(StoredSum(s)) == s
  {
    FixedOfDecoded(s);
  }

  /** By the bytes of the file: the block lies within it, its type byte is 0, and the sum behind that is the masked
      checksum of the contents and the type byte; the sum does not count when checksums are not verified. */
  lemma BlockByBytes(crc: Bytes -> Word, verifyChecksums: bool, file: Bytes, h: BlockHandle)
    ensures var end := h.offset + h.size;
            && (ReadBlock(crc, verifyChecksums, file, h).Some? <==>
                  && end + 5 <= |file| && file[end] == 0
                  && (verifyChecksums ==> StoredSum(file[end + 1..end + 5]) == Mask(crc(file[h.offset..end + 1]))))
            && (ReadBlock(crc, verifyChecksums, file, h).Some? ==>
                  ReadBlock(crc, verifyChecksums, file, h).value == file[h.offset..end])
  {
    hide Mask, Unmask, StoredSum;
    var end := h.offset + h.size;
    if end + 5 <= |file| {
      var all := file[h.offset..end + TRAILER];
      var sum, actual := StoredSum(all[h.size + 1..h.size + 5]), crc(all[..h.size + 1]);
      assert all[h.size + 1..h.size + 5] == file[end + 1..end + 5] && all[..h.size + 1] == file[h.offset..end + 1];
      assert all[..h.size] == file[h.offset..end];
      MaskUnmask(sum);
      UnmaskMask(actual);
    }
  }

  lemma StoredLonger(crc: Bytes -> Word, file: Bytes, longer: Bytes, h: BlockHandle, contents: Bytes)
    requires Stored(crc, file, h, contents) && file <= longer
    ensures Stored(crc, longer, h, contents)
  {
  }

  lemma StoredAppended(crc: Bytes -> Word, file: Bytes, contents: Bytes)
    ensures Stored(crc, file + contents + Trailer(crc, contents, NO_COMPRESSION), BlockHandle(|file|, |contents|),
                   contents)
  {
  }
}
