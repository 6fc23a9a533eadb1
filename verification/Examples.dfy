/** What the formats come to in bytes, on small inputs. */
module Examples {
  import opened Keys
  import opened Coding
  import opened Checksums
  import opened Comparators
  import Logs
  import WriteBatches
  import Blocks
  import VersionEdits

  /** Seven bits a byte, the lowest first. */
  lemma Varints()
    ensures Varint(127) == [0x7F] && Varint(128) == [0x80, 0x01] && Varint(300) == [0xAC, 0x02]
  {
    assert Varint(1) == [1] && Varint(2) == [2];
  }

  lemma MaskedZero()
    ensures Mask(0) == 0xA282_EAD8 && Mask(0x8000) == 0xA282_EAD9
  {
  }

  /** The user key "a" at sequence number 258: the type is the lowest byte of the tag. */
  lemma InternalKeyBytes()
    ensures InternalKey([0x61], 258, TypeValue) == [0x61, 1, 2, 1, 0, 0, 0, 0, 0]
  {
    Fixed64Bytes(258 * 256 + 1);
  }

  lemma Fixed64Bytes(v: nat)
    requires v < TWO32
    ensures Fixed64(v) == Fixed32(v) + [0, 0, 0, 0]
    ensures Fixed32(v) == [v % 256, v / 256 % 256, v / 256 / 256 % 256, v / 256 / 256 / 256 % 256]
  {
    Fixed32Bytes(v);
    assert Fixed(0, 0) == [] && Fixed(0, 1) == [0] && Fixed(0, 2) == [0, 0] && Fixed(0, 3) == [0, 0, 0];
    assert Fixed(0, 4) == [0, 0, 0, 0];
    assert Fixed(v / 256 / 256 / 256, 5) == [v / 256 / 256 / 256 % 256] + Fixed(0, 4);
    assert Fixed(v / 256 / 256, 6) == [v / 256 / 256 % 256] + Fixed(v / 256 / 256 / 256, 5);
    assert Fixed(v / 256, 7) == [v / 256 % 256] + Fixed(v / 256 / 256, 6);
    assert Fixed(v, 8) == [v % 256] + Fixed(v / 256, 7);
  }

  /** A put of "b" under "a" and a deletion of "c", at sequence number 5. */
  lemma BatchBytes()
    ensures WriteBatches.Rep(5, [WriteBatches.PutBytes([0x61], [0x62]), WriteBatches.DeleteBytes([0x63])])
         == [5, 0, 0, 0, 0, 0, 0, 0, 2, 0, 0, 0, 1, 1, 0x61, 1, 0x62, 0, 1, 0x63]
  {
    hide Fixed64, Fixed32, WriteBatches.Records;
    Fixed64Bytes(5);
    Fixed32Bytes(2);
    RecordBytes(WriteBatches.PutBytes([0x61], [0x62]), WriteBatches.DeleteBytes([0x63]));
  }

  lemma RecordBytes(put: WriteBatches.Update, del: WriteBatches.Update)
    requires put == WriteBatches.PutBytes([0x61], [0x62]) && del == WriteBatches.DeleteBytes([0x63])
    ensures WriteBatches.Records([put, del]) == [1, 1, 0x61, 1, 0x62, 0, 1, 0x63]
  {
    assert Varint(1) == [1];
    assert WriteBatches.Record(put) == [1, 1, 0x61, 1, 0x62] && WriteBatches.Record(del) == [0, 1, 0x63];
    hide WriteBatches.Record;
    assert [put, del][1..] == [del] && [del][1..] == [];
    assert WriteBatches.Records([del]) == [0, 1, 0x63];
  }

  /** "apply" with the value "2" behind "apple": four bytes are shared. */
  lemma EntryBytes()
    ensures Blocks.EncodeEntry(4, [0x79], [0x32]) == [4, 1, 1, 0x79, 0x32]
  {
  }

  /** Log number 9, and file 300 deleted from level 1. */
  lemma EditBytes()
    ensures VersionEdits.Encode(VersionEdits.EMPTY.(logNumber := Some(9), deletedFiles := [(1, 300)]))
         == [2, 9, 6, 1, 0xAC, 0x02]
  {
    Varints();
    var e := VersionEdits.EMPTY.(logNumber := Some(9), deletedFiles := [(1, 300)]);
    var log, file := VersionEdits.LogNumber(9), VersionEdits.DeletedFile(1, 300);
    assert VersionEdits.Fields(e) == [log, file];
    assert [log, file][1..] == [file] && [file][1..] == [];
    assert VersionEdits.EncodeField(log) == [2, 9] && VersionEdits.EncodeField(file) == [6, 1, 0xAC, 0x02];
    assert VersionEdits.EncodeFields([file]) == [6, 1, 0xAC, 0x02];
  }

  /** A log with the one record "a": its checksum, its length, and its type, which is that of a full record. */
  lemma LogBytes(crc: Bytes -> Word)
    ensures Logs.Log(crc, [[0x61]]) == Fixed32(Mask(crc([1, 0x61]))) + [1, 0, 1, 0x61]
    ensures Logs.BLOCK == 32768 && Logs.FULL == 1 && Logs.FIRST == 2 && Logs.MIDDLE == 3 && Logs.LAST == 4
  {
    var record: Bytes := [0x61];
    assert Logs.Fit(0, record) == 1 && Logs.Gap(0) == 0 && record[..1] == record;
    assert Logs.Zeros(0) == [];
    assert [1] + record == [1, 0x61];
    assert Logs.FirstFragment(crc, 0, record, true) == Fixed32(Mask(crc([1, 0x61]))) + [1, 0, 1] + record;
    assert [record][..0] == [];
    assert Logs.Log(crc, []) == [];
    assert Logs.Log(crc, [record]) == [] + Logs.Fragments(crc, 0, record, true);
  }
}
