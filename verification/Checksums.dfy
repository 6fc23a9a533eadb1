/** crc32c.h: a checksum is masked before it is stored.  The checksum itself is a parameter of the modules that use
    one: they hold for any function from bytes to 32-bit words. */
module Checksums {
  import opened Coding

  const MASK_DELTA: nat := 0xA282_EAD8

  /** Rotate right by 15 bits and add a constant. */
  function Mask(crc: Word): Word {
    (crc / 0x8000 + crc % 0x8000 * 0x2_0000 + MASK_DELTA) % TWO32
  }

  function Unmask(masked: Word): Word {
    var rotated := (masked + TWO32 - MASK_DELTA) % TWO32;
    rotated / 0x2_0000 + rotated % 0x2_0000 * 0x8000
  }

  lemma UnmaskMask(crc: Word)
    ensures Unmask(Mask(crc)) == crc
  {
    var rotated := crc / 0x8000 + crc % 0x8000 * 0x2_0000;
    assert (Mask(crc) + TWO32 - MASK_DELTA) % TWO32 == rotated;
    assert rotated / 0x2_0000 == crc % 0x8000 by {
      assert crc / 0x8000 < 0x2_0000;
    }
  }

  lemma MaskUnmask(masked: Word)
    ensures Mask(Unmask(masked)) == masked
  {
    var rotated := (masked + TWO32 - MASK_DELTA) % TWO32;
    var crc := rotated / 0x2_0000 + rotated % 0x2_0000 * 0x8000;
    assert crc / 0x8000 == rotated % 0x2_0000 && crc % 0x8000 == rotated / 0x2_0000 by {
      assert rotated / 0x2_0000 < 0x8000;
    }
  }
}
