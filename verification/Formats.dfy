/** Stored forms written out: property values, numbers and the checksum. */
module Formats {
  import opened Base
  import opened BinaryCodec
  import opened TextCodec
  import opened PropertyKeys
  import opened CscChunks
  import ArtifactLoads

  /**
   A property value in a key is a letter for its type, then a form that sorts like the value: unsigned numbers in
   twenty digits, signed ones moved up by half the range in sixteen hexadecimal digits, floats by their bits,
   reversed for negative ones and moved up for the others, strings byte by byte.
   */
  lemma {:induction false} ValueForm(v: Value)
    requires InRange(v)
    ensures Encode(v) ==
      match v
      case Bool(b) => if b then "b1" else "b0"
      case Integer(n) => "i" + Padded(n, 20)
      case Signed(i) => "j" + HexPadded(i + 0x8000_0000_0000_0000, 16)
      case Float(bits) =>
        "n" + HexPadded(if bits < 0x8000_0000_0000_0000 then bits + 0x8000_0000_0000_0000 else U64_MAX - bits, 16)
      case Str(bytes) => "s" + HexOf(bytes)
  {
  }

  /** A number in eight bytes has its low byte first. */
  lemma {:induction false} LowByteFirst()
    ensures LeBytes(258, 8) == [2, 1, 0, 0, 0, 0, 0, 0]
  {
    assert LeBytes(0, 6) == [0, 0, 0, 0, 0, 0];
    assert LeBytes(1, 7) == [1] + LeBytes(0, 6);
  }

  lemma {:induction false} XorStep(a: nat, b: nat, bits: nat)
    requires 0 < bits
    ensures Xor(a, b, bits) == (a % 2 + b % 2) % 2 + 2 * Xor(a / 2, b / 2, bits - 1)
    ensures Xor(a, b, 0) == 0
  {
  }

  lemma {:induction false} XorLow()
    ensures Xor(0x25, 0x61, 8) == 0x44
  {
    hide Xor;
    XorStep(0x25, 0x61, 8);
    XorStep(0x12, 0x30, 7);
    XorStep(0x9, 0x18, 6);
    XorStep(0x4, 0xc, 5);
    XorStep(0x2, 0x6, 4);
    XorStep(0x1, 0x3, 3);
    XorStep(0x0, 0x1, 2);
    XorStep(0x0, 0x0, 1);
  }

  lemma {:induction false} OneProduct(x: nat)
    requires x == 0xcbf2_9ce4_8422_2344
    ensures x * 0x100_0000_01b3 % 0x1_0000_0000_0000_0000 == 0xaf63_dc4c_8601_ec8c
  {
  }

  /** The checksum of the single byte 97 is the published value of 64-bit FNV-1a for it. */
  lemma {:induction false} FnvVector()
    ensures MixBytes(SEED, [0x61]) == 0xaf63_dc4c_8601_ec8c
  {
    hide MixBytes;
    hide MixByte;
    hide Xor;
    XorLow();
    ArtifactLoads.MixOne(SEED, 0x61);
    ArtifactLoads.MixByteIs(SEED, 0x61);
    assert SEED % 256 == 0x25 && SEED / 256 * 256 + 0x44 == 0xcbf2_9ce4_8422_2344;
    OneProduct(SEED / 256 * 256 + 0x44);
  }
}
