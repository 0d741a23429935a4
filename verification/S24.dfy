// Decoding of one S24_3LE sample. A Float32 sample in [-1, 1) is represented by
// its exact numerator over 2^23.
module S24 {
  import Bits

  type byte = b: int | 0 <= b < 0x100

  const FULL_SCALE: int := 0x80_0000   // 2^23
  const MODULUS: int := 0x100_0000     // 2^24

  /** Reduction to the range of a signed 32-bit integer. */
  function Wrap32(x: int): (r: int)
    ensures -0x8000_0000 <= r < 0x8000_0000
    ensures (r - x) % 0x1_0000_0000 == 0
  {
    (x + 0x8000_0000) % 0x1_0000_0000 - 0x8000_0000
  }

  /** The 24 bits as one non-negative word; see Bits.OrOfDisjointBytes. */
  function Word(b0: byte, b1: byte, b2: byte): nat {
    b0 + 0x100 * b1 + 0x1_0000 * b2
  }

  /** The numerator the daemon computes: shift left 8 in an i32, then shift
      right 8 arithmetically (a floored division). */
  function Decode(b0: byte, b1: byte, b2: byte): int {
    Wrap32(Word(b0, b1, b2) * 0x100) / 0x100
  }

  /** Two's complement over 24 bits, the format's own definition. */
  function TwosComplement(b0: byte, b1: byte, b2: byte): int {
    var word := Word(b0, b1, b2);
    if b2 < 0x80 then word else word - MODULUS
  }

  function Encode(v: int): (byte, byte, byte) {
    var word := v % MODULUS;
    (word % 0x100, word / 0x100 % 0x100, word / 0x100 / 0x100)
  }

  lemma DecodeIsTwosComplement(b0: byte, b1: byte, b2: byte)
    ensures Decode(b0, b1, b2) == TwosComplement(b0, b1, b2)
    ensures Decode(b0, b1, b2) == b0 + 256 * b1 + 65536 * b2 - (if b2 >= 128 then 16777216 else 0)
    ensures -FULL_SCALE <= Decode(b0, b1, b2) < FULL_SCALE
  {
    var v := TwosComplement(b0, b1, b2);
    assert -FULL_SCALE <= v < FULL_SCALE;
    assert Wrap32(Word(b0, b1, b2) * 0x100) == v * 0x100;
  }

  /** Decoding is a bijection from byte triples onto [-2^23, 2^23). */
  lemma DecodeInvertsEncode(v: int)
    requires -FULL_SCALE <= v < FULL_SCALE
    ensures var (b0, b1, b2) := Encode(v); Decode(b0, b1, b2) == v
  {
    var (b0, b1, b2) := Encode(v);
    BytesOfWord(v % MODULUS);
    hide Decode;
    DecodeIsTwosComplement(b0, b1, b2);
    assert v % MODULUS == if v >= 0 then v else v + MODULUS;
  }

  lemma BytesOfWord(word: nat)
    requires word < MODULUS
    ensures word / 0x100 / 0x100 < 0x100
    ensures Word(word % 0x100, word / 0x100 % 0x100, word / 0x100 / 0x100) == word
  {
    assert word == word % 0x100 + 0x100 * (word / 0x100);
  }

  lemma EncodeInvertsDecode(b0: byte, b1: byte, b2: byte)
    ensures Encode(Decode(b0, b1, b2)) == (b0, b1, b2)
  {
    DecodeIsTwosComplement(b0, b1, b2);
    var word := Word(b0, b1, b2);
    assert Decode(b0, b1, b2) % MODULUS == word;
    Bits.RemainderIsUnique(word, 0x100, b1 + 0x100 * b2, b0);
    Bits.RemainderIsUnique(b1 + 0x100 * b2, 0x100, b2, b1);
  }

  /** The Float32 value lies in [-1, 1). */
  lemma ScaledRange(b0: byte, b1: byte, b2: byte)
    ensures -1.0 <= Decode(b0, b1, b2) as real / FULL_SCALE as real < 1.0
  {
    DecodeIsTwosComplement(b0, b1, b2);
  }
}
