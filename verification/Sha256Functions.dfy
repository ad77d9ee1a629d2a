/** The functions of section 4.1.2 of FIPS 180-4. */
module Sha256Functions {
  function Rotr(x: bv32, n: bv32): bv32
    requires 0 < n < 32
  {
    (x >> n) | (x << (32 - n))
  }

  function Ch(x: bv32, y: bv32, z: bv32): bv32 {
    (x & y) ^ (!x & z)
  }

  function Maj(x: bv32, y: bv32, z: bv32): bv32 {
    (x & y) ^ (x & z) ^ (y & z)
  }

  /** Ch chooses between `y` and `z` bit by bit. */
  lemma ChChooses(x: bv32, y: bv32, z: bv32)
    ensures (Ch(x, y, z) & x) == (y & x) && (Ch(x, y, z) & !x) == (z & !x)
  {
  }

  lemma MajIsMajority(x: bv32, y: bv32, z: bv32)
    ensures Maj(x, y, z) == (x & y) | (x & z) | (y & z)
  {
  }

  function Xor(x: bv32, y: bv32): bv32 {
    x ^ y
  }

  function BigSigma0(x: bv32): bv32 {
    Xor(Xor(Rotr(x, 2), Rotr(x, 13)), Rotr(x, 22))
  }

  function BigSigma1(x: bv32): bv32 {
    Xor(Xor(Rotr(x, 6), Rotr(x, 11)), Rotr(x, 25))
  }

  function SmallSigma0(x: bv32): bv32 {
    Xor(Xor(Rotr(x, 7), Rotr(x, 18)), x >> 3)
  }

  function SmallSigma1(x: bv32): bv32 {
    Xor(Xor(Rotr(x, 17), Rotr(x, 19)), x >> 10)
  }

  /** Bit `i`, the least significant one first. */
  function Bit(x: bv32, i: bv32): bv32
    requires i < 32
  {
    (x >> i) & 1
  }

  lemma BitOfPower(i: bv32, j: bv32)
    requires i < 32 && j < 32
    ensures Bit(1 << j, i) == if i == j then 1 else 0
  {
  }

  /** `n` places up from `i`, around the end of the word. */
  function Up(i: bv32, n: bv32): (j: bv32)
    requires i < 32 && n < 32
    ensures j < 32
  {
    (i + n) & 31
  }

  /** Bit `i` of a word shifted right by `n`. */
  function ShiftedBit(x: bv32, n: bv32, i: bv32): bv32
    requires n < 32 && i < 32
  {
    if i < 32 - n then Bit(x, i + n) else 0
  }

  lemma RotrBit2(x: bv32, i: bv32)
    requires i < 32
    ensures Bit(Rotr(x, 2), i) == Bit(x, Up(i, 2))
  {
  }

  lemma RotrBit6(x: bv32, i: bv32)
    requires i < 32
    ensures Bit(Rotr(x, 6), i) == Bit(x, Up(i, 6))
  {
  }

  lemma RotrBit7(x: bv32, i: bv32)
    requires i < 32
    ensures Bit(Rotr(x, 7), i) == Bit(x, Up(i, 7))
  {
  }

  lemma RotrBit11(x: bv32, i: bv32)
    requires i < 32
    ensures Bit(Rotr(x, 11), i) == Bit(x, Up(i, 11))
  {
  }

  lemma RotrBit13(x: bv32, i: bv32)
    requires i < 32
    ensures Bit(Rotr(x, 13), i) == Bit(x, Up(i, 13))
  {
  }

  lemma RotrBit17(x: bv32, i: bv32)
    requires i < 32
    ensures Bit(Rotr(x, 17), i) == Bit(x, Up(i, 17))
  {
  }

  lemma RotrBit18(x: bv32, i: bv32)
    requires i < 32
    ensures Bit(Rotr(x, 18), i) == Bit(x, Up(i, 18))
  {
  }

  lemma RotrBit19(x: bv32, i: bv32)
    requires i < 32
    ensures Bit(Rotr(x, 19), i) == Bit(x, Up(i, 19))
  {
  }

  lemma RotrBit22(x: bv32, i: bv32)
    requires i < 32
    ensures Bit(Rotr(x, 22), i) == Bit(x, Up(i, 22))
  {
  }

  lemma RotrBit25(x: bv32, i: bv32)
    requires i < 32
    ensures Bit(Rotr(x, 25), i) == Bit(x, Up(i, 25))
  {
  }

  lemma ShiftBit(x: bv32, i: bv32)
    requires i < 32
    ensures Bit(x >> 3, i) == ShiftedBit(x, 3, i) && Bit(x >> 10, i) == ShiftedBit(x, 10, i)
  {
  }

  lemma XorBit(x: bv32, y: bv32, i: bv32)
    requires i < 32
    ensures Bit(Xor(x, y), i) == Xor(Bit(x, i), Bit(y, i))
  {
  }

  lemma XorBits(x: bv32, y: bv32, z: bv32, i: bv32)
    requires i < 32
    ensures Bit(Xor(Xor(x, y), z), i) == Xor(Xor(Bit(x, i), Bit(y, i)), Bit(z, i))
  {
    hide Bit, Xor;
    XorBit(x, y, i);
    XorBit(Xor(x, y), z, i);
  }

  /** The four functions bit by bit, with the rotations and shifts of section 4.1.2. */
  lemma SigmaBits(x: bv32, i: bv32)
    requires i < 32
    ensures Bit(BigSigma0(x), i) == Xor(Xor(Bit(x, Up(i, 2)), Bit(x, Up(i, 13))), Bit(x, Up(i, 22)))
    ensures Bit(BigSigma1(x), i) == Xor(Xor(Bit(x, Up(i, 6)), Bit(x, Up(i, 11))), Bit(x, Up(i, 25)))
    ensures Bit(SmallSigma0(x), i) == Xor(Xor(Bit(x, Up(i, 7)), Bit(x, Up(i, 18))), ShiftedBit(x, 3, i))
    ensures Bit(SmallSigma1(x), i) == Xor(Xor(Bit(x, Up(i, 17)), Bit(x, Up(i, 19))), ShiftedBit(x, 10, i))
  {
    hide Bit, Rotr, Up, Xor, ShiftedBit;
    RotrBit2(x, i);
    RotrBit6(x, i);
    RotrBit7(x, i);
    RotrBit11(x, i);
    RotrBit13(x, i);
    RotrBit17(x, i);
    RotrBit18(x, i);
    RotrBit19(x, i);
    RotrBit22(x, i);
    RotrBit25(x, i);
    ShiftBit(x, i);
    XorBits(Rotr(x, 2), Rotr(x, 13), Rotr(x, 22), i);
    XorBits(Rotr(x, 6), Rotr(x, 11), Rotr(x, 25), i);
    XorBits(Rotr(x, 7), Rotr(x, 18), x >> 3, i);
    XorBits(Rotr(x, 17), Rotr(x, 19), x >> 10, i);
  }
}
