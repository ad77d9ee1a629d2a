/**
 The digest of "abc", worked through round by round, with all intermediate values.
 */
module Sha256Sample {
  import opened Machine
  import opened Sha256Functions
  import opened Sha256Spec

  const MESSAGE: seq<octet> := [0x61, 0x62, 0x63]

  /** The message schedule. */
  const WORDS: seq<seq<bv32>> := [
    [0x61626380, 0x00000000, 0x00000000, 0x00000000, 0x00000000, 0x00000000, 0x00000000, 0x00000000],
    [0x00000000, 0x00000000, 0x00000000, 0x00000000, 0x00000000, 0x00000000, 0x00000000, 0x00000018],
    [0x61626380, 0x000f0000, 0x7da86405, 0x600003c6, 0x3e9d7b78, 0x0183fc00, 0x12dcbfdb, 0xe2e2c38e],
    [0xc8215c1a, 0xb73679a2, 0xe5bc3909, 0x32663c5b, 0x9d209d67, 0xec8726cb, 0x702138a4, 0xd3b7973b],
    [0x93f5997f, 0x3b68ba73, 0xaff4ffc1, 0xf10a5c62, 0x0a8b3996, 0x72af830a, 0x9409e33e, 0x24641522],
    [0x9f47bf94, 0xf0a64f5a, 0x3e246a79, 0x27333ba3, 0x0c4763f2, 0x840abf27, 0x7a290d5d, 0x065c43da],
    [0xfb3e89cb, 0xcc7617db, 0xb9e66c34, 0xa9993667, 0x84badedd, 0xc21462bc, 0x1487472c, 0xb20f7a99],
    [0xef57b9cd, 0xebe6b238, 0x9fe3095e, 0x78bc8d4b, 0xa43fcf15, 0x668b2ff8, 0xeeaba2cc, 0x12b1edeb]
  ]

  /** The registers a and e: first d, c, b, a and h, g, f, e of the start, then one value for each round. */
  const REGISTER_A: seq<seq<bv32>> := [
    [0xa54ff53a, 0x3c6ef372, 0xbb67ae85, 0x6a09e667, 0x5d6aebcd, 0x5a6ad9ad, 0xc8c347a7, 0xd550f666],
    [0x04409a6a, 0x2b4209f5, 0xe5030380, 0x85a07b5f, 0x8e04ecb9, 0x8c87346b, 0x4798a3f4, 0xf71fc5a9],
    [0x87912990, 0xd932eb16, 0xc0645fde, 0xb0fa238e, 0x21da9a9b, 0xc2fbd9d1, 0xfe777bbf, 0xe1f20c33],
    [0x9dc68b63, 0xc2606d6d, 0xa7a3623f, 0xc5d53d8d, 0x1c2c2838, 0xcde8037d, 0xb62ec4bc, 0x77d37528],
    [0x363482c9, 0xa0060b30, 0xea992a22, 0x73b33bf5, 0x98e12507, 0xfe604df5, 0xa9a7738c, 0x65a0cfe4],
    [0x41a65cb1, 0x34df1604, 0x6dc57a8a, 0x79ea687a, 0xd6670766, 0xdf46652f, 0x17aa0dfe, 0x9d4baf93],
    [0x26628815, 0x72ab4b91, 0xa14c14b0, 0x4172328d, 0x05757ceb, 0xf11bfaa8, 0x7a0508a1, 0x886e7a22],
    [0x101fd28f, 0xf5702fdb, 0x3ec45cdb, 0x38cc9913, 0xfcd1887b, 0xc062d46f, 0xffb70472, 0xb6ae8fff],
    [0xb85e2ce9, 0x04d24d6c, 0xd39a2165, 0x506e3058]
  ]

  const REGISTER_E: seq<seq<bv32>> := [
    [0x5be0cd19, 0x1f83d9ab, 0x9b05688c, 0x510e527f, 0xfa2a4622, 0x78ce7989, 0xf92939eb, 0x24e00850],
    [0x43ada245, 0x714260ad, 0x9b27a401, 0x0c657a79, 0x32ca2d8c, 0x1cc92596, 0x436b23e8, 0x816fd6e9],
    [0x1e578218, 0x745a48de, 0x0b92f20c, 0x07590dcd, 0x8034229c, 0x846ee454, 0xcc899961, 0xb0638179],
    [0x8ada8930, 0xe1257970, 0x49f5114a, 0xaa47c347, 0x2823ef91, 0x14383d8e, 0xc74c6516, 0xedffbff8],
    [0x6112a3b7, 0xade79437, 0x0109ab3a, 0xba591112, 0x9cd9f5f6, 0x59249dd3, 0x085f3833, 0xf4b002d6],
    [0x0772a26b, 0xa507a53d, 0xf0781bc8, 0x1efbc0a0, 0x26352d63, 0x838b2711, 0xdecd4715, 0xfda24c2e],
    [0xa80f11f0, 0xb7755da1, 0xd57b94a9, 0xfecf0bc6, 0xbd714038, 0x6e5c390c, 0x52f1ccf7, 0x49231c1e],
    [0x529e7d00, 0x9f4787c3, 0xe50e1b4f, 0x54cb266b, 0x9b5e906c, 0x7e44008e, 0x6d83bfc6, 0xb21bad3d],
    [0x961f4894, 0x948d25b6, 0xfb121210, 0x5ef50f24]
  ]

  const RESULT: seq<octet> := [
    0xba, 0x78, 0x16, 0xbf, 0x8f, 0x01, 0xcf, 0xea, 0x41, 0x41, 0x40, 0xde, 0x5d, 0xae, 0x22, 0x23,
    0xb0, 0x03, 0x61, 0xa3, 0x96, 0x17, 0x7a, 0x9c, 0xb4, 0x10, 0xff, 0x61, 0xf2, 0x00, 0x15, 0xad
  ]

  function WordAt(t: nat): bv32
    requires t < 64
  {
    WORDS[t / 8][t % 8]
  }

  function A(i: nat): bv32
    requires i < 68
  {
    REGISTER_A[i / 8][i % 8]
  }

  function E(i: nat): bv32
    requires i < 68
  {
    REGISTER_E[i / 8][i % 8]
  }

  /** The eight registers before round `t`. */
  function State(t: nat): Hash
    requires t <= 64
  {
    Hash(A(t + 3), A(t + 2), A(t + 1), A(t), E(t + 3), E(t + 2), E(t + 1), E(t))
  }

  predicate WordRight(t: nat)
    requires 16 <= t < 64
  {
    WordAt(t)
    == Add(Add(Add(SmallSigma1(WordAt(t - 2)), WordAt(t - 7)), SmallSigma0(WordAt(t - 15))), WordAt(t - 16))
  }

  predicate RoundRight(t: nat)
    requires t < 64
  {
    Round(State(t), RoundConstant(t), WordAt(t)) == State(t + 1)
  }

  // ----- the rows of the tables

  lemma RowOfWords0()
    ensures WordAt(0) == 0x61626380 && WordAt(1) == 0x00000000 && WordAt(2) == 0x00000000 && WordAt(3) == 0x00000000
      && WordAt(4) == 0x00000000 && WordAt(5) == 0x00000000 && WordAt(6) == 0x00000000 && WordAt(7) == 0x00000000
  {
  }

  lemma RowOfWords1()
    ensures WordAt(8) == 0x00000000 && WordAt(9) == 0x00000000 && WordAt(10) == 0x00000000 && WordAt(11) == 0x00000000
      && WordAt(12) == 0x00000000 && WordAt(13) == 0x00000000 && WordAt(14) == 0x00000000 && WordAt(15) == 0x00000018
  {
  }

  lemma RowOfWords2()
    ensures WordAt(16) == 0x61626380 && WordAt(17) == 0x000f0000 && WordAt(18) == 0x7da86405
      && WordAt(19) == 0x600003c6 && WordAt(20) == 0x3e9d7b78 && WordAt(21) == 0x0183fc00 && WordAt(22) == 0x12dcbfdb
      && WordAt(23) == 0xe2e2c38e
  {
  }

  lemma RowOfWords3()
    ensures WordAt(24) == 0xc8215c1a && WordAt(25) == 0xb73679a2 && WordAt(26) == 0xe5bc3909
      && WordAt(27) == 0x32663c5b && WordAt(28) == 0x9d209d67 && WordAt(29) == 0xec8726cb && WordAt(30) == 0x702138a4
      && WordAt(31) == 0xd3b7973b
  {
  }

  lemma RowOfWords4()
    ensures WordAt(32) == 0x93f5997f && WordAt(33) == 0x3b68ba73 && WordAt(34) == 0xaff4ffc1
      && WordAt(35) == 0xf10a5c62 && WordAt(36) == 0x0a8b3996 && WordAt(37) == 0x72af830a && WordAt(38) == 0x9409e33e
      && WordAt(39) == 0x24641522
  {
  }

  lemma RowOfWords5()
    ensures WordAt(40) == 0x9f47bf94 && WordAt(41) == 0xf0a64f5a && WordAt(42) == 0x3e246a79
      && WordAt(43) == 0x27333ba3 && WordAt(44) == 0x0c4763f2 && WordAt(45) == 0x840abf27 && WordAt(46) == 0x7a290d5d
      && WordAt(47) == 0x065c43da
  {
  }

  lemma RowOfWords6()
    ensures WordAt(48) == 0xfb3e89cb && WordAt(49) == 0xcc7617db && WordAt(50) == 0xb9e66c34
      && WordAt(51) == 0xa9993667 && WordAt(52) == 0x84badedd && WordAt(53) == 0xc21462bc && WordAt(54) == 0x1487472c
      && WordAt(55) == 0xb20f7a99
  {
  }

  lemma RowOfWords7()
    ensures WordAt(56) == 0xef57b9cd && WordAt(57) == 0xebe6b238 && WordAt(58) == 0x9fe3095e
      && WordAt(59) == 0x78bc8d4b && WordAt(60) == 0xa43fcf15 && WordAt(61) == 0x668b2ff8 && WordAt(62) == 0xeeaba2cc
      && WordAt(63) == 0x12b1edeb
  {
  }

  lemma RowOfA0()
    ensures A(0) == 0xa54ff53a && A(1) == 0x3c6ef372 && A(2) == 0xbb67ae85 && A(3) == 0x6a09e667 && A(4) == 0x5d6aebcd
      && A(5) == 0x5a6ad9ad && A(6) == 0xc8c347a7 && A(7) == 0xd550f666
  {
  }

  lemma RowOfA1()
    ensures A(8) == 0x04409a6a && A(9) == 0x2b4209f5 && A(10) == 0xe5030380 && A(11) == 0x85a07b5f
      && A(12) == 0x8e04ecb9 && A(13) == 0x8c87346b && A(14) == 0x4798a3f4 && A(15) == 0xf71fc5a9
  {
  }

  lemma RowOfA2()
    ensures A(16) == 0x87912990 && A(17) == 0xd932eb16 && A(18) == 0xc0645fde && A(19) == 0xb0fa238e
      && A(20) == 0x21da9a9b && A(21) == 0xc2fbd9d1 && A(22) == 0xfe777bbf && A(23) == 0xe1f20c33
  {
  }

  lemma RowOfA3()
    ensures A(24) == 0x9dc68b63 && A(25) == 0xc2606d6d && A(26) == 0xa7a3623f && A(27) == 0xc5d53d8d
      && A(28) == 0x1c2c2838 && A(29) == 0xcde8037d && A(30) == 0xb62ec4bc && A(31) == 0x77d37528
  {
  }

  lemma RowOfA4()
    ensures A(32) == 0x363482c9 && A(33) == 0xa0060b30 && A(34) == 0xea992a22 && A(35) == 0x73b33bf5
      && A(36) == 0x98e12507 && A(37) == 0xfe604df5 && A(38) == 0xa9a7738c && A(39) == 0x65a0cfe4
  {
  }

  lemma RowOfA5()
    ensures A(40) == 0x41a65cb1 && A(41) == 0x34df1604 && A(42) == 0x6dc57a8a && A(43) == 0x79ea687a
      && A(44) == 0xd6670766 && A(45) == 0xdf46652f && A(46) == 0x17aa0dfe && A(47) == 0x9d4baf93
  {
  }

  lemma RowOfA6()
    ensures A(48) == 0x26628815 && A(49) == 0x72ab4b91 && A(50) == 0xa14c14b0 && A(51) == 0x4172328d
      && A(52) == 0x05757ceb && A(53) == 0xf11bfaa8 && A(54) == 0x7a0508a1 && A(55) == 0x886e7a22
  {
  }

  lemma RowOfA7()
    ensures A(56) == 0x101fd28f && A(57) == 0xf5702fdb && A(58) == 0x3ec45cdb && A(59) == 0x38cc9913
      && A(60) == 0xfcd1887b && A(61) == 0xc062d46f && A(62) == 0xffb70472 && A(63) == 0xb6ae8fff
  {
  }

  lemma RowOfA8()
    ensures A(64) == 0xb85e2ce9 && A(65) == 0x04d24d6c && A(66) == 0xd39a2165 && A(67) == 0x506e3058
  {
  }

  lemma RowOfE0()
    ensures E(0) == 0x5be0cd19 && E(1) == 0x1f83d9ab && E(2) == 0x9b05688c && E(3) == 0x510e527f && E(4) == 0xfa2a4622
      && E(5) == 0x78ce7989 && E(6) == 0xf92939eb && E(7) == 0x24e00850
  {
  }

  lemma RowOfE1()
    ensures E(8) == 0x43ada245 && E(9) == 0x714260ad && E(10) == 0x9b27a401 && E(11) == 0x0c657a79
      && E(12) == 0x32ca2d8c && E(13) == 0x1cc92596 && E(14) == 0x436b23e8 && E(15) == 0x816fd6e9
  {
  }

  lemma RowOfE2()
    ensures E(16) == 0x1e578218 && E(17) == 0x745a48de && E(18) == 0x0b92f20c && E(19) == 0x07590dcd
      && E(20) == 0x8034229c && E(21) == 0x846ee454 && E(22) == 0xcc899961 && E(23) == 0xb0638179
  {
  }

  lemma RowOfE3()
    ensures E(24) == 0x8ada8930 && E(25) == 0xe1257970 && E(26) == 0x49f5114a && E(27) == 0xaa47c347
      && E(28) == 0x2823ef91 && E(29) == 0x14383d8e && E(30) == 0xc74c6516 && E(31) == 0xedffbff8
  {
  }

  lemma RowOfE4()
    ensures E(32) == 0x6112a3b7 && E(33) == 0xade79437 && E(34) == 0x0109ab3a && E(35) == 0xba591112
      && E(36) == 0x9cd9f5f6 && E(37) == 0x59249dd3 && E(38) == 0x085f3833 && E(39) == 0xf4b002d6
  {
  }

  lemma RowOfE5()
    ensures E(40) == 0x0772a26b && E(41) == 0xa507a53d && E(42) == 0xf0781bc8 && E(43) == 0x1efbc0a0
      && E(44) == 0x26352d63 && E(45) == 0x838b2711 && E(46) == 0xdecd4715 && E(47) == 0xfda24c2e
  {
  }

  lemma RowOfE6()
    ensures E(48) == 0xa80f11f0 && E(49) == 0xb7755da1 && E(50) == 0xd57b94a9 && E(51) == 0xfecf0bc6
      && E(52) == 0xbd714038 && E(53) == 0x6e5c390c && E(54) == 0x52f1ccf7 && E(55) == 0x49231c1e
  {
  }

  lemma RowOfE7()
    ensures E(56) == 0x529e7d00 && E(57) == 0x9f4787c3 && E(58) == 0xe50e1b4f && E(59) == 0x54cb266b
      && E(60) == 0x9b5e906c && E(61) == 0x7e44008e && E(62) == 0x6d83bfc6 && E(63) == 0xb21bad3d
  {
  }

  lemma RowOfE8()
    ensures E(64) == 0x961f4894 && E(65) == 0x948d25b6 && E(66) == 0xfb121210 && E(67) == 0x5ef50f24
  {
  }

  lemma RowOfConstants0()
    ensures RoundConstant(0) == 0x428a2f98 && RoundConstant(1) == 0x71374491 && RoundConstant(2) == 0xb5c0fbcf
      && RoundConstant(3) == 0xe9b5dba5 && RoundConstant(4) == 0x3956c25b && RoundConstant(5) == 0x59f111f1
      && RoundConstant(6) == 0x923f82a4 && RoundConstant(7) == 0xab1c5ed5
  {
  }

  lemma RowOfConstants1()
    ensures RoundConstant(8) == 0xd807aa98 && RoundConstant(9) == 0x12835b01 && RoundConstant(10) == 0x243185be
      && RoundConstant(11) == 0x550c7dc3 && RoundConstant(12) == 0x72be5d74 && RoundConstant(13) == 0x80deb1fe
      && RoundConstant(14) == 0x9bdc06a7 && RoundConstant(15) == 0xc19bf174
  {
  }

  lemma RowOfConstants2()
    ensures RoundConstant(16) == 0xe49b69c1 && RoundConstant(17) == 0xefbe4786 && RoundConstant(18) == 0x0fc19dc6
      && RoundConstant(19) == 0x240ca1cc && RoundConstant(20) == 0x2de92c6f && RoundConstant(21) == 0x4a7484aa
      && RoundConstant(22) == 0x5cb0a9dc && RoundConstant(23) == 0x76f988da
  {
  }

  lemma RowOfConstants3()
    ensures RoundConstant(24) == 0x983e5152 && RoundConstant(25) == 0xa831c66d && RoundConstant(26) == 0xb00327c8
      && RoundConstant(27) == 0xbf597fc7 && RoundConstant(28) == 0xc6e00bf3 && RoundConstant(29) == 0xd5a79147
      && RoundConstant(30) == 0x06ca6351 && RoundConstant(31) == 0x14292967
  {
  }

  lemma RowOfConstants4()
    ensures RoundConstant(32) == 0x27b70a85 && RoundConstant(33) == 0x2e1b2138 && RoundConstant(34) == 0x4d2c6dfc
      && RoundConstant(35) == 0x53380d13 && RoundConstant(36) == 0x650a7354 && RoundConstant(37) == 0x766a0abb
      && RoundConstant(38) == 0x81c2c92e && RoundConstant(39) == 0x92722c85
  {
  }

  lemma RowOfConstants5()
    ensures RoundConstant(40) == 0xa2bfe8a1 && RoundConstant(41) == 0xa81a664b && RoundConstant(42) == 0xc24b8b70
      && RoundConstant(43) == 0xc76c51a3 && RoundConstant(44) == 0xd192e819 && RoundConstant(45) == 0xd6990624
      && RoundConstant(46) == 0xf40e3585 && RoundConstant(47) == 0x106aa070
  {
  }

  lemma RowOfConstants6()
    ensures RoundConstant(48) == 0x19a4c116 && RoundConstant(49) == 0x1e376c08 && RoundConstant(50) == 0x2748774c
      && RoundConstant(51) == 0x34b0bcb5 && RoundConstant(52) == 0x391c0cb3 && RoundConstant(53) == 0x4ed8aa4a
      && RoundConstant(54) == 0x5b9cca4f && RoundConstant(55) == 0x682e6ff3
  {
  }

  lemma RowOfConstants7()
    ensures RoundConstant(56) == 0x748f82ee && RoundConstant(57) == 0x78a5636f && RoundConstant(58) == 0x84c87814
      && RoundConstant(59) == 0x8cc70208 && RoundConstant(60) == 0x90befffa && RoundConstant(61) == 0xa4506ceb
      && RoundConstant(62) == 0xbef9a3f7 && RoundConstant(63) == 0xc67178f2
  {
  }

  // ----- eight rounds at a time

  lemma Rounds0()
    ensures RoundRight(0) && RoundRight(1) && RoundRight(2) && RoundRight(3)
    ensures RoundRight(4) && RoundRight(5) && RoundRight(6) && RoundRight(7)
  {
    hide A, E, RoundConstant, WordAt;
    RowOfA0();
    RowOfA1();
    RowOfE0();
    RowOfE1();
    RowOfWords0();
    RowOfConstants0();
  }

  lemma Rounds8()
    ensures RoundRight(8) && RoundRight(9) && RoundRight(10) && RoundRight(11)
    ensures RoundRight(12) && RoundRight(13) && RoundRight(14) && RoundRight(15)
  {
    hide A, E, RoundConstant, WordAt;
    RowOfA1();
    RowOfA2();
    RowOfE1();
    RowOfE2();
    RowOfWords1();
    RowOfConstants1();
  }

  lemma Rounds16()
    ensures RoundRight(16) && RoundRight(17) && RoundRight(18) && RoundRight(19)
    ensures RoundRight(20) && RoundRight(21) && RoundRight(22) && RoundRight(23)
  {
    hide A, E, RoundConstant, WordAt;
    RowOfA2();
    RowOfA3();
    RowOfE2();
    RowOfE3();
    RowOfWords2();
    RowOfConstants2();
  }

  lemma Words16()
    ensures WordRight(16) && WordRight(17) && WordRight(18) && WordRight(19)
    ensures WordRight(20) && WordRight(21) && WordRight(22) && WordRight(23)
  {
    hide WordAt;
    RowOfWords0();
    RowOfWords1();
    RowOfWords2();
  }

  lemma Rounds24()
    ensures RoundRight(24) && RoundRight(25) && RoundRight(26) && RoundRight(27)
    ensures RoundRight(28) && RoundRight(29) && RoundRight(30) && RoundRight(31)
  {
    hide A, E, RoundConstant, WordAt;
    RowOfA3();
    RowOfA4();
    RowOfE3();
    RowOfE4();
    RowOfWords3();
    RowOfConstants3();
  }

  lemma Words24()
    ensures WordRight(24) && WordRight(25) && WordRight(26) && WordRight(27)
    ensures WordRight(28) && WordRight(29) && WordRight(30) && WordRight(31)
  {
    hide WordAt;
    RowOfWords1();
    RowOfWords2();
    RowOfWords3();
  }

  lemma Rounds32()
    ensures RoundRight(32) && RoundRight(33) && RoundRight(34) && RoundRight(35)
    ensures RoundRight(36) && RoundRight(37) && RoundRight(38) && RoundRight(39)
  {
    hide A, E, RoundConstant, WordAt;
    RowOfA4();
    RowOfA5();
    RowOfE4();
    RowOfE5();
    RowOfWords4();
    RowOfConstants4();
  }

  lemma Words32()
    ensures WordRight(32) && WordRight(33) && WordRight(34) && WordRight(35)
    ensures WordRight(36) && WordRight(37) && WordRight(38) && WordRight(39)
  {
    hide WordAt;
    RowOfWords2();
    RowOfWords3();
    RowOfWords4();
  }

  lemma Rounds40()
    ensures RoundRight(40) && RoundRight(41) && RoundRight(42) && RoundRight(43)
    ensures RoundRight(44) && RoundRight(45) && RoundRight(46) && RoundRight(47)
  {
    hide A, E, RoundConstant, WordAt;
    RowOfA5();
    RowOfA6();
    RowOfE5();
    RowOfE6();
    RowOfWords5();
    RowOfConstants5();
  }

  lemma Words40()
    ensures WordRight(40) && WordRight(41) && WordRight(42) && WordRight(43)
    ensures WordRight(44) && WordRight(45) && WordRight(46) && WordRight(47)
  {
    hide WordAt;
    RowOfWords3();
    RowOfWords4();
    RowOfWords5();
  }

  lemma Rounds48()
    ensures RoundRight(48) && RoundRight(49) && RoundRight(50) && RoundRight(51)
    ensures RoundRight(52) && RoundRight(53) && RoundRight(54) && RoundRight(55)
  {
    hide A, E, RoundConstant, WordAt;
    RowOfA6();
    RowOfA7();
    RowOfE6();
    RowOfE7();
    RowOfWords6();
    RowOfConstants6();
  }

  lemma Words48()
    ensures WordRight(48) && WordRight(49) && WordRight(50) && WordRight(51)
    ensures WordRight(52) && WordRight(53) && WordRight(54) && WordRight(55)
  {
    hide WordAt;
    RowOfWords4();
    RowOfWords5();
    RowOfWords6();
  }

  lemma Rounds56()
    ensures RoundRight(56) && RoundRight(57) && RoundRight(58) && RoundRight(59)
    ensures RoundRight(60) && RoundRight(61) && RoundRight(62) && RoundRight(63)
  {
    hide A, E, RoundConstant, WordAt;
    RowOfA7();
    RowOfA8();
    RowOfE7();
    RowOfE8();
    RowOfWords7();
    RowOfConstants7();
  }

  lemma Words56()
    ensures WordRight(56) && WordRight(57) && WordRight(58) && WordRight(59)
    ensures WordRight(60) && WordRight(61) && WordRight(62) && WordRight(63)
  {
    hide WordAt;
    RowOfWords5();
    RowOfWords6();
    RowOfWords7();
  }

  lemma EarlyRound(t: nat)
    requires 0 <= t < 32
    ensures RoundRight(t) && (t >= 16 ==> WordRight(t))
  {
    hide RoundRight, WordRight;
    if t < 8 {
      Rounds0();
    } else if t < 16 {
      Rounds8();
    } else if t < 24 {
      Rounds16();
      Words16();
    } else {
      Rounds24();
      Words24();
    }
  }

  lemma LateRound(t: nat)
    requires 32 <= t < 64
    ensures RoundRight(t) && (t >= 16 ==> WordRight(t))
  {
    hide RoundRight, WordRight;
    if t < 40 {
      Rounds32();
      Words32();
    } else if t < 48 {
      Rounds40();
      Words40();
    } else if t < 56 {
      Rounds48();
      Words48();
    } else {
      Rounds56();
      Words56();
    }
  }

  lemma EveryRound(t: nat)
    requires t < 64
    ensures RoundRight(t) && (t >= 16 ==> WordRight(t))
  {
    hide RoundRight, WordRight;
    if t < 32 {
      EarlyRound(t);
    } else {
      LateRound(t);
    }
  }

  // ----- the block

  const BLOCK: seq<octet> := MESSAGE + [0x80] + Zeros(52) + LengthField(3)

  lemma LengthOfThree()
    ensures LengthField(3) == [0, 0, 0, 0, 0, 0, 0, 24]
  {
    WeightsGrow();
    assert OctetOf(24, 0) == 24;
    forall i | 1 <= i < 8
      ensures OctetOf(24, i) == 0
    {
      LargeWeight(i);
      SmallQuotient(24, Weight(i));
    }
  }

  lemma WeightsGrow()
    ensures Weight(0) == 1 && Weight(1) == 0x100
  {
  }

  lemma {:induction false} LargeWeight(i: nat)
    requires i >= 1
    ensures Weight(i) >= 0x100
  {
    if i > 1 {
      LargeWeight(i - 1);
    }
  }

  lemma SmallQuotient(x: nat, y: nat)
    requires x < y
    ensures x / y == 0
  {
  }

  lemma PaddedMessage()
    ensures Pad(MESSAGE) == BLOCK && |BLOCK| == 64
  {
    assert ZeroCount(3) == 52;
  }

  lemma FirstWords(t: nat)
    requires t < 16
    ensures |BLOCK| == 64 && BlockWord(BLOCK, t) == WordAt(t)
  {
    LengthOfThree();
    assert t == 0 || t == 15 || 1 <= t < 15;
    hide WordOf;
    Joined();
    if 1 <= t < 15 {
      assert BLOCK[4 * t] == 0 && BLOCK[4 * t + 1] == 0 && BLOCK[4 * t + 2] == 0 && BLOCK[4 * t + 3] == 0;
      ZeroWords(t);
    }
  }

  lemma Joined()
    ensures WordOf(0x61, 0x62, 0x63, 0x80) == 0x6162_6380 && WordOf(0, 0, 0, 24) == 24 && WordOf(0, 0, 0, 0) == 0
  {
  }

  lemma ZeroWords(t: nat)
    requires 1 <= t < 15
    ensures WordAt(t) == 0
  {
  }

  /** The first words of the schedule. */
  predicate Matches(w: seq<bv32>, n: nat)
    requires n <= 64
  {
    |w| == n && forall t :: 0 <= t < n ==> w[t] == WordAt(t)
  }

  lemma OneMore(w: seq<bv32>, n: nat, next: bv32)
    requires n < 64 && Matches(w, n) && next == WordAt(n)
    ensures Matches(w + [next], n + 1)
  {
    hide WordAt;
  }

  lemma ScheduleTurn(block: seq<octet>, n: nat)
    requires |block| == 64 && 1 <= n <= 64
    ensures Schedule(block, n) == Schedule(block, n - 1)
      + [if n <= 16 then BlockWord(block, n - 1) else NextWord(Schedule(block, n - 1))]
  {
    hide NextWord, BlockWord;
  }

  lemma {:induction false} ScheduleIs(block: seq<octet>, n: nat)
    requires |block| == 64 && n <= 64 && forall t :: 0 <= t < 16 ==> BlockWord(block, t) == WordAt(t)
    ensures Matches(Schedule(block, n), n)
  {
    if n == 0 {
      assert Schedule(block, 0) == [];
    } else {
      hide Matches, WordAt, BlockWord, NextWord, WordRight, Schedule;
      ScheduleIs(block, n - 1);
      var w := Schedule(block, n - 1);
      if n > 16 {
        EveryRound(n - 1);
        NextIs(w);
      }
      ScheduleTurn(block, n);
      OneMore(w, n - 1, WordAt(n - 1));
    }
  }

  lemma NextIs(w: seq<bv32>)
    requires 16 <= |w| < 64 && WordRight(|w|) && Matches(w, |w|)
    ensures NextWord(w) == WordAt(|w|)
  {
    hide WordAt, Add, SmallSigma0, SmallSigma1;
  }

  lemma {:induction false} RoundsAre(w: seq<bv32>, n: nat)
    requires n <= 64 && Matches(w, 64)
    ensures Rounds(InitialHash(), w, n) == State(n)
  {
    hide WordAt, Round, RoundConstant, A, E;
    if n > 0 {
      RoundsAre(w, n - 1);
      EveryRound(n - 1);
    } else {
      StartIs();
    }
  }

  lemma StartIs()
    ensures InitialHash() == State(0)
  {
  }

  function FinalHash(): Hash {
    Hash(0xba7816bf, 0x8f01cfea, 0x414140de, 0x5dae2223,
         0xb00361a3, 0x96177a9c, 0xb410ff61, 0xf20015ad)
  }

  lemma SumIs()
    ensures AddHashes(InitialHash(), State(64)) == FinalHash()
  {
  }

  lemma WordsInOctets()
    ensures WordOctets(0xba7816bf) == [0xba, 0x78, 0x16, 0xbf]
    ensures WordOctets(0x8f01cfea) == [0x8f, 0x01, 0xcf, 0xea]
    ensures WordOctets(0x414140de) == [0x41, 0x41, 0x40, 0xde]
    ensures WordOctets(0x5dae2223) == [0x5d, 0xae, 0x22, 0x23]
    ensures WordOctets(0xb00361a3) == [0xb0, 0x03, 0x61, 0xa3]
    ensures WordOctets(0x96177a9c) == [0x96, 0x17, 0x7a, 0x9c]
    ensures WordOctets(0xb410ff61) == [0xb4, 0x10, 0xff, 0x61]
    ensures WordOctets(0xf20015ad) == [0xf2, 0x00, 0x15, 0xad]
  {
  }

  lemma OctetsAre()
    ensures HashOctets(FinalHash()) == RESULT
  {
    hide WordOctets;
    WordsInOctets();
  }

  /** The digest of "abc" that the standard's example gives. */
  lemma KnownDigest()
    ensures Digest(MESSAGE) == RESULT
  {
    hide Schedule, Rounds, AddHashes, HashOctets, State, FinalHash, InitialHash;
    PaddedMessage();
    forall t | 0 <= t < 16
      ensures BlockWord(BLOCK, t) == WordAt(t)
    {
      FirstWords(t);
    }
    ScheduleIs(BLOCK, 64);
    RoundsAre(Schedule(BLOCK, 64), 64);
    SumIs();
    OctetsAre();
    assert BLOCK[..|BLOCK| - 64] == [] && BLOCK[|BLOCK| - 64..] == BLOCK;
    assert HashBlocks(InitialHash(), []) == InitialHash();
  }
}
