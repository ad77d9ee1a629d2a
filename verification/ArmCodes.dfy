/**
 What each relocation code stands for, number by number: the property that
 section 4.6.1 of "ELF for the ARM Architecture" asks of the new word, and the
 reach of branches, as numbers.
 */
module ArmCodes {
  import opened ArmImmediates

  /** The codes that the relocator knows. */
  predicate Known(code: int) {
    code in {2, 3, 10, 28, 29, 38, 40, 41, 42, 43, 44, 47, 48}
  }

  /** A word as a signed number. */
  function Signed(x: bv32): int {
    if x < 0x8000_0000 then x as int else x as int - 0x1_0000_0000
  }

  /** Branches of Thumb and of ARM code reach less than 2^24 and 2^25 bytes, both ways. */
  predicate Reaches(code: int, offset: bv32) {
    if code == 10 then -0x100_0000 < Signed(offset) < 0x100_0000
    else if code == 28 || code == 29 then -0x200_0000 < Signed(offset) < 0x200_0000
    else true
  }

  function Sum(x: bv32, y: bv32): bv32 {
    x + y
  }

  function Offset(s: bv32, a: bv32, p: bv32): bv32 {
    a + s - p
  }

  /** `v` has the bits of `w` under `mask`. */
  predicate Keeps(v: bv32, w: bv32, mask: bv32) {
    v & mask == w & mask
  }

  function LowHalf(x: bv32): bv32 {
    x & 0xFFFF
  }

  function HighHalf(x: bv32): bv32 {
    x >> 16
  }

  function Even(x: bv32): bv32 {
    x & 0xFFFF_FFFE
  }

  function Aligned(x: bv32): bv32 {
    x & 0xFFFF_FFFC
  }

  predicate LowBitsOf(v: bv32, x: bv32) {
    v < 0x8000_0000 && v << 1 == x << 1
  }

  /** The word `v` carries what the code asks for and keeps the rest of `w`; 40 gives MOV PC of the same register. */
  predicate Relocated(code: int, s: bv32, a: bv32, p: bv32, w: bv32, v: bv32) {
    if code == 2 || code == 38 then v == Sum(s, a)
    else if code == 3 || code == 41 then Sum(v, p) == Sum(s, a)
    else if code == 42 then LowBitsOf(v, Offset(s, a, p))
    else if code == 40 then Keeps(v, 0x01A0_F000, 0x0FFF_FFF0) && Keeps(v, w, 0xF000_000F)
    else if code == 10 then DecodeThumbBranch(v) == Even(Offset(s, a, p)) && Keeps(v, w, 0xD000_F800)
    else if code == 28 || code == 29 then
      DecodeArmBranch(v) == Aligned(Offset(s, a, p)) && Keeps(v, w, 0xFF00_0000)
    else if code == 43 then DecodeArmMove(v) == LowHalf(Sum(s, a)) && Keeps(v, w, 0xFFF0_F000)
    else if code == 44 then DecodeArmMove(v) == HighHalf(Sum(s, a)) && Keeps(v, w, 0xFFF0_F000)
    else if code == 47 then DecodeThumbMove(v) == LowHalf(Sum(s, a)) && Keeps(v, w, 0x8F00_FBF0)
    else code == 48 && DecodeThumbMove(v) == HighHalf(Sum(s, a)) && Keeps(v, w, 0x8F00_FBF0)
  }

  lemma SignedOrder(x: bv32)
    ensures SignedLess(0xFF00_0000, x) && SignedLess(x, 0x0100_0000) <==> -0x100_0000 < Signed(x) < 0x100_0000
    ensures SignedLess(0xFE00_0000, x) && SignedLess(x, 0x0200_0000) <==> -0x200_0000 < Signed(x) < 0x200_0000
  {
    assert SignedLess(0xFF00_0000, x) && SignedLess(x, 0x0100_0000) <==> x < 0x0100_0000 || x > 0xFF00_0000;
    assert SignedLess(0xFE00_0000, x) && SignedLess(x, 0x0200_0000) <==> x < 0x0200_0000 || x > 0xFE00_0000;
  }

  /** The codes with a meaning, and which branches are in reach. */
  lemma CodesKnown(code: int, s: bv32, a: bv32, p: bv32)
    ensures KindOf(code).Some? <==> Known(code)
    ensures Known(code) ==> (InReach(KindOf(code).value, s, a, p) <==> Reaches(code, Offset(s, a, p)))
  {
    hide SignedLess, Signed;
    SignedOrder(a + s - p);
  }

  // ----- the words written

  lemma SumOfOffset(s: bv32, a: bv32, p: bv32, v: bv32)
    requires v == a + s - p
    ensures Sum(v, p) == Sum(s, a)
  {
  }

  lemma RelativeWord(s: bv32, a: bv32, p: bv32, w: bv32)
    ensures Sum(NewWord(Relative, s, a, p, w), p) == Sum(s, a)
  {
    hide Sum;
    SumOfOffset(s, a, p, NewWord(Relative, s, a, p, w));
  }

  lemma AbsoluteWord(s: bv32, a: bv32, p: bv32, w: bv32)
    ensures NewWord(Absolute, s, a, p, w) == Sum(s, a)
  {
  }

  lemma ClearedTop(x: bv32)
    ensures LowBitsOf(Low31(x), x)
  {
  }

  lemma Prel31Word(s: bv32, a: bv32, p: bv32, w: bv32)
    ensures LowBitsOf(NewWord(Prel31, s, a, p, w), Offset(s, a, p))
  {
    hide LowBitsOf, Low31;
    ClearedTop(a + s - p);
  }

  lemma MovePc(w: bv32)
    ensures var v := (w & 0xF000_000F) | 0x01A0_F000;
      Keeps(v, 0x01A0_F000, 0x0FFF_FFF0) && Keeps(v, w, 0xF000_000F)
  {
  }

  lemma V4bxWord(s: bv32, a: bv32, p: bv32, w: bv32)
    ensures var v := NewWord(V4bx, s, a, p, w); Keeps(v, 0x01A0_F000, 0x0FFF_FFF0) && Keeps(v, w, 0xF000_000F)
  {
    hide Keeps;
    MovePc(w);
  }

  lemma ArmMoveFields(w: bv32, x: bv32)
    ensures DecodeArmMove(ArmMove(w, x)) == LowHalf(x) && Keeps(ArmMove(w, x), w, 0xFFF0_F000)
  {
  }

  lemma ThumbMoveFields(w: bv32, x: bv32)
    ensures DecodeThumbMove(ThumbMove(w, x)) == LowHalf(x) && Keeps(ThumbMove(w, x), w, 0x8F00_FBF0)
  {
  }

  lemma HalfOfHalf(x: bv32)
    ensures LowHalf(HighHalf(x)) == HighHalf(x)
  {
  }

  lemma ArmMoveWords(s: bv32, a: bv32, p: bv32, w: bv32)
    ensures NewWord(Movw, s, a, p, w) == ArmMove(w, Sum(s, a))
    ensures NewWord(Movt, s, a, p, w) == ArmMove(w, HighHalf(Sum(s, a)))
  {
    hide ArmMove;
  }

  lemma ThumbMoveWords(s: bv32, a: bv32, p: bv32, w: bv32)
    ensures NewWord(ThumbMovw, s, a, p, w) == ThumbMove(w, Sum(s, a))
    ensures NewWord(ThumbMovt, s, a, p, w) == ThumbMove(w, HighHalf(Sum(s, a)))
  {
    hide ThumbMove;
  }

  lemma ArmMovesCarry(s: bv32, a: bv32, p: bv32, w: bv32)
    ensures var v := NewWord(Movw, s, a, p, w); DecodeArmMove(v) == LowHalf(Sum(s, a)) && Keeps(v, w, 0xFFF0_F000)
    ensures var v := NewWord(Movt, s, a, p, w); DecodeArmMove(v) == HighHalf(Sum(s, a)) && Keeps(v, w, 0xFFF0_F000)
  {
    hide NewWord, Sum, LowHalf, HighHalf, Keeps, ArmMove, DecodeArmMove;
    ArmMoveWords(s, a, p, w);
    HalfOfHalf(Sum(s, a));
    ArmMoveFields(w, Sum(s, a));
    ArmMoveFields(w, HighHalf(Sum(s, a)));
  }

  lemma ThumbMovesCarry(s: bv32, a: bv32, p: bv32, w: bv32)
    ensures var v := NewWord(ThumbMovw, s, a, p, w);
      DecodeThumbMove(v) == LowHalf(Sum(s, a)) && Keeps(v, w, 0x8F00_FBF0)
    ensures var v := NewWord(ThumbMovt, s, a, p, w);
      DecodeThumbMove(v) == HighHalf(Sum(s, a)) && Keeps(v, w, 0x8F00_FBF0)
  {
    hide NewWord, Sum, LowHalf, HighHalf, Keeps, ThumbMove, DecodeThumbMove;
    ThumbMoveWords(s, a, p, w);
    HalfOfHalf(Sum(s, a));
    ThumbMoveFields(w, Sum(s, a));
    ThumbMoveFields(w, HighHalf(Sum(s, a)));
  }

  lemma ThumbBranchWord(s: bv32, a: bv32, p: bv32, w: bv32)
    requires InReach(ThumbCall, s, a, p)
    ensures var v := NewWord(ThumbCall, s, a, p, w);
      DecodeThumbBranch(v) == Even(Offset(s, a, p)) && Keeps(v, w, 0xD000_F800)
  {
    hide NewWord, InReach, DecodeThumbBranch;
    ThumbBranchDecodes(s, a, p, w);
  }

  lemma ArmBranchWord(s: bv32, a: bv32, p: bv32, w: bv32)
    requires InReach(ArmCall, s, a, p)
    ensures var v := NewWord(ArmCall, s, a, p, w);
      DecodeArmBranch(v) == Aligned(Offset(s, a, p)) && Keeps(v, w, 0xFF00_0000)
  {
    hide NewWord, InReach, DecodeArmBranch;
    ArmBranchDecodes(s, a, p, w);
  }

  /** Every known code, in reach if it is a branch, gets the word that it stands for. */
  lemma CodeMeans(code: int, s: bv32, a: bv32, p: bv32, w: bv32)
    requires Known(code) && Reaches(code, Offset(s, a, p))
    ensures KindOf(code).Some? && InReach(KindOf(code).value, s, a, p)
    ensures Relocated(code, s, a, p, w, NewWord(KindOf(code).value, s, a, p, w))
  {
    hide NewWord, InReach, Reaches, Offset, Sum, LowHalf, HighHalf, Keeps, Even, Aligned, LowBitsOf;
    hide DecodeThumbBranch, DecodeArmBranch, DecodeArmMove, DecodeThumbMove;
    CodesKnown(code, s, a, p);
    if code == 10 {
      ThumbBranchWord(s, a, p, w);
    } else if code == 28 || code == 29 {
      ArmBranchWord(s, a, p, w);
    } else if code >= 43 {
      ArmMovesCarry(s, a, p, w);
      ThumbMovesCarry(s, a, p, w);
    } else {
      AbsoluteWord(s, a, p, w);
      RelativeWord(s, a, p, w);
      Prel31Word(s, a, p, w);
      V4bxWord(s, a, p, w);
    }
  }

  // ----- no other words

  lemma ThumbBitsDetermine(v: bv32, v': bv32)
    requires ThumbBranchBits(v) == ThumbBranchBits(v') && Keeps(v, v', 0xD000_F800)
    ensures v == v'
  {
  }

  function Low25(x: bv32): bv32 {
    x & 0x01FF_FFFF
  }

  function Low26(x: bv32): bv32 {
    x & 0x03FF_FFFF
  }

  lemma Extended25(x: bv32)
    requires x & 0xFE00_0000 == 0
    ensures Low25(x | 0xFE00_0000) == x && Low25(x & 0x01FF_FFFF) == x
  {
  }

  lemma Extended26(x: bv32)
    requires x & 0xFC00_0000 == 0
    ensures Low26(x | 0xFC00_0000) == x && Low26(x & 0x03FF_FFFF) == x
  {
  }

  lemma BitsSmall(v: bv32)
    ensures ThumbBranchBits(v) & 0xFE00_0000 == 0 && ((v & 0x00FF_FFFF) << 2) & 0xFC00_0000 == 0
  {
  }

  lemma Extensions(x: bv32)
    ensures SignExtend25(x) == x | 0xFE00_0000 || SignExtend25(x) == x & 0x01FF_FFFF
    ensures SignExtend26(x) == x | 0xFC00_0000 || SignExtend26(x) == x & 0x03FF_FFFF
  {
  }

  lemma ExtensionInverts25(x: bv32)
    requires x & 0xFE00_0000 == 0
    ensures Low25(SignExtend25(x)) == x
  {
    hide SignExtend25, SignExtend26, Low25, Low26;
    Extensions(x);
    Extended25(x);
  }

  lemma ExtensionInverts26(x: bv32)
    requires x & 0xFC00_0000 == 0
    ensures Low26(SignExtend26(x)) == x
  {
    hide SignExtend25, SignExtend26, Low25, Low26;
    Extensions(x);
    Extended26(x);
  }

  lemma ThumbBranchDetermines(v: bv32, v': bv32)
    requires DecodeThumbBranch(v) == DecodeThumbBranch(v') && Keeps(v, v', 0xD000_F800)
    ensures v == v'
  {
    hide ThumbBranchBits, SignExtend25, Keeps, Low25;
    BitsSmall(v);
    BitsSmall(v');
    ExtensionInverts25(ThumbBranchBits(v));
    ExtensionInverts25(ThumbBranchBits(v'));
    ThumbBitsDetermine(v, v');
  }

  lemma ArmBitsDetermine(v: bv32, v': bv32)
    requires (v & 0x00FF_FFFF) << 2 == (v' & 0x00FF_FFFF) << 2 && Keeps(v, v', 0xFF00_0000)
    ensures v == v'
  {
  }

  lemma ArmBranchDetermines(v: bv32, v': bv32)
    requires DecodeArmBranch(v) == DecodeArmBranch(v') && Keeps(v, v', 0xFF00_0000)
    ensures v == v'
  {
    hide SignExtend26, Keeps, Low26;
    BitsSmall(v);
    BitsSmall(v');
    ExtensionInverts26((v & 0x00FF_FFFF) << 2);
    ExtensionInverts26((v' & 0x00FF_FFFF) << 2);
    ArmBitsDetermine(v, v');
  }

  lemma ArmMoveDetermines(v: bv32, v': bv32)
    requires DecodeArmMove(v) == DecodeArmMove(v') && Keeps(v, v', 0xFFF0_F000)
    ensures v == v'
  {
  }

  lemma ThumbMoveDetermines(v: bv32, v': bv32)
    requires DecodeThumbMove(v) == DecodeThumbMove(v') && Keeps(v, v', 0x8F00_FBF0)
    ensures v == v'
  {
  }

  lemma SumDetermines(p: bv32, v: bv32, v': bv32)
    requires Sum(v, p) == Sum(v', p)
    ensures v == v'
  {
  }

  lemma FieldsDetermine(v: bv32, v': bv32, x: bv32)
    ensures LowBitsOf(v, x) && LowBitsOf(v', x) ==> v == v'
    ensures Keeps(v, v', 0x0FFF_FFF0) && Keeps(v, v', 0xF000_000F) ==> v == v'
  {
  }

  lemma BothKeep(v: bv32, v': bv32, w: bv32, mask: bv32)
    requires Keeps(v, w, mask) && Keeps(v', w, mask)
    ensures Keeps(v, v', mask)
  {
  }

  /** No other word would do. */
  lemma OneWord(code: int, s: bv32, a: bv32, p: bv32, w: bv32, v: bv32, v': bv32)
    requires Relocated(code, s, a, p, w, v) && Relocated(code, s, a, p, w, v')
    ensures v == v'
  {
    hide Sum, Offset, LowHalf, HighHalf, Keeps, Even, Aligned, LowBitsOf;
    hide DecodeThumbBranch, DecodeArmBranch, DecodeArmMove, DecodeThumbMove;
    if code == 10 {
      BothKeep(v, v', w, 0xD000_F800);
      ThumbBranchDetermines(v, v');
    } else if code == 28 || code == 29 {
      BothKeep(v, v', w, 0xFF00_0000);
      ArmBranchDetermines(v, v');
    } else if code == 43 || code == 44 {
      BothKeep(v, v', w, 0xFFF0_F000);
      ArmMoveDetermines(v, v');
    } else if code >= 47 {
      BothKeep(v, v', w, 0x8F00_FBF0);
      ThumbMoveDetermines(v, v');
    } else if code == 3 || code == 41 {
      SumDetermines(p, v, v');
    } else if code == 42 {
      FieldsDetermine(v, v', Offset(s, a, p));
    } else if code == 40 {
      BothKeep(v, v', 0x01A0_F000, 0x0FFF_FFF0);
      BothKeep(v, v', w, 0xF000_000F);
      FieldsDetermine(v, v', 0);
    }
  }
}
