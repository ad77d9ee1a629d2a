/**
 The instruction words that SCE relocations write, and the decoders that give
 back their operands. `s` is the symbol value, `a` the addend, `p` the place.
 Relocation codes are those of section 4.6.1 of "ELF for the ARM Architecture".
 */
module ArmImmediates {
  import opened Machine

  const R_ARM_ABS32 := 2
  const R_ARM_REL32 := 3
  const R_ARM_THM_CALL := 10
  const R_ARM_CALL := 28
  const R_ARM_JUMP24 := 29
  const R_ARM_TARGET1 := 38
  const R_ARM_V4BX := 40
  const R_ARM_TARGET2 := 41
  const R_ARM_PREL31 := 42
  const R_ARM_MOVW_ABS_NC := 43
  const R_ARM_MOVT_ABS := 44
  const R_ARM_THM_MOVW_ABS_NC := 47
  const R_ARM_THM_MOVT_ABS := 48

  /** What a relocation code asks for, with the codes that are treated alike merged. */
  datatype Kind = V4bx | Absolute | Relative | ThumbCall | ArmCall | Prel31 | Movw | Movt | ThumbMovw | ThumbMovt

  function KindOf(code: int): Option<Kind> {
    if code == R_ARM_V4BX then Some(V4bx)
    else if code == R_ARM_ABS32 || code == R_ARM_TARGET1 then Some(Absolute)
    else if code == R_ARM_REL32 || code == R_ARM_TARGET2 then Some(Relative)
    else if code == R_ARM_THM_CALL then Some(ThumbCall)
    else if code == R_ARM_CALL || code == R_ARM_JUMP24 then Some(ArmCall)
    else if code == R_ARM_PREL31 then Some(Prel31)
    else if code == R_ARM_MOVW_ABS_NC then Some(Movw)
    else if code == R_ARM_MOVT_ABS then Some(Movt)
    else if code == R_ARM_THM_MOVW_ABS_NC then Some(ThumbMovw)
    else if code == R_ARM_THM_MOVT_ABS then Some(ThumbMovt)
    else None
  }

  /** Comparison of 32-bit words as signed numbers. */
  predicate SignedLess(x: bv32, y: bv32) {
    (x ^ 0x8000_0000) < (y ^ 0x8000_0000)
  }

  /** Branches reach 2^24 bytes in Thumb code and 2^25 in ARM code. */
  predicate InReach(kind: Kind, s: bv32, a: bv32, p: bv32) {
    var offset := a + s - p;
    match kind
    case ThumbCall => SignedLess(0xFF00_0000, offset) && SignedLess(offset, 0x0100_0000)
    case ArmCall => SignedLess(0xFE00_0000, offset) && SignedLess(offset, 0x0200_0000)
    case _ => true
  }

  function ThumbBranch(w: bv32, offset: bv32): bv32 {
    var upper, lower := w & 0xFFFF, w >> 16;
    var sign := (offset >> 24) & 1;
    var j1 := sign ^ (!(offset >> 23) & 1);
    var j2 := sign ^ (!(offset >> 22) & 1);
    var upper' := (upper & 0xF800) | (sign << 10) | ((offset >> 12) & 0x03FF);
    var lower' := (lower & 0xD000) | (j1 << 13) | (j2 << 11) | ((offset >> 1) & 0x07FF);
    (lower' << 16) | upper'
  }

  function ArmBranch(w: bv32, offset: bv32): bv32 {
    (w & 0xFF00_0000) | ((offset >> 2) & 0x00FF_FFFF)
  }

  function ArmMove(w: bv32, imm: bv32): bv32 {
    (w & 0xFFF0_F000) | ((imm & 0xF000) << 4) | (imm & 0x0FFF)
  }

  function ThumbMove(w: bv32, imm: bv32): bv32 {
    var upper, lower := w & 0xFFFF, w >> 16;
    var upper' := (upper & 0xFBF0) | ((imm & 0xF000) >> 12) | ((imm & 0x0800) >> 1);
    var lower' := (lower & 0x8F00) | ((imm & 0x0700) << 4) | (imm & 0x00FF);
    (lower' << 16) | upper'
  }

  function Low31(x: bv32): bv32 {
    x & 0x7FFF_FFFF
  }

  /** The word that replaces `w`. */
  function NewWord(kind: Kind, s: bv32, a: bv32, p: bv32, w: bv32): bv32 {
    match kind
    case V4bx => (w & 0xF000_000F) | 0x01A0_F000
    case Absolute => a + s
    case Relative => a + s - p
    case ThumbCall => ThumbBranch(w, a + s - p)
    case ArmCall => ArmBranch(w, a + s - p)
    case Prel31 => Low31(a + s - p)
    case Movw => ArmMove(w, s + a)
    case Movt => ArmMove(w, (s + a) >> 16)
    case ThumbMovw => ThumbMove(w, a + s)
    case ThumbMovt => ThumbMove(w, (a + s) >> 16)
  }

  // ----- decoding

  /** The low 25 bits of `x` as a signed number. */
  function SignExtend25(x: bv32): bv32 {
    if x & 0x0100_0000 != 0 then x | 0xFE00_0000 else x & 0x01FF_FFFF
  }

  function SignExtend26(x: bv32): bv32 {
    if x & 0x0200_0000 != 0 then x | 0xFC00_0000 else x & 0x03FF_FFFF
  }

  /** The fields S:I1:I2:imm10:imm11:0 of a Thumb BL, with I1 = NOT(J1 XOR S) and I2 = NOT(J2 XOR S). */
  function ThumbBranchBits(w: bv32): bv32 {
    var upper, lower := w & 0xFFFF, w >> 16;
    var sign := (upper >> 10) & 1;
    var i1 := !(((lower >> 13) & 1) ^ sign) & 1;
    var i2 := !(((lower >> 11) & 1) ^ sign) & 1;
    (sign << 24) | (i1 << 23) | (i2 << 22) | ((upper & 0x3FF) << 12) | ((lower & 0x7FF) << 1)
  }

  function DecodeThumbBranch(w: bv32): bv32 {
    SignExtend25(ThumbBranchBits(w))
  }

  function DecodeArmBranch(w: bv32): bv32 {
    SignExtend26((w & 0x00FF_FFFF) << 2)
  }

  function DecodeArmMove(w: bv32): bv32 {
    ((w >> 4) & 0xF000) | (w & 0x0FFF)
  }

  /** The immediate imm4:i:imm3:imm8 of a Thumb MOVW or MOVT. */
  function DecodeThumbMove(w: bv32): bv32 {
    var upper, lower := w & 0xFFFF, w >> 16;
    ((upper & 0xF) << 12) | (((upper >> 10) & 1) << 11) | (((lower >> 12) & 7) << 8) | (lower & 0xFF)
  }

  /** An offset in reach repeats its sign bit all the way up. */
  lemma ReachBits(offset: bv32)
    ensures SignedLess(0xFF00_0000, offset) && SignedLess(offset, 0x0100_0000) ==>
      offset & 0xFF00_0000 == 0 || offset & 0xFF00_0000 == 0xFF00_0000
    ensures SignedLess(0xFE00_0000, offset) && SignedLess(offset, 0x0200_0000) ==>
      offset & 0xFE00_0000 == 0 || offset & 0xFE00_0000 == 0xFE00_0000
  {
  }

  lemma ThumbSign(offset: bv32)
    requires offset & 0xFF00_0000 == 0 || offset & 0xFF00_0000 == 0xFF00_0000
    ensures SignExtend25(offset & 0x01FF_FFFE) == offset & 0xFFFF_FFFE
  {
    hide SignExtend25;
    if offset & 0xFF00_0000 == 0 {
      ThumbPositive(offset);
    } else {
      ThumbNegative(offset);
    }
  }

  lemma ThumbPositive(offset: bv32)
    requires offset & 0xFF00_0000 == 0
    ensures SignExtend25(offset & 0x01FF_FFFE) == offset & 0xFFFF_FFFE
  {
    assert (offset & 0x01FF_FFFE) & 0x0100_0000 == 0;
  }

  lemma ThumbNegative(offset: bv32)
    requires offset & 0xFF00_0000 == 0xFF00_0000
    ensures SignExtend25(offset & 0x01FF_FFFE) == offset & 0xFFFF_FFFE
  {
    assert (offset & 0x01FF_FFFE) & 0x0100_0000 == 0x0100_0000;
  }

  lemma ArmSign(offset: bv32)
    requires offset & 0xFE00_0000 == 0 || offset & 0xFE00_0000 == 0xFE00_0000
    ensures SignExtend26(offset & 0x03FF_FFFC) == offset & 0xFFFF_FFFC
  {
    hide SignExtend26;
    if offset & 0xFE00_0000 == 0 {
      ArmPositive(offset);
    } else {
      ArmNegative(offset);
    }
  }

  lemma ArmPositive(offset: bv32)
    requires offset & 0xFE00_0000 == 0
    ensures SignExtend26(offset & 0x03FF_FFFC) == offset & 0xFFFF_FFFC
  {
    assert (offset & 0x03FF_FFFC) & 0x0200_0000 == 0;
  }

  lemma ArmNegative(offset: bv32)
    requires offset & 0xFE00_0000 == 0xFE00_0000
    ensures SignExtend26(offset & 0x03FF_FFFC) == offset & 0xFFFF_FFFC
  {
    assert (offset & 0x03FF_FFFC) & 0x0200_0000 == 0x0200_0000;
  }

  lemma ThumbBranchFields(w: bv32, offset: bv32)
    ensures ThumbBranchBits(ThumbBranch(w, offset)) == offset & 0x01FF_FFFE
    ensures ThumbBranch(w, offset) & 0xD000_F800 == w & 0xD000_F800
  {
  }

  lemma ThumbBranchSigned(w: bv32, offset: bv32)
    requires SignedLess(0xFF00_0000, offset) && SignedLess(offset, 0x0100_0000)
    ensures DecodeThumbBranch(ThumbBranch(w, offset)) == offset & 0xFFFF_FFFE
    ensures ThumbBranch(w, offset) & 0xD000_F800 == w & 0xD000_F800
  {
    hide ThumbBranch, ThumbBranchBits, SignExtend25, SignedLess;
    ThumbBranchFields(w, offset);
    ReachBits(offset);
    ThumbSign(offset);
  }

  lemma ThumbBranchDecodes(s: bv32, a: bv32, p: bv32, w: bv32)
    requires InReach(ThumbCall, s, a, p)
    ensures DecodeThumbBranch(NewWord(ThumbCall, s, a, p, w)) == (a + s - p) & 0xFFFF_FFFE
    ensures NewWord(ThumbCall, s, a, p, w) & 0xD000_F800 == w & 0xD000_F800
  {
    hide ThumbBranch, DecodeThumbBranch, SignedLess;
    ThumbBranchSigned(w, a + s - p);
  }

  lemma ArmBranchFields(w: bv32, offset: bv32)
    ensures (ArmBranch(w, offset) & 0x00FF_FFFF) << 2 == offset & 0x03FF_FFFC
    ensures ArmBranch(w, offset) & 0xFF00_0000 == w & 0xFF00_0000
  {
  }

  lemma ArmBranchSigned(w: bv32, offset: bv32)
    requires SignedLess(0xFE00_0000, offset) && SignedLess(offset, 0x0200_0000)
    ensures DecodeArmBranch(ArmBranch(w, offset)) == offset & 0xFFFF_FFFC
    ensures ArmBranch(w, offset) & 0xFF00_0000 == w & 0xFF00_0000
  {
    hide ArmBranch, SignExtend26, SignedLess;
    ArmBranchFields(w, offset);
    ReachBits(offset);
    ArmSign(offset);
  }

  lemma ArmBranchDecodes(s: bv32, a: bv32, p: bv32, w: bv32)
    requires InReach(ArmCall, s, a, p)
    ensures DecodeArmBranch(NewWord(ArmCall, s, a, p, w)) == (a + s - p) & 0xFFFF_FFFC
    ensures NewWord(ArmCall, s, a, p, w) & 0xFF00_0000 == w & 0xFF00_0000
  {
    hide ArmBranch, DecodeArmBranch, SignedLess;
    ArmBranchSigned(w, a + s - p);
  }

  /** A MOVW and a MOVT together carry the whole of the operand. */
  lemma ArmMovesDecode(s: bv32, a: bv32, p: bv32, w: bv32, w': bv32)
    ensures (DecodeArmMove(NewWord(Movt, s, a, p, w')) << 16) | DecodeArmMove(NewWord(Movw, s, a, p, w)) == s + a
    ensures NewWord(Movw, s, a, p, w) & 0xFFF0_F000 == w & 0xFFF0_F000
    ensures NewWord(Movt, s, a, p, w') & 0xFFF0_F000 == w' & 0xFFF0_F000
  {
  }

  lemma ThumbMovesDecode(s: bv32, a: bv32, p: bv32, w: bv32, w': bv32)
    ensures (DecodeThumbMove(NewWord(ThumbMovt, s, a, p, w')) << 16)
      | DecodeThumbMove(NewWord(ThumbMovw, s, a, p, w)) == s + a
    ensures NewWord(ThumbMovw, s, a, p, w) & 0x8F00_FBF0 == w & 0x8F00_FBF0
    ensures NewWord(ThumbMovt, s, a, p, w') & 0x8F00_FBF0 == w' & 0x8F00_FBF0
  {
  }

  lemma FieldsIdempotent(w: bv32, x: bv32)
    ensures ThumbBranch(ThumbBranch(w, x), x) == ThumbBranch(w, x)
    ensures ArmBranch(ArmBranch(w, x), x) == ArmBranch(w, x)
    ensures ArmMove(ArmMove(w, x), x) == ArmMove(w, x)
    ensures ThumbMove(ThumbMove(w, x), x) == ThumbMove(w, x)
    ensures (((w & 0xF000_000F) | 0x01A0_F000) & 0xF000_000F) | 0x01A0_F000 == (w & 0xF000_000F) | 0x01A0_F000
  {
  }

  /** Relocating a relocated word changes nothing. */
  lemma NewWordIdempotent(kind: Kind, s: bv32, a: bv32, p: bv32, w: bv32)
    ensures NewWord(kind, s, a, p, NewWord(kind, s, a, p, w)) == NewWord(kind, s, a, p, w)
  {
    hide ThumbBranch, ArmBranch, ArmMove, ThumbMove;
    match kind
    case V4bx => FieldsIdempotent(w, 0);
    case ThumbCall => FieldsIdempotent(w, a + s - p);
    case ArmCall => FieldsIdempotent(w, a + s - p);
    case Movw => FieldsIdempotent(w, s + a);
    case Movt => FieldsIdempotent(w, (s + a) >> 16);
    case ThumbMovw => FieldsIdempotent(w, a + s);
    case ThumbMovt => FieldsIdempotent(w, (a + s) >> 16);
    case _ =>
  }

  // ----- bytes

  function ByteOf(v: bv32, i: nat): octet
    requires i < 4
  {
    if i == 0 then (v & 0xFF) as octet
    else if i == 1 then ((v >> 8) & 0xFF) as octet
    else if i == 2 then ((v >> 16) & 0xFF) as octet
    else ((v >> 24) & 0xFF) as octet
  }

  /** A little-endian word in memory. */
  function FromBytes(b0: octet, b1: octet, b2: octet, b3: octet): bv32 {
    (b0 as bv32) | ((b1 as bv32) << 8) | ((b2 as bv32) << 16) | ((b3 as bv32) << 24)
  }

  lemma BytesRoundTrip(v: bv32)
    ensures FromBytes(ByteOf(v, 0), ByteOf(v, 1), ByteOf(v, 2), ByteOf(v, 3)) == v
  {
  }

  /** The same four bytes read most significant first. */
  function Be32(b0: octet, b1: octet, b2: octet, b3: octet): bv32 {
    ((b0 as bv32) << 24) | ((b1 as bv32) << 16) | ((b2 as bv32) << 8) | (b3 as bv32)
  }

  /** The MOVW decoder of the NID extractor, on an instruction read most significant byte first. */
  function MovwValue(opcode: bv32): bv32 {
    ((opcode >> 8) & 0xFF) | ((opcode << 4) & 0x700) | ((opcode >> 7) & 0x800) | ((opcode >> 12) & 0xF000)
  }

  lemma MovwDecoderReads(w: bv32)
    ensures MovwValue(Be32(ByteOf(w, 0), ByteOf(w, 1), ByteOf(w, 2), ByteOf(w, 3))) == DecodeThumbMove(w)
  {
  }

  lemma ThumbMoveDecodes(w: bv32, imm: bv32)
    ensures DecodeThumbMove(ThumbMove(w, imm)) == imm & 0xFFFF
  {
  }

  /** The extractor's decoder reads back the low half of what a Thumb MOVW relocation wrote. */
  lemma MovwDecoderAgrees(s: bv32, a: bv32, p: bv32, w: bv32)
    ensures var v := NewWord(ThumbMovw, s, a, p, w);
      MovwValue(Be32(ByteOf(v, 0), ByteOf(v, 1), ByteOf(v, 2), ByteOf(v, 3))) == (a + s) & 0xFFFF
  {
    hide ThumbMove, DecodeThumbMove, MovwValue, Be32, ByteOf;
    MovwDecoderReads(NewWord(ThumbMovw, s, a, p, w));
    ThumbMoveDecodes(w, a + s);
  }
}
