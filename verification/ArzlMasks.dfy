/**
 The post-pass as the original writes it, with masks and shifts of 32-bit words,
 is the pass on the quotients and remainders of halfwords.
 */
module ArzlMasks {
  import opened Machine
  import opened ArzlPostPass

  // ----- words as numbers

  /** The number that a word stands for. */
  function Num(x: bv32): nat {
    x as int
  }

  lemma SplitAt4(x: bv32)
    requires x <= 0xFFFF
    ensures Num(x) == Num(x >> 4) * 0x10 + Num(x & 0xF)
    ensures Num(x & 0xF) < 0x10
  {
  }

  lemma SplitAt8(x: bv32)
    requires x <= 0xFFFF
    ensures Num(x) == Num(x >> 8) * 0x100 + Num(x & 0xFF)
    ensures Num(x & 0xFF) < 0x100
  {
  }

  lemma SplitAt10(x: bv32)
    requires x <= 0xFFFF
    ensures Num(x) == Num(x >> 10) * 0x400 + Num(x & 0x3FF)
    ensures Num(x & 0x3FF) < 0x400
  {
  }

  lemma SplitAt11(x: bv32)
    requires x <= 0x3F_FFFF
    ensures Num(x) == Num(x >> 11) * 0x800 + Num(x & 0x7FF)
    ensures Num(x & 0x7FF) < 0x800
  {
  }

  lemma SplitAt15(x: bv32)
    requires x <= 0xFFFF
    ensures Num(x) == Num(x >> 15) * 0x8000 + Num(x & 0x7FFF)
    ensures Num(x & 0x7FFF) <= 0x7FFF
  {
  }

  lemma SmallNumbers(x: bv32)
    ensures Num(x) == 0 <==> x == 0
    ensures Num(x) == 0x1E <==> x == 0x1E
    ensures Num(x) == 0x1F <==> x == 0x1F
    ensures Num(x) == 0x2C <==> x == 0x2C
  {
  }

  lemma Joined(a: bv32, b: bv32)
    requires a <= 0x7FF && b <= 0x7FF
    ensures Num(a | (b << 11)) == Num(a) + 0x800 * Num(b)
  {
  }

  lemma WithOpcode(f: bv32)
    requires f <= 0x7FF
    ensures Num(0xF000 | f) == 0xF000 + Num(f)
    ensures Num(0xF800 | f) == 0xF800 + Num(f)
  {
  }

  lemma LowNibbleSet(lo: bv32, n: bv32)
    requires lo <= 0xFFFF && n <= 0xF
    ensures Num((lo & 0xFFF0) | n) == Num(lo) - Num(lo & 0xF) + Num(n)
  {
  }

  lemma HighNibbleSet(hi: bv32, n: bv32)
    requires hi <= 0xFFFF && n <= 0xF
    ensures Num((hi & 0xF0FF) | (n << 8)) == Num(hi) - 0x100 * Num((hi >> 8) & 0xF) + 0x100 * Num(n)
  {
  }

  /** A number of which `q` and `r` are the parts above and below `m`. */
  lemma Parts(n: nat, q: nat, r: nat, m: nat)
    requires r < m && n == q * m + r
    ensures n / m == q && n % m == r
  {
    DivOfSum(q, m, r);
  }

  // ----- which words are rewritten

  /** The word at a position, as the original loads it. */
  function Word(lo: bv32, hi: bv32): bv32 {
    (hi << 16) | lo
  }

  lemma TopFive(x: bv32, n: half)
    requires x <= 0xFFFF && Num(x) == n
    ensures x >> 11 == 0x1E <==> n / 0x800 == 0x1E
    ensures x >> 11 == 0x1F <==> n / 0x800 == 0x1F
  {
    hide Num;
    SplitAt11(x);
    Parts(n, Num(x >> 11), Num(x & 0x7FF), 0x800);
    SmallNumbers(x >> 11);
  }

  lemma TopBit(x: bv32, n: half)
    requires x <= 0xFFFF && Num(x) == n
    ensures x < 0x8000 <==> n < 0x8000
  {
    hide Num;
    assert x < 0x8000 <==> x >> 15 == 0;
    SplitAt15(x);
    SmallNumbers(x >> 15);
  }

  lemma MiddleSix(x: bv32, n: half)
    requires x <= 0xFFFF && Num(x) == n
    ensures (x & 0x3FF) >> 4 == 0x2C <==> (n % 0x400) / 0x10 == 0x2C
  {
    hide Num;
    var y := x & 0x3FF;
    assert y <= 0xFFFF;
    SplitAt10(x);
    SplitAt4(y);
    Parts(n, Num(x >> 10), Num(y), 0x400);
    Parts(Num(y), Num(y >> 4), Num(y & 0xF), 0x10);
    SmallNumbers(y >> 4);
  }

  lemma WordTests(lo: bv32, hi: bv32)
    requires lo <= 0xFFFF && hi <= 0xFFFF
    ensures Word(lo, hi) & 0xF800F800 == 0xF800F000 <==> lo >> 11 == 0x1E && hi >> 11 == 0x1F
    ensures Word(lo, hi) & 0x8000FBF0 == 0x0000F2C0
      <==> lo >> 11 == 0x1E && (lo & 0x3FF) >> 4 == 0x2C && hi < 0x8000
    ensures (Word(lo, hi) & 0xF800F800) >> 27 == 30 <==> hi >> 11 == 0x1E
  {
  }

  /** The three tests of the original. */
  lemma TestsMean(lo: bv32, hi: bv32, h0: half, h1: half)
    requires lo <= 0xFFFF && hi <= 0xFFFF && Num(lo) == h0 && Num(hi) == h1
    ensures Word(lo, hi) & 0xF800F800 == 0xF800F000 <==> IsBranch(h0, h1)
    ensures Word(lo, hi) & 0x8000FBF0 == 0x0000F2C0 <==> IsMovt(h0, h1)
    ensures (Word(lo, hi) & 0xF800F800) >> 27 == 30 <==> MayStartNext(h1)
  {
    hide Num, Word;
    WordTests(lo, hi);
    TopFive(lo, h0);
    TopFive(hi, h1);
    MiddleSix(lo, h0);
    TopBit(hi, h1);
  }

  // ----- what they become

  /** The target of a branch, before the offset is added or subtracted. */
  function Fields(word: bv32): bv32 {
    ((word >> 16) & 0xFFC007FF) | ((word & 0x7FF) << 11)
  }

  /** A branch to the low 22 bits of `v`. */
  function Branch(v: bv32): bv32 {
    ((((v & 0x7FF) << 16) | 0xF800F000) & 0xFFFFF800) | ((v >> 11) & 0x7FF)
  }

  lemma WordFields(lo: bv32, hi: bv32)
    requires lo <= 0xFFFF && hi <= 0xFFFF
    ensures hi & 0x7FF <= 0x7FF && lo & 0x7FF <= 0x7FF
    ensures Fields(Word(lo, hi)) == (hi & 0x7FF) | ((lo & 0x7FF) << 11)
  {
  }

  lemma FieldsMean(lo: bv32, hi: bv32, h0: half, h1: half)
    requires lo <= 0xFFFF && hi <= 0xFFFF && Num(lo) == h0 && Num(hi) == h1
    ensures Num(Fields(Word(lo, hi))) == BranchTarget(h0, h1)
  {
    hide Num, Fields, Word;
    SplitAt11(lo);
    SplitAt11(hi);
    Parts(h0, Num(lo >> 11), Num(lo & 0x7FF), 0x800);
    Parts(h1, Num(hi >> 11), Num(hi & 0x7FF), 0x800);
    WordFields(lo, hi);
    Joined(hi & 0x7FF, lo & 0x7FF);
  }

  lemma BranchHalves(v: bv32)
    ensures var t := v & 0x3F_FFFF;
      Branch(v) & 0xFFFF == 0xF000 | (t >> 11) && Branch(v) >> 16 == 0xF800 | (t & 0x7FF)
      && t <= 0x3F_FFFF && t >> 11 <= 0x7FF && t & 0x7FF <= 0x7FF
  {
  }

  /** The stored branch leads to the number in the low 22 bits of `v`. */
  lemma BranchMeans(v: bv32, target: nat)
    requires Num(v & 0x3F_FFFF) == target
    ensures Num(Branch(v) & 0xFFFF) == 0xF000 + target / 0x800
    ensures Num(Branch(v) >> 16) == 0xF800 + target % 0x800
  {
    hide Num, Branch;
    var t := v & 0x3F_FFFF;
    BranchHalves(v);
    SplitAt11(t);
    Parts(target, Num(t >> 11), Num(t & 0x7FF), 0x800);
    WithOpcode(t >> 11);
    WithOpcode(t & 0x7FF);
  }

  /**
   The branch that the original stores for the sum or difference `v` is the one of
   the pass. Only the low 22 bits of `v` matter, so that it makes no difference
   that the original computes it modulo 2^32.
   */
  lemma MovedBranchMeans(p: Pass, lo: bv32, hi: bv32, h0: half, h1: half, next: nat, v: bv32)
    requires lo <= 0xFFFF && hi <= 0xFFFF && Num(lo) == h0 && Num(hi) == h1
    requires Num(v & 0x3F_FFFF) == (Num(Fields(Word(lo, hi))) + if p.add then next / 2 else -(next / 2)) % 0x40_0000
    ensures Num(Branch(v) & 0xFFFF) == MoveBranch(p, h0, h1, next).0
    ensures Num(Branch(v) >> 16) == MoveBranch(p, h0, h1, next).1
  {
    hide Num, Branch, Fields, Word, BranchTarget;
    FieldsMean(lo, hi, h0, h1);
    BranchMeans(v, Num(v & 0x3F_FFFF));
  }

  /** A MOVT with its two nibbles exchanged. */
  function Exchanged(word: bv32): bv32 {
    (word & 0xF0FFFFF0) | ((word & 0xF) << 24) | ((word >> 24) & 0xF)
  }

  lemma ExchangedHalves(lo: bv32, hi: bv32)
    requires lo <= 0xFFFF && hi <= 0xFFFF
    ensures Exchanged(Word(lo, hi)) & 0xFFFF == (lo & 0xFFF0) | ((hi >> 8) & 0xF)
    ensures Exchanged(Word(lo, hi)) >> 16 == (hi & 0xF0FF) | ((lo & 0xF) << 8)
  {
  }

  lemma Nibbles(lo: bv32, hi: bv32)
    requires lo <= 0xFFFF && hi <= 0xFFFF
    ensures hi >> 8 <= 0xFFFF && lo & 0xF <= 0xF && (hi >> 8) & 0xF <= 0xF
  {
  }

  /** The nibbles that change places, as numbers. */
  lemma NibblesMean(lo: bv32, hi: bv32, h0: half, h1: half)
    requires lo <= 0xFFFF && hi <= 0xFFFF && Num(lo) == h0 && Num(hi) == h1
    ensures Num(lo & 0xF) == h0 % 0x10 && Num((hi >> 8) & 0xF) == (h1 / 0x100) % 0x10
  {
    hide Num;
    Nibbles(lo, hi);
    SplitAt4(lo);
    SplitAt8(hi);
    SplitAt4(hi >> 8);
    Parts(h0, Num(lo >> 4), Num(lo & 0xF), 0x10);
    Parts(h1, Num(hi >> 8), Num(hi & 0xFF), 0x100);
    Parts(Num(hi >> 8), Num((hi >> 8) >> 4), Num((hi >> 8) & 0xF), 0x10);
  }

  lemma ExchangedMeans(lo: bv32, hi: bv32, h0: half, h1: half)
    requires lo <= 0xFFFF && hi <= 0xFFFF && Num(lo) == h0 && Num(hi) == h1
    ensures Num(Exchanged(Word(lo, hi)) & 0xFFFF) == SwapNibbles(h0, h1).0
    ensures Num(Exchanged(Word(lo, hi)) >> 16) == SwapNibbles(h0, h1).1
  {
    hide Num, Exchanged, Word;
    var n0, n1 := lo & 0xF, (hi >> 8) & 0xF;
    ExchangedHalves(lo, hi);
    Nibbles(lo, hi);
    NibblesMean(lo, hi, h0, h1);
    LowNibbleSet(lo, n1);
    HighNibbleSet(hi, n0);
  }
}
