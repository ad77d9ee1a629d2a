/** A table whose words are known. */
module RelocateSamples {
  import opened Machine
  import opened ArmImmediates
  import opened Relocate

  function Segments(): seq<Segment> {
    [Segment(0x8100_0000, 0x100), Segment(0x8120_0000, 0x100)]
  }

  function Blank(): Memory {
    Memory(seq(0x100, _ => 0), seq(0x100, _ => 0))
  }

  /**
   A long relative entry for word 8 of the text, a short absolute entry for word
   0x10 of the data, with a symbol there, and a long one with no symbol segment.
   */
  const TABLE: seq<bv32> := [
    0x0000_0300, 0, 8,
    0x0101_0211, 0x9000,
    0x0000_02F0, 0x1234, 0
  ]

  const RELATIVE := Entry(3, 0, 0, 8, 0)
  const SYMBOLIC := Entry(2, 1, 1, 0x10, 0x24)
  const NUMBER := Entry(2, 15, 0, 0, 0x1234)

  lemma FirstFields()
    ensures EntryOf(0x0000_0300, 8, 0) == RELATIVE
    ensures EntryOf(0x0101_0211, 0x10, 0x24) == SYMBOLIC
    ensures EntryOf(0x0000_02F0, 0, 0x1234) == NUMBER
    ensures !IsShort(0x0000_0300) && IsShort(0x0101_0211) && !IsShort(0x0000_02F0)
  {
  }

  lemma ShortFields()
    ensures ShortEntry(0x0101_0211, 0x9000) == EntryOf(0x0101_0211, 0x10, 0x24)
  {
    hide EntryOf;
  }

  lemma TableEntries()
    ensures WellFormed(TABLE, 0) && Entries(TABLE, 0) == [RELATIVE, SYMBOLIC, NUMBER]
  {
    hide EntryOf, ShortEntry, IsShort;
    FirstFields();
    ShortFields();
    assert WellFormed(TABLE, 8) && Entries(TABLE, 8) == [];
    assert WellFormed(TABLE, 5) && Entries(TABLE, 5) == [NUMBER];
    assert WellFormed(TABLE, 3) && Entries(TABLE, 3) == [SYMBOLIC, NUMBER];
  }

  lemma Operands()
    ensures var segs := Segments();
      && SymbolValue(segs, RELATIVE) == 0x8100_0000 && Place(segs, RELATIVE) == 0x8100_0008
      && SymbolValue(segs, SYMBOLIC) == 0x8120_0000 && Place(segs, SYMBOLIC) == 0x8120_0010
      && SymbolValue(segs, NUMBER) == 0 && Place(segs, NUMBER) == 0x8100_0000
  {
  }

  lemma Words(p: bv32, w: bv32)
    ensures NewWord(Relative, 0x8100_0000, 0, 0x8100_0008, w) == 0xFFFF_FFF8
    ensures NewWord(Absolute, 0x8120_0000, 0x24, p, w) == 0x8120_0024
    ensures NewWord(Absolute, 0, 0x1234, p, w) == 0x1234
  {
  }

  lemma Kinds(s: bv32, a: bv32, p: bv32)
    ensures KindOf(3) == Some(Relative) && KindOf(2) == Some(Absolute)
    ensures InReach(Relative, s, a, p) && InReach(Absolute, s, a, p)
  {
  }

  lemma Effects()
    ensures var segs := Segments();
      EffectOf(segs, 32, RELATIVE) == Put(Relative) && EffectOf(segs, 32, SYMBOLIC) == Put(Absolute)
      && EffectOf(segs, 32, NUMBER) == Put(Absolute)
  {
    hide InReach, KindOf, SymbolValue, Place;
    var segs := Segments();
    Kinds(SymbolValue(segs, RELATIVE), 0, Place(segs, RELATIVE));
    Kinds(SymbolValue(segs, SYMBOLIC), 0x24, Place(segs, SYMBOLIC));
    Kinds(SymbolValue(segs, NUMBER), 0x1234, Place(segs, NUMBER));
  }

  lemma Targets(w: bv32)
    ensures var segs := Segments();
      Target(segs, RELATIVE, Relative, w) == 0xFFFF_FFF8 && Target(segs, SYMBOLIC, Absolute, w) == 0x8120_0024
      && Target(segs, NUMBER, Absolute, w) == 0x1234
  {
    hide NewWord, SymbolValue, Place;
    Operands();
    Words(0x8100_0000, w);
    Words(0x8120_0010, w);
  }

  lemma OneOfThree(e: Entry)
    requires e in [RELATIVE, SYMBOLIC, NUMBER]
    ensures e == RELATIVE || e == SYMBOLIC || e == NUMBER
  {
  }

  lemma TableFits()
    ensures var segs, m, es := Segments(), Blank(), [RELATIVE, SYMBOLIC, NUMBER];
      AllInBounds(segs, 32, m, es) && NoStaleWrite(segs, 32, es) && Disjoint(segs, 32, es)
      && Active(segs, 32, RELATIVE) && Active(segs, 32, SYMBOLIC) && Active(segs, 32, NUMBER)
  {
    hide EffectOf;
    Effects();
    forall e | e in [RELATIVE, SYMBOLIC, NUMBER]
      ensures InBounds(Segments(), 32, Blank(), e) && !WritesStale(Segments(), 32, e)
    {
      OneOfThree(e);
    }
    forall e, f | e in [RELATIVE, SYMBOLIC, NUMBER] && f in [RELATIVE, SYMBOLIC, NUMBER] && e != f
      ensures Apart(Segments(), 32, e, f)
    {
      OneOfThree(e);
      OneOfThree(f);
    }
  }

  /** The relocator writes these three words. */
  lemma TableWords(garbage: bv32)
    ensures var segs, m := Segments(), Blank();
      && WellFormed(TABLE, 0) && AllInBounds(segs, 32, m, Entries(TABLE, 0))
      && (var r := ApplyAll(segs, 32, State(m, garbage), Entries(TABLE, 0)).mem;
          |r.text| == |r.data| == 0x100
          && WordIn(r.text, 8) == 0xFFFF_FFF8 && WordIn(r.data, 0x10) == 0x8120_0024 && WordIn(r.text, 0) == 0x1234)
  {
    hide ApplyAll, WordIn, AllInBounds, NoStaleWrite, Disjoint, Active, EffectOf, Entries, WellFormed, Target;
    var segs, m, es := Segments(), Blank(), [RELATIVE, SYMBOLIC, NUMBER];
    TableEntries();
    TableFits();
    Effects();
    Touched(segs, 32, State(m, garbage), es, RELATIVE);
    Touched(segs, 32, State(m, garbage), es, SYMBOLIC);
    Touched(segs, 32, State(m, garbage), es, NUMBER);
    Targets(OldWord(m, RELATIVE));
    Targets(OldWord(m, SYMBOLIC));
    Targets(OldWord(m, NUMBER));
  }
}
