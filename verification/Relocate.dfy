/** Applying a table of SCE relocations to the two loaded segments of a module. */
module Relocate {
  import opened Machine
  import opened ArmImmediates
  import opened ArmCodes

  type Offset = x: int | 0 <= x < 0x1_0000_0000

  datatype Segment = Segment(vaddr: bv32, memsz: Offset)

  /** A relocation, read from its two- or three-word form. */
  datatype Entry = Entry(code: int, symseg: nat, datseg: nat, offset: Offset, addend: bv32)

  // ----- the table

  predicate IsShort(first: bv32) {
    first & 0xF != 0
  }

  /** The fields that both forms share. */
  function EntryOf(first: bv32, offset: bv32, addend: bv32): Entry {
    Entry(((first >> 8) & 0xFF) as int, ((first >> 4) & 0xF) as nat, ((first >> 16) & 0xF) as nat,
          offset as int, addend)
  }

  function ShortEntry(first: bv32, second: bv32): Entry {
    EntryOf(first, (first >> 20) | ((second & 0x3FF) << 12), second >> 10)
  }

  function LongEntry(first: bv32, addend: bv32, offset: bv32): Entry {
    EntryOf(first, offset, addend)
  }

  /** The first word of an entry: a form, a symbol segment, a code, a data segment, and twelve more bits. */
  function FirstWord(form: bv32, symseg: bv32, code: bv32, datseg: bv32, rest: bv32): bv32 {
    form | (symseg << 4) | (code << 8) | (datseg << 16) | (rest << 20)
  }

  predicate FieldsFit(symseg: bv32, code: bv32, datseg: bv32) {
    symseg < 0x10 && code < 0x100 && datseg < 0x10
  }

  lemma FirstWordFields(form: bv32, symseg: bv32, code: bv32, datseg: bv32, rest: bv32)
    requires form < 0x10 && FieldsFit(symseg, code, datseg)
    ensures var w := FirstWord(form, symseg, code, datseg, rest);
      w & 0xF == form && (w >> 4) & 0xF == symseg && (w >> 8) & 0xFF == code && (w >> 16) & 0xF == datseg
      && w >> 20 == rest & 0xFFF
  {
  }

  lemma SecondWordFields(offset: bv32, addend: bv32)
    requires offset < 0x40_0000 && addend < 0x40_0000
    ensures var second := (offset >> 12) | (addend << 10);
      (offset & 0xFFF) | ((second & 0x3FF) << 12) == offset && second >> 10 == addend
  {
  }

  /** A short entry has 22 bits each for offset and addend; which of the other forms it has makes no difference. */
  lemma ShortEntryUnpacks(form: bv32, symseg: bv32, code: bv32, datseg: bv32, offset: bv32, addend: bv32)
    requires 0 < form < 0x10 && FieldsFit(symseg, code, datseg) && offset < 0x40_0000 && addend < 0x40_0000
    ensures var first, second := FirstWord(form, symseg, code, datseg, offset), (offset >> 12) | (addend << 10);
      IsShort(first)
      && ShortEntry(first, second) == Entry(code as int, symseg as nat, datseg as nat, offset as int, addend)
  {
    hide FirstWord;
    FirstWordFields(form, symseg, code, datseg, offset);
    SecondWordFields(offset, addend);
  }

  /** A long entry has whole words for them; its last twelve bits are ignored. */
  lemma LongEntryUnpacks(symseg: bv32, code: bv32, datseg: bv32, ignored: bv32, offset: bv32, addend: bv32)
    requires FieldsFit(symseg, code, datseg)
    ensures var first := FirstWord(0, symseg, code, datseg, ignored);
      !IsShort(first)
      && LongEntry(first, addend, offset) == Entry(code as int, symseg as nat, datseg as nat, offset as int, addend)
  {
    hide FirstWord;
    FirstWordFields(0, symseg, code, datseg, ignored);
  }

  /** From word `i` on, the table is a sequence of whole entries. */
  predicate WellFormed(table: seq<bv32>, i: nat)
    decreases |table| - i
  {
    i == |table|
    || (i < |table| && var n := if IsShort(table[i]) then 2 else 3; i + n <= |table| && WellFormed(table, i + n))
  }

  function Entries(table: seq<bv32>, i: nat): seq<Entry>
    requires WellFormed(table, i)
    decreases |table| - i
  {
    if i == |table| then []
    else if IsShort(table[i]) then [ShortEntry(table[i], table[i + 1])] + Entries(table, i + 2)
    else [LongEntry(table[i], table[i + 1], table[i + 2])] + Entries(table, i + 3)
  }

  // ----- one relocation

  datatype Memory = Memory(text: seq<octet>, data: seq<octet>)

  function Buffer(m: Memory, inData: bool): seq<octet> {
    if inData then m.data else m.text
  }

  function WithBuffer(m: Memory, inData: bool, b: seq<octet>): Memory {
    if inData then m.(data := b) else m.(text := b)
  }

  function WordIn(b: seq<octet>, o: nat): bv32
    requires o + 4 <= |b|
  {
    FromBytes(b[o], b[o + 1], b[o + 2], b[o + 3])
  }

  function PutWord(b: seq<octet>, o: nat, v: bv32): (b': seq<octet>)
    requires o + 4 <= |b|
    ensures |b'| == |b|
    ensures forall k :: 0 <= k < |b| && !(o <= k < o + 4) ==> b'[k] == b[k]
  {
    b[o := ByteOf(v, 0)][o + 1 := ByteOf(v, 1)][o + 2 := ByteOf(v, 2)][o + 3 := ByteOf(v, 3)]
  }

  lemma PutWordReads(b: seq<octet>, o: nat, v: bv32)
    requires o + 4 <= |b|
    ensures WordIn(PutWord(b, o, v), o) == v
  {
    hide FromBytes, ByteOf;
    BytesRoundTrip(v);
  }

  predicate InData(e: Entry) {
    e.datseg != 0
  }

  /** The segment numbers of an entry exist. */
  predicate Addressable(segs: seq<Segment>, e: Entry) {
    (e.symseg == 15 || e.symseg < |segs|) && e.datseg < |segs|
  }

  function SymbolValue(segs: seq<Segment>, e: Entry): bv32
    requires Addressable(segs, e)
  {
    if e.symseg == 15 then 0 else segs[e.symseg].vaddr
  }

  function Place(segs: seq<Segment>, e: Entry): bv32
    requires Addressable(segs, e)
  {
    segs[e.datseg].vaddr + (e.offset as bv32)
  }

  /** `Stale`: a branch out of reach, for which the value of the previous relocation is written again. */
  datatype Effect = Ignore | Stale | Put(kind: Kind)

  /** Offsets past the size of the table itself, and unknown codes, are passed over. */
  function EffectOf(segs: seq<Segment>, size: nat, e: Entry): Effect
    requires Addressable(segs, e)
  {
    if e.offset > size then Ignore
    else match KindOf(e.code)
      case None => Ignore
      case Some(kind) => if InReach(kind, SymbolValue(segs, e), e.addend, Place(segs, e)) then Put(kind) else Stale
  }

  /** The segment's own size, compared in 32-bit arithmetic, allows the write. */
  predicate Allowed(segs: seq<Segment>, e: Entry)
    requires Addressable(segs, e)
  {
    (e.offset + 4) % 0x1_0000_0000 <= segs[e.datseg].memsz
  }

  predicate ReadsFirst(effect: Effect, code: int) {
    match effect
    case Put(kind) => !kind.Absolute? && !kind.Relative? && !kind.Prel31?
    case Stale => code == R_ARM_THM_CALL
    case Ignore => false
  }

  /** The bytes that the entry reads or writes exist. */
  predicate InBounds(segs: seq<Segment>, size: nat, m: Memory, e: Entry): (r: bool)
    ensures r ==> Addressable(segs, e)
  {
    && Addressable(segs, e)
    && (var effect := EffectOf(segs, size, e);
        ReadsFirst(effect, e.code) || (!effect.Ignore? && Allowed(segs, e)) ==> e.offset + 4 <= |Buffer(m, InData(e))|)
  }

  predicate AllInBounds(segs: seq<Segment>, size: nat, m: Memory, es: seq<Entry>) {
    forall e :: e in es ==> InBounds(segs, size, m, e)
  }

  /** What the loop carries: the memory, and the value last computed. */
  datatype State = State(mem: Memory, value: bv32)

  function OldWord(m: Memory, e: Entry): bv32 {
    var b := Buffer(m, InData(e));
    if e.offset + 4 <= |b| then WordIn(b, e.offset) else 0
  }

  function Target(segs: seq<Segment>, e: Entry, kind: Kind, w: bv32): bv32
    requires Addressable(segs, e)
  {
    NewWord(kind, SymbolValue(segs, e), e.addend, Place(segs, e), w)
  }

  function SegmentWrite(segs: seq<Segment>, m: Memory, e: Entry, v: bv32): (m': Memory)
    requires Addressable(segs, e) && (Allowed(segs, e) ==> e.offset + 4 <= |Buffer(m, InData(e))|)
    ensures |m'.text| == |m.text| && |m'.data| == |m.data|
  {
    if Allowed(segs, e) then WithBuffer(m, InData(e), PutWord(Buffer(m, InData(e)), e.offset, v)) else m
  }

  function Apply(segs: seq<Segment>, size: nat, st: State, e: Entry): (st': State)
    requires InBounds(segs, size, st.mem, e)
    ensures |st'.mem.text| == |st.mem.text| && |st'.mem.data| == |st.mem.data|
  {
    match EffectOf(segs, size, e)
    case Ignore => st
    case Stale => st.(mem := SegmentWrite(segs, st.mem, e, st.value))
    case Put(kind) =>
      var v := Target(segs, e, kind, OldWord(st.mem, e));
      State(SegmentWrite(segs, st.mem, e, v), v)
  }

  lemma KeepsBounds(segs: seq<Segment>, size: nat, m: Memory, m': Memory, es: seq<Entry>)
    requires es != [] && AllInBounds(segs, size, m, es)
    requires |m'.text| == |m.text| && |m'.data| == |m.data|
    ensures AllInBounds(segs, size, m', es[1..])
  {
    forall e | e in es[1..]
      ensures InBounds(segs, size, m', e)
    {
      assert e in es;
      assert InBounds(segs, size, m, e);
    }
  }

  function ApplyAll(segs: seq<Segment>, size: nat, st: State, es: seq<Entry>): (st': State)
    requires AllInBounds(segs, size, st.mem, es)
    ensures |st'.mem.text| == |st.mem.text| && |st'.mem.data| == |st.mem.data|
    decreases |es|
  {
    if es == [] then st
    else
      var st1 := Apply(segs, size, st, es[0]);
      KeepsBounds(segs, size, st.mem, st1.mem, es);
      ApplyAll(segs, size, st1, es[1..])
  }

  // ----- what a table does to memory

  /** The entry is a branch out of reach, and the size of its segment does not keep the stale value out. */
  predicate WritesStale(segs: seq<Segment>, size: nat, e: Entry)
    requires Addressable(segs, e)
  {
    EffectOf(segs, size, e).Stale? && Allowed(segs, e)
  }

  predicate NoStaleWrite(segs: seq<Segment>, size: nat, es: seq<Entry>)
    requires forall e :: e in es ==> Addressable(segs, e)
  {
    forall e :: e in es ==> !WritesStale(segs, size, e)
  }

  predicate Active(segs: seq<Segment>, size: nat, e: Entry)
    requires Addressable(segs, e)
  {
    !EffectOf(segs, size, e).Ignore? && Allowed(segs, e)
  }

  predicate Covers(segs: seq<Segment>, size: nat, e: Entry, inData: bool, k: nat)
    requires Addressable(segs, e)
  {
    Active(segs, size, e) && InData(e) == inData && e.offset <= k < e.offset + 4
  }

  predicate Apart(segs: seq<Segment>, size: nat, e: Entry, f: Entry)
    requires Addressable(segs, e) && Addressable(segs, f)
  {
    Active(segs, size, e) && Active(segs, size, f) && InData(e) == InData(f) ==>
      e.offset + 4 <= f.offset || f.offset + 4 <= e.offset
  }

  /** Different entries of the table target different words; repeated ones may occur. */
  predicate Disjoint(segs: seq<Segment>, size: nat, es: seq<Entry>)
    requires forall e :: e in es ==> Addressable(segs, e)
  {
    forall e, f :: e in es && f in es && e != f ==> Apart(segs, size, e, f)
  }

  lemma ApplyElsewhere(segs: seq<Segment>, size: nat, st: State, e: Entry, inData: bool, k: nat)
    requires InBounds(segs, size, st.mem, e) && k < |Buffer(st.mem, inData)| && !Covers(segs, size, e, inData, k)
    ensures Buffer(Apply(segs, size, st, e).mem, inData)[k] == Buffer(st.mem, inData)[k]
  {
    hide NewWord, InReach, KindOf, FromBytes, ByteOf;
  }

  /** Every byte outside the targeted words is left alone, whatever the table. */
  lemma {:induction false} Untouched(segs: seq<Segment>, size: nat, st: State, es: seq<Entry>, inData: bool, k: nat)
    requires AllInBounds(segs, size, st.mem, es) && k < |Buffer(st.mem, inData)|
    requires forall e :: e in es ==> !Covers(segs, size, e, inData, k)
    ensures Buffer(ApplyAll(segs, size, st, es).mem, inData)[k] == Buffer(st.mem, inData)[k]
    decreases |es|
  {
    hide Apply, InBounds, Covers;
    if es != [] {
      ApplyElsewhere(segs, size, st, es[0], inData, k);
      KeepsBounds(segs, size, st.mem, Apply(segs, size, st, es[0]).mem, es);
      Untouched(segs, size, Apply(segs, size, st, es[0]), es[1..], inData, k);
    }
  }

  /** What an active entry leaves in its word. */
  lemma ApplyHere(segs: seq<Segment>, size: nat, st: State, e: Entry)
    requires InBounds(segs, size, st.mem, e) && Active(segs, size, e) && EffectOf(segs, size, e).Put?
    ensures OldWord(Apply(segs, size, st, e).mem, e)
      == Target(segs, e, EffectOf(segs, size, e).kind, OldWord(st.mem, e))
  {
    hide NewWord, InReach, KindOf, FromBytes, ByteOf, PutWord, WordIn;
    var b := Buffer(st.mem, InData(e));
    PutWordReads(b, e.offset, Target(segs, e, EffectOf(segs, size, e).kind, OldWord(st.mem, e)));
  }

  lemma ApplyApart(segs: seq<Segment>, size: nat, st: State, e: Entry, f: Entry)
    requires InBounds(segs, size, st.mem, e) && InBounds(segs, size, st.mem, f)
    requires Active(segs, size, f) && Apart(segs, size, e, f)
    ensures OldWord(Apply(segs, size, st, e).mem, f) == OldWord(st.mem, f)
  {
    hide Apply, FromBytes, EffectOf, Allowed;
    if f.offset + 4 <= |Buffer(st.mem, InData(f))| {
      ApplyElsewhere(segs, size, st, e, InData(f), f.offset);
      ApplyElsewhere(segs, size, st, e, InData(f), f.offset + 1);
      ApplyElsewhere(segs, size, st, e, InData(f), f.offset + 2);
      ApplyElsewhere(segs, size, st, e, InData(f), f.offset + 3);
    }
  }

  lemma BoundsStay(segs: seq<Segment>, size: nat, m: Memory, m': Memory, e: Entry)
    requires InBounds(segs, size, m, e) && |m'.text| == |m.text| && |m'.data| == |m.data|
    ensures InBounds(segs, size, m', e)
  {
    hide InReach, KindOf;
  }

  lemma TargetIdempotent(segs: seq<Segment>, e: Entry, kind: Kind, w: bv32)
    requires Addressable(segs, e)
    ensures Target(segs, e, kind, Target(segs, e, kind, w)) == Target(segs, e, kind, w)
  {
    hide NewWord;
    NewWordIdempotent(kind, SymbolValue(segs, e), e.addend, Place(segs, e), w);
  }

  /** The word of an active entry ends as that entry, and no other, makes it from the original word. */
  lemma {:induction false} Touched(segs: seq<Segment>, size: nat, st: State, es: seq<Entry>, e: Entry)
    requires AllInBounds(segs, size, st.mem, es) && NoStaleWrite(segs, size, es) && Disjoint(segs, size, es)
    requires e in es && Active(segs, size, e)
    ensures OldWord(ApplyAll(segs, size, st, es).mem, e)
      == Target(segs, e, EffectOf(segs, size, e).kind, OldWord(st.mem, e))
    decreases |es|
  {
    hide Apply, Apart, OldWord, Target, EffectOf, Allowed;
    assert InBounds(segs, size, st.mem, e);
    var f, rest := es[0], es[1..];
    var st1 := Apply(segs, size, st, f);
    KeepsBounds(segs, size, st.mem, st1.mem, es);
    assert forall g :: g in rest ==> g in es;
    BoundsStay(segs, size, st.mem, st1.mem, e);
    if f == e {
      ApplyHere(segs, size, st, e);
      if e in rest {
        Touched(segs, size, st1, rest, e);
        TargetIdempotent(segs, e, EffectOf(segs, size, e).kind, OldWord(st.mem, e));
      } else {
        WordUntouched(segs, size, st1, rest, e);
      }
    } else {
      ApplyApart(segs, size, st, f, e);
      Touched(segs, size, st1, rest, e);
    }
  }

  /** What an entry does, in terms of its code number. */
  lemma EffectMeans(segs: seq<Segment>, size: nat, e: Entry)
    requires Addressable(segs, e)
    ensures Active(segs, size, e) <==> e.offset <= size && Known(e.code) && Allowed(segs, e)
    ensures WritesStale(segs, size, e) <==> Active(segs, size, e) && !Reaches(e.code, OffsetOf(segs, e))
  {
    hide KindOf, InReach, Reaches, ArmCodes.Offset;
    CodesKnown(e.code, SymbolValue(segs, e), e.addend, Place(segs, e));
  }

  /** The distance from the place to the operand. */
  function OffsetOf(segs: seq<Segment>, e: Entry): bv32
    requires Addressable(segs, e)
  {
    ArmCodes.Offset(SymbolValue(segs, e), e.addend, Place(segs, e))
  }

  /** Every entry with a known code whose word may be written has relocated it, and no other byte has changed. */
  ghost predicate WordsRelocated(segs: seq<Segment>, size: nat, before: Memory, after: Memory, es: seq<Entry>)
    requires forall e :: e in es ==> Addressable(segs, e)
  {
    && (forall e :: e in es && e.offset <= size && Known(e.code) && Allowed(segs, e) ==>
          Relocated(e.code, SymbolValue(segs, e), e.addend, Place(segs, e), OldWord(before, e), OldWord(after, e)))
    && (forall inData, k ::
          0 <= k < |Buffer(before, inData)| == |Buffer(after, inData)| && Spared(segs, size, es, inData, k) ==>
          Buffer(after, inData)[k] == Buffer(before, inData)[k])
  }

  /** No entry that may be written has the byte in its word. */
  ghost predicate Spared(segs: seq<Segment>, size: nat, es: seq<Entry>, inData: bool, k: nat)
    requires forall e :: e in es ==> Addressable(segs, e)
  {
    forall e :: e in es && e.offset <= size && Known(e.code) && Allowed(segs, e) && InData(e) == inData ==>
      !(e.offset <= k < e.offset + 4)
  }

  /** The whole table does what the codes of its entries stand for, unless a branch out of reach writes. */
  lemma TableRelocates(segs: seq<Segment>, size: nat, st: State, es: seq<Entry>)
    requires AllInBounds(segs, size, st.mem, es) && NoStaleWrite(segs, size, es) && Disjoint(segs, size, es)
    ensures WordsRelocated(segs, size, st.mem, ApplyAll(segs, size, st, es).mem, es)
  {
    hide ApplyAll, Relocated, OldWord, InBounds, Known, Reaches, EffectOf, Allowed;
    var after := ApplyAll(segs, size, st, es).mem;
    forall e | e in es && e.offset <= size && Known(e.code) && Allowed(segs, e)
      ensures Relocated(e.code, SymbolValue(segs, e), e.addend, Place(segs, e), OldWord(st.mem, e), OldWord(after, e))
    {
      assert InBounds(segs, size, st.mem, e);
      EntryRelocates(segs, size, st, es, e);
    }
    forall inData, k |
      0 <= k < |Buffer(st.mem, inData)| == |Buffer(after, inData)| && Spared(segs, size, es, inData, k)
      ensures Buffer(after, inData)[k] == Buffer(st.mem, inData)[k]
    {
      forall e | e in es
        ensures !Covers(segs, size, e, inData, k)
      {
        EffectMeans(segs, size, e);
      }
      Untouched(segs, size, st, es, inData, k);
    }
  }

  lemma EntryRelocates(segs: seq<Segment>, size: nat, st: State, es: seq<Entry>, e: Entry)
    requires AllInBounds(segs, size, st.mem, es) && NoStaleWrite(segs, size, es) && Disjoint(segs, size, es)
    requires e in es && e.offset <= size && Known(e.code) && Allowed(segs, e)
    ensures Relocated(e.code, SymbolValue(segs, e), e.addend, Place(segs, e),
                      OldWord(st.mem, e), OldWord(ApplyAll(segs, size, st, es).mem, e))
  {
    hide ApplyAll, Relocated, OldWord, Known, Reaches, NewWord, Disjoint, InReach, KindOf;
    assert InBounds(segs, size, st.mem, e);
    EffectMeans(segs, size, e);
    assert !WritesStale(segs, size, e);
    CodeMeans(e.code, SymbolValue(segs, e), e.addend, Place(segs, e), OldWord(st.mem, e));
    Touched(segs, size, st, es, e);
  }

  lemma {:induction false} WordUntouched(segs: seq<Segment>, size: nat, st: State, es: seq<Entry>, e: Entry)
    requires AllInBounds(segs, size, st.mem, es) && InBounds(segs, size, st.mem, e) && Active(segs, size, e)
    requires forall f :: f in es ==> Apart(segs, size, f, e)
    ensures OldWord(ApplyAll(segs, size, st, es).mem, e) == OldWord(st.mem, e)
    decreases |es|
  {
    hide Apply, Apart, OldWord, Active, EffectOf;
    if es != [] {
      var st1 := Apply(segs, size, st, es[0]);
      KeepsBounds(segs, size, st.mem, st1.mem, es);
      BoundsStay(segs, size, st.mem, st1.mem, e);
      ApplyApart(segs, size, st, es[0], e);
      WordUntouched(segs, size, st1, es[1..], e);
    }
  }

  lemma WordSplits(a: octet, b: octet, c: octet, d: octet)
    ensures ByteOf(FromBytes(a, b, c, d), 0) == a && ByteOf(FromBytes(a, b, c, d), 1) == b
    ensures ByteOf(FromBytes(a, b, c, d), 2) == c && ByteOf(FromBytes(a, b, c, d), 3) == d
  {
  }

  lemma SameWordSameByte(b: seq<octet>, b': seq<octet>, o: nat, k: nat)
    requires |b| == |b'| && o + 4 <= |b| && WordIn(b, o) == WordIn(b', o) && o <= k < o + 4
    ensures b[k] == b'[k]
  {
    hide FromBytes, ByteOf;
    WordSplits(b[o], b[o + 1], b[o + 2], b[o + 3]);
    WordSplits(b'[o], b'[o + 1], b'[o + 2], b'[o + 3]);
  }

  ghost predicate SameEntries(es: seq<Entry>, es': seq<Entry>) {
    forall e :: e in es <==> e in es'
  }

  lemma SameByte(segs: seq<Segment>, size: nat, st: State, st': State, es: seq<Entry>, es': seq<Entry>,
                 inData: bool, k: nat)
    requires AllInBounds(segs, size, st.mem, es) && NoStaleWrite(segs, size, es) && Disjoint(segs, size, es)
    requires SameEntries(es, es') && st.mem == st'.mem && AllInBounds(segs, size, st.mem, es')
    requires k < |Buffer(st.mem, inData)|
    ensures Buffer(ApplyAll(segs, size, st, es).mem, inData)[k] == Buffer(ApplyAll(segs, size, st', es').mem, inData)[k]
  {
    hide InBounds, EffectOf, Allowed, Target, ApplyAll;
    if exists e :: e in es && Covers(segs, size, e, inData, k) {
      var e :| e in es && Covers(segs, size, e, inData, k);
      Touched(segs, size, st, es, e);
      assert NoStaleWrite(segs, size, es') && Disjoint(segs, size, es');
      Touched(segs, size, st', es', e);
      ActiveInBounds(segs, size, st.mem, e);
      SameWordSameByte(Buffer(ApplyAll(segs, size, st, es).mem, inData),
                       Buffer(ApplyAll(segs, size, st', es').mem, inData), e.offset, k);
    } else {
      Untouched(segs, size, st, es, inData, k);
      Untouched(segs, size, st', es', inData, k);
    }
  }

  lemma ActiveInBounds(segs: seq<Segment>, size: nat, m: Memory, e: Entry)
    requires InBounds(segs, size, m, e) && Active(segs, size, e)
    ensures e.offset + 4 <= |Buffer(m, InData(e))|
  {
    hide InReach, KindOf;
  }

  /**
   The final memory depends only on which entries the table has: not on their
   order, nor on how often each occurs, nor on the value the loop starts with.
   */
  lemma OrderIndependent(segs: seq<Segment>, size: nat, st: State, st': State, es: seq<Entry>, es': seq<Entry>)
    requires AllInBounds(segs, size, st.mem, es) && NoStaleWrite(segs, size, es) && Disjoint(segs, size, es)
    requires SameEntries(es, es') && st.mem == st'.mem
    ensures AllInBounds(segs, size, st.mem, es')
    ensures ApplyAll(segs, size, st, es).mem == ApplyAll(segs, size, st', es').mem
  {
    hide InBounds, EffectOf, Allowed, ApplyAll;
    var m, m' := ApplyAll(segs, size, st, es).mem, ApplyAll(segs, size, st', es').mem;
    forall k | 0 <= k < |m.text|
      ensures m.text[k] == m'.text[k]
    {
      SameByte(segs, size, st, st', es, es', false, k);
    }
    forall k | 0 <= k < |m.data|
      ensures m.data[k] == m'.data[k]
    {
      SameByte(segs, size, st, st', es, es', true, k);
    }
    assert m.text == m'.text && m.data == m'.data;
  }

  lemma {:induction false} ApplyAllConcat(segs: seq<Segment>, size: nat, st: State, a: seq<Entry>, b: seq<Entry>)
    requires AllInBounds(segs, size, st.mem, a) && AllInBounds(segs, size, st.mem, b)
    ensures AllInBounds(segs, size, st.mem, a + b) && AllInBounds(segs, size, ApplyAll(segs, size, st, a).mem, b)
    ensures ApplyAll(segs, size, st, a + b) == ApplyAll(segs, size, ApplyAll(segs, size, st, a), b)
    decreases |a|
  {
    hide Apply, InBounds;
    assert AllInBounds(segs, size, st.mem, a + b);
    if a == [] {
      assert a + b == b;
    } else {
      var st1 := Apply(segs, size, st, a[0]);
      assert (a + b)[1..] == a[1..] + b;
      KeepsBounds(segs, size, st.mem, st1.mem, a);
      forall e | e in b
        ensures InBounds(segs, size, st1.mem, e)
      {
        BoundsStay(segs, size, st.mem, st1.mem, e);
      }
      ApplyAllConcat(segs, size, st1, a[1..], b);
    }
  }

  /** Applying a table twice is applying it once. */
  lemma RelocationIdempotent(segs: seq<Segment>, size: nat, st: State, value: bv32, es: seq<Entry>)
    requires AllInBounds(segs, size, st.mem, es) && NoStaleWrite(segs, size, es) && Disjoint(segs, size, es)
    ensures var once := ApplyAll(segs, size, st, es);
      AllInBounds(segs, size, once.mem, es)
      && ApplyAll(segs, size, State(once.mem, value), es).mem == once.mem
  {
    hide InBounds, EffectOf, Allowed, ApplyAll;
    var once := ApplyAll(segs, size, st, es);
    ApplyAllConcat(segs, size, st, es, es);
    assert SameEntries(es, es + es);
    OrderIndependent(segs, size, st, st, es, es + es);
    OrderIndependent(segs, size, once, State(once.mem, value), es, es);
  }

  // ----- the relocator in place

  /** Writes a word into a loaded segment unless its size forbids it. */
  method SegmentWriteInPlace(ghost segs: seq<Segment>, ghost e: Entry, segment: Segment, offset: Offset, value: bv32,
                             buffer: array<octet>) returns (ok: bool)
    requires Addressable(segs, e) && segment == segs[e.datseg] && offset == e.offset
    requires Allowed(segs, e) ==> offset + 4 <= buffer.Length
    modifies buffer
    ensures ok == Allowed(segs, e)
    ensures buffer[..] == if ok then PutWord(old(buffer[..]), offset, value) else old(buffer[..])
  {
    hide ByteOf;
    if (offset + 4) % 0x1_0000_0000 > segment.memsz {
      return false;
    }
    buffer[offset] := ByteOf(value, 0);
    buffer[offset + 1] := ByteOf(value, 1);
    buffer[offset + 2] := ByteOf(value, 2);
    buffer[offset + 3] := ByteOf(value, 3);
    return true;
  }

  ghost function MemoryOf(text: array<octet>, data: array<octet>): Memory
    reads text, data
  {
    Memory(text[..], data[..])
  }

  /** The cases of a relocation, in the order of the loop. */
  lemma ApplyCases(segs: seq<Segment>, size: nat, st: State, e: Entry)
    requires InBounds(segs, size, st.mem, e)
    ensures e.offset > size || KindOf(e.code).None? ==> Apply(segs, size, st, e) == st
    ensures !(e.offset > size || KindOf(e.code).None?) ==>
      (Allowed(segs, e) ==> e.offset + 4 <= |Buffer(st.mem, InData(e))|)
      && var kind, s, p := KindOf(e.code).value, SymbolValue(segs, e), Place(segs, e);
         var v := if InReach(kind, s, e.addend, p) then NewWord(kind, s, e.addend, p, OldWord(st.mem, e)) else st.value;
         Apply(segs, size, st, e) == State(SegmentWrite(segs, st.mem, e, v), v)
  {
    hide NewWord, InReach, KindOf, OldWord, SymbolValue, Place, Allowed, SegmentWrite;
  }

  /** The value to write, or the previous one for a branch out of reach. */
  method Compute(segs: seq<Segment>, buffer: array<octet>, kind: Kind, value: bv32, e: Entry, ghost m: Memory)
    returns (value': bv32)
    requires Addressable(segs, e) && buffer[..] == Buffer(m, InData(e))
    ensures var s, p := SymbolValue(segs, e), Place(segs, e);
      value' == if InReach(kind, s, e.addend, p) then NewWord(kind, s, e.addend, p, OldWord(m, e)) else value
  {
    hide NewWord, InReach, FromBytes, Place;
    var symval := if e.symseg == 15 then 0 else segs[e.symseg].vaddr;
    var loc := Place(segs, e);
    if !InReach(kind, symval, e.addend, loc) {
      return value;
    }
    var w := if e.offset + 4 <= buffer.Length then
      FromBytes(buffer[e.offset], buffer[e.offset + 1], buffer[e.offset + 2], buffer[e.offset + 3]) else 0;
    return NewWord(kind, symval, e.addend, loc, w);
  }

  /** One relocation; `value` is what the previous one computed. */
  method ApplyInPlace(segs: seq<Segment>, size: nat, text: array<octet>, data: array<octet>, value: bv32, e: Entry)
    returns (value': bv32)
    requires text != data && InBounds(segs, size, MemoryOf(text, data), e)
    modifies text, data
    ensures State(MemoryOf(text, data), value') == Apply(segs, size, State(old(MemoryOf(text, data)), value), e)
  {
    hide NewWord, InReach, KindOf, FromBytes, PutWord, Apply, EffectOf, SymbolValue, Place, OldWord;
    ApplyCases(segs, size, State(MemoryOf(text, data), value), e);
    if e.offset > size || KindOf(e.code).None? {
      return value;
    }
    var buffer := if e.datseg != 0 then data else text;
    value' := Compute(segs, buffer, KindOf(e.code).value, value, e, MemoryOf(text, data));
    var ok := SegmentWriteInPlace(segs, e, segs[e.datseg], e.offset, value', buffer);
  }

  /** Applies a whole table; `garbage` is the value before any relocation has computed one. */
  method RelocateInPlace(table: seq<bv32>, segs: seq<Segment>, data: array<octet>, text: array<octet>, garbage: bv32)
    requires text != data && WellFormed(table, 0)
    requires AllInBounds(segs, 4 * |table|, MemoryOf(text, data), Entries(table, 0))
    modifies text, data
    ensures MemoryOf(text, data)
      == ApplyAll(segs, 4 * |table|, State(old(MemoryOf(text, data)), garbage), Entries(table, 0)).mem
    ensures var es := Entries(table, 0);
      NoStaleWrite(segs, 4 * |table|, es) && Disjoint(segs, 4 * |table|, es) ==>
        WordsRelocated(segs, 4 * |table|, old(MemoryOf(text, data)), MemoryOf(text, data), es)
  {
    hide Apply, InBounds, ShortEntry, LongEntry, IsShort, WordsRelocated, Disjoint;
    ghost var start := MemoryOf(text, data);
    if NoStaleWrite(segs, 4 * |table|, Entries(table, 0)) && Disjoint(segs, 4 * |table|, Entries(table, 0)) {
      TableRelocates(segs, 4 * |table|, State(start, garbage), Entries(table, 0));
    }
    var size, value, pos: nat := 4 * |table|, garbage, 0;
    ghost var final := ApplyAll(segs, size, State(MemoryOf(text, data), garbage), Entries(table, 0));
    while pos < |table|
      invariant WellFormed(table, pos) && AllInBounds(segs, size, MemoryOf(text, data), Entries(table, pos))
      invariant ApplyAll(segs, size, State(MemoryOf(text, data), value), Entries(table, pos)) == final
      decreases |table| - pos
    {
      ghost var es, m := Entries(table, pos), MemoryOf(text, data);
      var e, next: nat;
      if IsShort(table[pos]) {
        e, next := ShortEntry(table[pos], table[pos + 1]), pos + 2;
      } else {
        e, next := LongEntry(table[pos], table[pos + 1], table[pos + 2]), pos + 3;
      }
      assert es[0] == e && es[1..] == Entries(table, next);
      value := ApplyInPlace(segs, size, text, data, value, e);
      KeepsBounds(segs, size, m, MemoryOf(text, data), es);
      pos := next;
    }
  }

  // ----- branches out of reach

  /** A branch out of reach writes whatever the previous relocation computed into its word. */
  lemma StaleWrites(segs: seq<Segment>, size: nat, st: State, e: Entry)
    requires InBounds(segs, size, st.mem, e) && WritesStale(segs, size, e)
    ensures Apply(segs, size, st, e).value == st.value && OldWord(Apply(segs, size, st, e).mem, e) == st.value
  {
    hide NewWord, InReach, KindOf, FromBytes, ByteOf, PutWord, WordIn;
    PutWordReads(Buffer(st.mem, InData(e)), e.offset, st.value);
  }

  /** `es` with the occurrences of `e` moved to the front. */
  function Fronted(es: seq<Entry>, e: Entry): (r: seq<Entry>) {
    Copies(es, e) + Without(es, e)
  }

  function Copies(es: seq<Entry>, e: Entry): (r: seq<Entry>)
    ensures forall f :: f in r ==> f == e
    ensures e in es ==> r != []
  {
    if es == [] then [] else (if es[0] == e then [e] else []) + Copies(es[1..], e)
  }

  function Without(es: seq<Entry>, e: Entry): (r: seq<Entry>)
    ensures forall f :: f in r <==> f in es && f != e
  {
    if es == [] then [] else (if es[0] == e then [] else [es[0]]) + Without(es[1..], e)
  }

  lemma {:induction false} FrontedReorders(es: seq<Entry>, e: Entry)
    ensures multiset(Fronted(es, e)) == multiset(es)
  {
    if es != [] {
      FrontedReorders(es[1..], e);
      assert es == [es[0]] + es[1..];
    }
  }

  /** Stale writes of one entry leave its word at the value the loop carries, and the value alone. */
  lemma {:induction false} StaleCopies(segs: seq<Segment>, size: nat, st: State, es: seq<Entry>, e: Entry)
    requires es != [] && (forall f :: f in es ==> f == e) && AllInBounds(segs, size, st.mem, es)
    requires Addressable(segs, e) && WritesStale(segs, size, e)
    ensures ApplyAll(segs, size, st, es).value == st.value && OldWord(ApplyAll(segs, size, st, es).mem, e) == st.value
    decreases |es|
  {
    hide Apply, InBounds, OldWord, WritesStale;
    assert es[0] in es;
    StaleWrites(segs, size, st, e);
    var st1 := Apply(segs, size, st, e);
    KeepsBounds(segs, size, st.mem, st1.mem, es);
    if |es| > 1 {
      assert forall f :: f in es[1..] ==> f in es;
      StaleCopies(segs, size, st1, es[1..], e);
    } else {
      assert es[1..] == [];
    }
  }

  /** With its stale entry first, a disjoint table leaves the starting value in that entry's word. */
  lemma StaleFirst(segs: seq<Segment>, size: nat, st: State, es: seq<Entry>, e: Entry)
    requires AllInBounds(segs, size, st.mem, es) && Disjoint(segs, size, es) && e in es && WritesStale(segs, size, e)
    ensures AllInBounds(segs, size, st.mem, Fronted(es, e))
    ensures OldWord(ApplyAll(segs, size, st, Fronted(es, e)).mem, e) == st.value
  {
    hide InBounds, OldWord, WritesStale, ApplyAll, Apart;
    var a, b := Copies(es, e), Without(es, e);
    assert InBounds(segs, size, st.mem, e);
    StaleCopies(segs, size, st, a, e);
    ApplyAllConcat(segs, size, st, a, b);
    var st1 := ApplyAll(segs, size, st, a);
    BoundsStay(segs, size, st.mem, st1.mem, e);
    StaleIsActive(segs, size, e);
    WordUntouched(segs, size, st1, b, e);
  }

  lemma StaleIsActive(segs: seq<Segment>, size: nat, e: Entry)
    requires Addressable(segs, e) && WritesStale(segs, size, e)
    ensures Active(segs, size, e)
  {
    hide EffectOf;
  }

  function Final(segs: seq<Segment>, size: nat, m: Memory, value: bv32, es: seq<Entry>): Memory
    requires AllInBounds(segs, size, m, es)
  {
    ApplyAll(segs, size, State(m, value), es).mem
  }

  lemma ReorderedInBounds(segs: seq<Segment>, size: nat, m: Memory, es: seq<Entry>, es': seq<Entry>)
    requires AllInBounds(segs, size, m, es) && multiset(es') == multiset(es)
    ensures AllInBounds(segs, size, m, es') && SameEntries(es, es')
  {
    forall e: Entry
      ensures e in es <==> e in es'
    {
      assert e in es <==> e in multiset(es);
      assert e in es' <==> e in multiset(es');
    }
  }

  /** Neither the order of the table nor the value before the first relocation shows in the final memory. */
  ghost predicate OneOutcome(segs: seq<Segment>, size: nat, m: Memory, es: seq<Entry>)
    requires AllInBounds(segs, size, m, es)
  {
    forall es', v, v' :: multiset(es') == multiset(es) && AllInBounds(segs, size, m, es') ==>
      Final(segs, size, m, v, es') == Final(segs, size, m, v', es)
  }

  /**
   For a table of disjoint entries the outcome is independent of order and of the
   uninitialised value exactly when no branch out of reach writes.
   */
  lemma OneOutcomeExactly(segs: seq<Segment>, size: nat, m: Memory, es: seq<Entry>)
    requires AllInBounds(segs, size, m, es) && Disjoint(segs, size, es)
    ensures OneOutcome(segs, size, m, es) <==> NoStaleWrite(segs, size, es)
  {
    hide InBounds, ApplyAll, WritesStale, Apart, OldWord;
    if NoStaleWrite(segs, size, es) {
      forall es', v, v' | multiset(es') == multiset(es) && AllInBounds(segs, size, m, es')
        ensures Final(segs, size, m, v, es') == Final(segs, size, m, v', es)
      {
        ReorderedInBounds(segs, size, m, es, es');
        OrderIndependent(segs, size, State(m, v'), State(m, v), es, es');
      }
    } else {
      var e :| e in es && WritesStale(segs, size, e);
      FrontedReorders(es, e);
      StaleFirst(segs, size, State(m, 0), es, e);
      StaleFirst(segs, size, State(m, 1), es, e);
      var front := Fronted(es, e);
      assert Final(segs, size, m, 0, front) != Final(segs, size, m, 1, front);
      assert Final(segs, size, m, 0, front) != Final(segs, size, m, 0, es)
        || Final(segs, size, m, 1, front) != Final(segs, size, m, 0, es);
    }
  }

  lemma StaysInBounds(segs: seq<Segment>, size: nat, m: Memory, value: bv32, es: seq<Entry>)
    requires AllInBounds(segs, size, m, es)
    ensures AllInBounds(segs, size, Final(segs, size, m, value, es), es)
  {
    forall e | e in es
      ensures InBounds(segs, size, Final(segs, size, m, value, es), e)
    {
      BoundsStay(segs, size, m, Final(segs, size, m, value, es), e);
    }
  }

  predicate TwiceIsOnce(segs: seq<Segment>, size: nat, m: Memory, v: bv32, v': bv32, es: seq<Entry>)
    requires AllInBounds(segs, size, m, es)
  {
    var once := Final(segs, size, m, v, es);
    AllInBounds(segs, size, once, es) && Final(segs, size, once, v', es) == once
  }

  /** In whatever order, applying the table a second time changes nothing. */
  ghost predicate Settles(segs: seq<Segment>, size: nat, m: Memory, es: seq<Entry>)
    requires AllInBounds(segs, size, m, es)
  {
    forall es', v, v' :: multiset(es') == multiset(es) && AllInBounds(segs, size, m, es') ==>
      TwiceIsOnce(segs, size, m, v, v', es')
  }

  /** The same condition decides whether relocating twice is relocating once. */
  lemma SettlesExactly(segs: seq<Segment>, size: nat, m: Memory, es: seq<Entry>)
    requires AllInBounds(segs, size, m, es) && Disjoint(segs, size, es)
    ensures Settles(segs, size, m, es) <==> NoStaleWrite(segs, size, es)
  {
    hide InBounds, ApplyAll, WritesStale, Apart, OldWord;
    if NoStaleWrite(segs, size, es) {
      forall es', v, v' | multiset(es') == multiset(es) && AllInBounds(segs, size, m, es')
        ensures TwiceIsOnce(segs, size, m, v, v', es')
      {
        ReorderedInBounds(segs, size, m, es, es');
        RelocationIdempotent(segs, size, State(m, v), v', es');
      }
    } else {
      var e :| e in es && WritesStale(segs, size, e);
      var front := Fronted(es, e);
      FrontedReorders(es, e);
      StaleFirst(segs, size, State(m, 0), es, e);
      var once := Final(segs, size, m, 0, front);
      StaysInBounds(segs, size, m, 0, front);
      ReorderedInBounds(segs, size, once, front, es);
      StaleFirst(segs, size, State(once, 1), es, e);
      assert !TwiceIsOnce(segs, size, m, 0, 1, front);
    }
  }

  /** An absolute word followed by a call out of reach. */
  function ExampleSegments(): seq<Segment> {
    [Segment(0, 16), Segment(0, 16)]
  }

  function ExampleState(): State {
    State(Memory(seq(16, _ => 0), seq(16, _ => 0)), 0)
  }

  const FIRST := Entry(R_ARM_ABS32, 15, 0, 0, 0x1111_1111)
  const OUT_OF_REACH := Entry(R_ARM_CALL, 15, 0, 8, 0x1000_0000)

  lemma ExampleEffects()
    ensures EffectOf(ExampleSegments(), 64, FIRST) == Put(Absolute)
    ensures EffectOf(ExampleSegments(), 64, OUT_OF_REACH) == Stale
    ensures Target(ExampleSegments(), FIRST, Absolute, 0) == 0x1111_1111
  {
  }

  /** With a branch out of reach the order of a table of disjoint entries matters. */
  lemma StaleOrderMatters()
    ensures var segs, st := ExampleSegments(), ExampleState();
      && AllInBounds(segs, 64, st.mem, [FIRST, OUT_OF_REACH]) && AllInBounds(segs, 64, st.mem, [OUT_OF_REACH, FIRST])
      && Disjoint(segs, 64, [FIRST, OUT_OF_REACH])
      && ApplyAll(segs, 64, st, [FIRST, OUT_OF_REACH]).mem != ApplyAll(segs, 64, st, [OUT_OF_REACH, FIRST]).mem
  {
    hide NewWord, InReach, KindOf, FromBytes, ByteOf, PutWord, EffectOf, Target;
    var segs, st := ExampleSegments(), ExampleState();
    ExampleEffects();
    var a, b := Apply(segs, 64, st, FIRST), Apply(segs, 64, st, OUT_OF_REACH);
    assert a.value == 0x1111_1111 by {
      ExampleWord();
    }
    StaleWrites(segs, 64, a, OUT_OF_REACH);
    StaleWrites(segs, 64, st, OUT_OF_REACH);
    ApplyApart(segs, 64, b, FIRST, OUT_OF_REACH);
    TwoEntries(segs, 64, st, FIRST, OUT_OF_REACH);
    TwoEntries(segs, 64, st, OUT_OF_REACH, FIRST);
  }

  lemma TwoEntries(segs: seq<Segment>, size: nat, st: State, e: Entry, f: Entry)
    requires AllInBounds(segs, size, st.mem, [e, f]) && InBounds(segs, size, Apply(segs, size, st, e).mem, f)
    ensures ApplyAll(segs, size, st, [e, f]) == Apply(segs, size, Apply(segs, size, st, e), f)
  {
    hide Apply, InBounds;
    var st1 := Apply(segs, size, st, e);
    KeepsBounds(segs, size, st.mem, st1.mem, [e, f]);
    assert [e, f][1..] == [f] && [f][1..] == [];
    assert ApplyAll(segs, size, st1, [f]) == Apply(segs, size, st1, f);
  }

  lemma ExampleWord()
    ensures OldWord(ExampleState().mem, FIRST) == 0
  {
  }
}
