/** The numeric bounds that keep the range coder going on every well-formed stream. */
module ArzlBounds {
  import opened Machine
  import opened ArzlCoder
  import opened ArzlLayout
  import opened ArzlNumbers
  import opened ArzlFormat

  const SLOW_CELLS := 2344
  const FLOOR := 0x800
  const STEADY := 0x1_0000

  /** Which distance slots a stream may use: those with cells of their own, or all that lie in memory. */
  datatype Slots = Own | All

  function Limit(slots: Slots): nat {
    if slots.Own? then LAST_SLOT else LAST_SLOT_IN_MEMORY
  }

  /** What the range may fall to inside a number. */
  function Floor(slots: Slots): nat {
    if slots.Own? then FLOOR else 2
  }

  /** What the range is at least when a token ends. */
  function Rest(slots: Slots): nat {
    if slots.Own? then STEADY else 6750
  }

  predicate ProbabilitiesBounded(t: Table) {
    forall i :: 0 <= i < TABLE_SIZE ==> if i < SLOW_CELLS then 7 <= t[i] <= 248 else 15 <= t[i] <= 240
  }

  /** Literal and slot trees adapt fast, all other tables slowly. */
  predicate RightRate(d: Decision) {
    d.Modelled? && (d.rate.Fast? <==> d.cell < SLOW_CELLS)
  }

  predicate AllRight(ds: seq<Decision>) {
    forall i :: 0 <= i < |ds| ==> RightRate(ds[i])
  }

  predicate Healthy(m: Model, floor: nat) {
    ProbabilitiesBounded(m.probs) && m.range >= floor
  }

  /** From `m`, no decision of `ds` takes a probability out of bounds or the range below `floor`. */
  predicate Safe(m: Model, ds: seq<Decision>, floor: nat)
    decreases |ds|
  {
    Healthy(m, floor) && (ds != [] ==> Safe(Advance(m, ds[0]), ds[1..], floor))
  }

  lemma {:induction false} SafeConcat(m: Model, a: seq<Decision>, b: seq<Decision>, floor: nat)
    requires Safe(m, a, floor) && Safe(AdvanceAll(m, a), b, floor)
    ensures Safe(m, a + b, floor)
    ensures AdvanceAll(m, a + b) == AdvanceAll(AdvanceAll(m, a), b)
    decreases |a|
  {
    if a == [] {
      assert a + b == b;
    } else {
      assert (a + b)[1..] == a[1..] + b;
      SafeConcat(Advance(m, a[0]), a[1..], b, floor);
    }
  }

  lemma {:induction false} SafeWeaker(m: Model, ds: seq<Decision>, floor: nat, less: nat)
    requires Safe(m, ds, floor) && less <= floor
    ensures Safe(m, ds, less)
    decreases |ds|
  {
    if ds != [] {
      SafeWeaker(Advance(m, ds[0]), ds[1..], floor, less);
    }
  }

  lemma {:induction false} SafeEverywhere(m: Model, ds: seq<Decision>, i: nat, floor: nat)
    requires Safe(m, ds, floor) && i <= |ds|
    ensures Healthy(AdvanceAll(m, ds[..i]), floor)
    decreases i
  {
    if i > 0 {
      assert ds[..i][1..] == ds[1..][..i - 1];
      SafeEverywhere(Advance(m, ds[0]), ds[1..], i - 1, floor);
    }
  }

  /** Adaptation keeps a probability within its bounds. */
  lemma AdaptBounded(p: byte, bit: Bit)
    ensures 7 <= p <= 248 ==> 7 <= Adapt(p, Fast, bit) <= 248
    ensures 15 <= p <= 240 ==> 15 <= Adapt(p, Slow, bit) <= 240
  {
  }

  /** A probability moves towards the bit it met, and the bounds are where it comes to rest. */
  lemma AdaptConverges(p: byte, rate: Rate)
    requires if rate.Fast? then 7 <= p <= 248 else 15 <= p <= 240
    ensures Adapt(p, rate, 1) >= p && (Adapt(p, rate, 1) == p <==> p > (if rate.Fast? then 247 else 239))
    ensures Adapt(p, rate, 0) <= p && (Adapt(p, rate, 0) == p <==> p < (if rate.Fast? then 8 else 16))
  {
  }

  lemma SplitBounds(p: byte, q: nat, floor: nat, least: nat)
    requires least <= p <= 256 - least - 1 && q >= floor
    ensures p * q >= least * floor && 256 * q - p * q >= least * floor
  {
    ProductsOrdered(least, p, q);
    ProductsOrdered(least, 256 - p, q);
    assert (256 - p) * q == 256 * q - p * q;
    ProductsOrdered(floor, q, least);
    assert q * least == least * q && floor * least == least * floor;
  }

  /** A modelled bit leaves at least 7, or for the slow tables 15, times the range it started with or 2^16. */
  lemma ModelledBit(m: Model, d: Decision, floor: nat)
    requires RightRate(d) && Healthy(m, floor) && floor <= STEADY
    ensures Healthy(Advance(m, d), (if d.rate.Fast? then 7 else 15) * floor)
  {
    var p, r := m.probs[d.cell], ScaleUp(m.range);
    AdaptBounded(p, d.bit);
    SplitBounds(p, r / 256, floor, if d.rate.Fast? then 7 else 15);
  }

  lemma {:induction false} ModelledBitsSafe(m: Model, ds: seq<Decision>)
    requires AllRight(ds) && Healthy(m, STEADY)
    ensures Safe(m, ds, FLOOR) && Healthy(AdvanceAll(m, ds), STEADY)
    decreases |ds|
  {
    if ds != [] {
      ModelledBit(m, ds[0], STEADY);
      ModelledBitsSafe(Advance(m, ds[0]), ds[1..]);
    }
  }

  predicate AllHalves(ds: seq<Decision>) {
    forall i :: 0 <= i < |ds| ==> ds[i].Halve?
  }

  lemma {:induction false} HalvesSafe(m: Model, ds: seq<Decision>, floor: nat)
    requires AllHalves(ds) && Healthy(m, floor * Pow2(|ds|))
    ensures Safe(m, ds, floor) && Healthy(AdvanceAll(m, ds), floor)
    decreases |ds|
  {
    if ds != [] {
      HalfOf(floor, Pow2(|ds| - 1), m.range);
      HalvesSafe(Advance(m, ds[0]), ds[1..], floor);
    }
  }

  lemma HalfOf(floor: nat, p: nat, range: nat)
    requires p >= 1 && range >= floor * (2 * p)
    ensures range >= floor && range / 2 >= floor * p
  {
    assert floor * (2 * p) == 2 * (floor * p);
    ProductsOrdered(1, p, floor);
    assert 1 * floor == floor && p * floor == floor * p;
  }

  predicate AllSlow(ds: seq<Decision>) {
    AllRight(ds) && forall i :: 0 <= i < |ds| ==> ds[i].rate.Slow?
  }

  /** Three slow bits bring the range back from the floor that plain bits may leave. */
  lemma ThreeBitsRecover(m: Model, ds: seq<Decision>, slots: Slots)
    requires |ds| == 3 && AllSlow(ds) && Healthy(m, Floor(slots))
    ensures Safe(m, ds, Floor(slots)) && Healthy(AdvanceAll(m, ds), Rest(slots))
  {
    hide ProbabilitiesBounded, Advance;
    var f := Floor(slots);
    var m1 := Advance(m, ds[0]);
    var m2 := Advance(m1, ds[1]);
    var m3 := Advance(m2, ds[2]);
    ModelledBit(m, ds[0], f);
    ModelledBit(m1, ds[1], 15 * f);
    ModelledBit(m2, ds[2], if slots.Own? then STEADY else 450);
    assert ds[1..][1..] == [ds[2]] && ds[1..][1..][1..] == [];
    assert AdvanceAll(m2, [ds[2]]) == m3 && AdvanceAll(m1, ds[1..]) == m3;
    assert Safe(m2, [ds[2]], f) && Safe(m1, ds[1..], f);
  }

  // ----- numbers

  /** `v` without its last `n` binary digits. */
  function Leading(v: nat, n: nat): nat
    decreases n
  {
    if n == 0 then v else Leading(v / 2, n - 1)
  }

  lemma {:induction false} NumberScriptConcat(a: seq<Source>, b: seq<Source>, v: nat)
    ensures NumberScript(a + b, v) == NumberScript(a, Leading(v, BitCount(b))) + NumberScript(b, v)
    decreases |b|
  {
    if b == [] {
      assert a + b == a;
    } else {
      var last, init := b[|b| - 1], b[..|b| - 1];
      assert (a + b)[..|a + b| - 1] == a + init && (a + b)[|a + b| - 1] == last;
      if last.Fill? {
        NumberScriptConcat(a, init, v);
      } else {
        NumberScriptConcat(a, init, v / 2);
      }
    }
  }

  predicate SlowAsks(sources: seq<Source>) {
    AllAsk(sources) && forall i :: 0 <= i < |sources| ==> sources[i].cell >= SLOW_CELLS
  }

  lemma {:induction false} AskScript(sources: seq<Source>, v: nat)
    requires SlowAsks(sources)
    ensures |NumberScript(sources, v)| == |sources| && AllRight(NumberScript(sources, v))
    ensures forall i :: 0 <= i < |sources| ==> NumberScript(sources, v)[i].rate.Slow?
    decreases |sources|
  {
    if sources != [] {
      AskScript(sources[..|sources| - 1], v / 2);
    }
  }

  lemma {:induction false} PlainScript(k: nat, v: nat)
    ensures |NumberScript(Plains(k), v)| == k && AllHalves(NumberScript(Plains(k), v))
  {
    if k > 0 {
      assert Plains(k)[..k - 1] == Plains(k - 1);
      PlainScript(k - 1, v / 2);
    }
  }

  /** A renormalisation, as many plain bits as the largest slot has, and three slow ones. */
  lemma PlainStretchSafe(m: Model, halves: seq<Decision>, tail: seq<Decision>, slots: Slots)
    requires Healthy(m, STEADY) && AllHalves(halves) && |halves| <= Limit(slots) - 5
    requires |tail| == 3 && AllSlow(tail)
    ensures var ds := [Renorm] + (halves + tail);
      Safe(m, ds, Floor(slots)) && Healthy(AdvanceAll(m, ds), Rest(slots))
  {
    var filled := Advance(m, Renorm);
    PlainBitsFit(|halves|, slots);
    HalvesSafe(filled, halves, Floor(slots));
    ThreeBitsRecover(AdvanceAll(filled, halves), tail, slots);
    SafeConcat(filled, halves, tail, Floor(slots));
    assert ([Renorm] + (halves + tail))[1..] == halves + tail;
  }

  lemma PlainBitsFit(n: nat, slots: Slots)
    requires n <= Limit(slots) - 5
    ensures Floor(slots) * Pow2(n) <= TOP
  {
    assert Pow2(7) == 0x80 && Pow2(13) == 0x2000;
    assert Pow2(18) == 0x4_0000 && Pow2(23) == 0x80_0000;
    PowMonotone(n, Limit(slots) - 5);
  }

  /** The decisions of a number's plain bits and of the three modelled ones after them. */
  lemma RawPartShape(base: int, n: nat, v: nat) returns (halves: seq<Decision>, tail: seq<Decision>)
    requires SourcesFit(base, n) && base >= SLOW_CELLS && n >= 6
    ensures NumberScript(RawSources(n) + TailSources(base, n), v) == [Renorm] + (halves + tail)
    ensures AllHalves(halves) && |halves| == n - 5
    ensures |tail| == 3 && AllSlow(tail)
  {
    var v' := Leading(v, BitCount(TailSources(base, n)));
    halves, tail := NumberScript(Plains(n - 5), v'), NumberScript(TailSources(base, n), v);
    NumberScriptConcat(RawSources(n), TailSources(base, n), v);
    FillScript(n - 5, v');
    PlainScript(n - 5, v');
    TailIsSlow(base, n);
    AskScript(TailSources(base, n), v);
    assert [Renorm] + halves + tail == [Renorm] + (halves + tail);
  }

  lemma TailIsSlow(base: int, n: nat)
    requires SourcesFit(base, n) && base >= SLOW_CELLS && n >= 4
    ensures SlowAsks(TailSources(base, n)) && |TailSources(base, n)| == 3
  {
  }

  lemma FillScript(k: nat, v: nat)
    ensures NumberScript([Fill] + Plains(k), v) == [Renorm] + NumberScript(Plains(k), v)
  {
    hide NumberScript, Leading, BitCount, Plains;
    NumberScriptConcat([Fill], Plains(k), v);
    FillAlone(Leading(v, BitCount(Plains(k))));
  }

  lemma FillAlone(v: nat)
    ensures NumberScript([Fill], v) == [Renorm]
  {
    var one: seq<Source> := [Fill];
    assert one[..|one| - 1] == [];
    assert NumberScript(one[..|one| - 1], v) == [];
  }

  lemma AfterHeadSafe(m: Model, base: int, n: nat, v: nat, slots: Slots)
    requires SourcesFit(base, n) && base >= SLOW_CELLS && n <= Limit(slots) && Healthy(m, STEADY)
    ensures var ds := NumberScript(RawSources(n) + TailSources(base, n), v);
      Safe(m, ds, Floor(slots)) && Healthy(AdvanceAll(m, ds), Rest(slots))
  {
    if n >= 6 {
      var halves, tail := RawPartShape(base, n, v);
      PlainStretchSafe(m, halves, tail, slots);
    } else {
      assert RawSources(n) + TailSources(base, n) == TailSources(base, n);
      AskScript(TailSources(base, n), v);
      ModelledBitsSafe(m, NumberScript(TailSources(base, n), v));
      SafeWeaker(m, NumberScript(TailSources(base, n), v), FLOOR, Floor(slots));
    }
  }

  lemma NumberSafe(m: Model, base: int, n: nat, v: nat, slots: Slots)
    requires SourcesFit(base, n) && base >= SLOW_CELLS && n <= Limit(slots) && Healthy(m, STEADY)
    ensures var ds := NumberScript(Sources(base, n), v);
      Safe(m, ds, Floor(slots)) && Healthy(AdvanceAll(m, ds), Rest(slots))
  {
    var rest := RawSources(n) + TailSources(base, n);
    var head := NumberScript(HeadSources(base, n), Leading(v, BitCount(rest)));
    NumberScriptConcat(HeadSources(base, n), rest, v);
    AskScript(HeadSources(base, n), Leading(v, BitCount(rest)));
    ModelledBitsSafe(m, head);
    SafeWeaker(m, head, FLOOR, Floor(slots));
    AfterHeadSafe(AdvanceAll(m, head), base, n, v, slots);
    SafeConcat(m, head, NumberScript(rest, v), Floor(slots));
  }

  // ----- tokens

  lemma {:induction false} TreeScriptRight(base: int, stride: nat, n: nat, leaf: nat)
    requires TreeFits(base, stride, n) && Pow2(n) <= leaf < 2 * Pow2(n)
    requires base + stride * (Pow2(n) - 1) < SLOW_CELLS
    ensures AllRight(TreeScript(base, stride, n, leaf))
  {
    if n > 0 {
      NodesBelow(base, stride, n, leaf / 2);
      TreeScriptRight(base, stride, n - 1, leaf / 2);
    }
  }

  lemma {:induction false} ClassScriptRight(history: nat, step: nat, klass: nat)
    requires history < 8 && step <= klass <= 7
    ensures AllRight(ClassScript(history, step, klass))
    decreases 7 - step
  {
    if step < klass {
      ClassScriptRight(history, step + 1, klass);
    }
  }

  lemma LiteralSafe(m: Model, shift: nat, previous: byte, pos: nat, b: byte)
    requires Healthy(m, STEADY)
    ensures var ds := LiteralScript(shift, previous, pos, b);
      Safe(m, ds, FLOOR) && Healthy(AdvanceAll(m, ds), STEADY)
  {
    assert Pow2(8) == 256;
    TreeScriptRight(LiteralTree(LiteralContext(shift, previous, pos)), 1, 8, 256 + b);
    ModelledBitsSafe(m, LiteralScript(shift, previous, pos, b));
  }

  lemma LengthSafe(m: Model, history: nat, pos: nat, length: nat)
    requires history < 8 && 1 <= length <= 255 && Healthy(m, STEADY)
    ensures var ds := LengthScript(history, pos, length);
      Safe(m, ds, FLOOR) && Healthy(AdvanceAll(m, ds), STEADY)
  {
    KlassOf(length);
    var klass := Log2(length);
    var ds := ClassScript(history, 0, klass);
    ClassScriptRight(history, 0, klass);
    ModelledBitsSafe(m, ds);
    if klass > 0 {
      NumberSafe(AdvanceAll(m, ds), LengthBase(klass, Align(pos, klass - 1), history), klass, length, Own);
    }
    SafeConcat(m, ds, NumberScript(LengthSources(klass, pos, history), length), FLOOR);
  }

  lemma SlotSafe(m: Model, length: nat, slot: nat)
    requires 1 <= length <= 255 && slot < Pow2(SlotBits(length)) && Healthy(m, STEADY)
    ensures var ds := SlotScript(length, slot); Safe(m, ds, FLOOR) && Healthy(AdvanceAll(m, ds), STEADY)
  {
    hide Healthy, Safe, TreeScript;
    KlassOf(length);
    assert Pow2(3) == 8 && Pow2(5) == 32;
    TreeScriptRight(SlotTree(Log2(length), length <= 2), 8, SlotBits(length), Pow2(SlotBits(length)) + slot);
    ModelledBitsSafe(m, SlotScript(length, slot));
  }

  lemma DistanceSafe(m: Model, length: nat, distance: nat, slots: Slots)
    requires Writable(length, distance) && Log2(distance) <= Limit(slots) && Healthy(m, STEADY)
    ensures var ds := SlotScript(length, Log2(distance)) + DistanceScript(length, distance);
      Safe(m, ds, Floor(slots)) && Healthy(AdvanceAll(m, ds), Rest(slots))
  {
    KlassOf(length);
    var slot := Log2(distance);
    var ds := SlotScript(length, slot);
    SlotSafe(m, length, slot);
    SafeWeaker(m, ds, FLOOR, Floor(slots));
    if slot > 0 {
      NumberSafe(AdvanceAll(m, ds),
                 DistanceBase(slot, Align(if length > 2 then 1 else 0, slot - 1), Log2(length)), slot, distance, slots);
    }
    SafeConcat(m, ds, DistanceScript(length, distance), Floor(slots));
  }

  /** The match flag of the next token restores what the last one left of the range. */
  lemma FlagSafe(m: Model, history: nat, flag: Bit, slots: Slots)
    requires history < 8 && Healthy(m, Rest(slots))
    ensures var ds := FlagScript(history, flag);
      Safe(m, ds, Floor(slots)) && Healthy(AdvanceAll(m, ds), STEADY)
  {
    var d := Modelled(FlagCell(history), Slow, flag);
    ModelledBit(m, d, Rest(slots));
    assert FlagScript(history, flag) == [d] && [d][1..] == [];
    assert AdvanceAll(m, [d]) == Advance(m, d);
  }

  /** No slot of the reading is larger than the limit. */
  predicate Within(r: Reading, slots: Slots) {
    r.Read? && r.token.Copy? && r.token.distance >= 1 ==> Log2(r.token.distance) <= Limit(slots)
  }

  lemma TokenSafe(m: Model, shift: nat, history: nat, previous: byte, pos: nat, t: Token, slots: Slots)
    requires history < 8 && Healthy(m, Rest(slots)) && Writes(Read(t)) && Within(Read(t), slots)
    ensures var ds := TokenScript(shift, history, previous, pos, t);
      Safe(m, ds, Floor(slots)) && Healthy(AdvanceAll(m, ds), Rest(slots))
  {
    hide Healthy, Safe, FlagScript, LengthScript, SlotScript, DistanceScript, LiteralScript;
    var f := Floor(slots);
    match t
    case Literal(b) =>
      var first, second := FlagScript(history, 0), LiteralScript(shift, previous, pos, b);
      FlagSafe(m, history, 0, slots);
      LiteralSafe(AdvanceAll(m, first), shift, previous, pos, b);
      SafeWeaker(AdvanceAll(m, first), second, FLOOR, f);
      SafeConcat(m, first, second, f);
      SteadyRests(AdvanceAll(m, first + second), slots);
    case Copy(count, distance) =>
      var m1 := AdvanceAll(m, FlagScript(history, 1));
      var first := LengthScript(history, pos, count - 1);
      var second := SlotScript(count - 1, Log2(distance)) + DistanceScript(count - 1, distance);
      FlagSafe(m, history, 1, slots);
      LengthSafe(m1, history, pos, count - 1);
      SafeWeaker(m1, first, FLOOR, f);
      DistanceSafe(AdvanceAll(m1, first), count - 1, distance, slots);
      SafeConcat(m1, first, second, f);
      SafeConcat(m, FlagScript(history, 1), first + second, f);
  }

  lemma CopyStartSafe(m: Model, history: nat, pos: nat, length: nat, slots: Slots)
    requires history < 8 && 1 <= length <= 255 && Healthy(m, Rest(slots))
    ensures var ds := FlagScript(history, 1) + LengthScript(history, pos, length);
      Safe(m, ds, Floor(slots)) && Healthy(AdvanceAll(m, ds), STEADY)
  {
    hide Healthy, Safe, FlagScript, LengthScript;
    var first, second := FlagScript(history, 1), LengthScript(history, pos, length);
    FlagSafe(m, history, 1, slots);
    LengthSafe(AdvanceAll(m, first), history, pos, length);
    SafeWeaker(AdvanceAll(m, first), second, FLOOR, Floor(slots));
    SafeConcat(m, first, second, Floor(slots));
  }

  lemma SteadyRests(m: Model, slots: Slots)
    requires Healthy(m, STEADY)
    ensures Healthy(m, Rest(slots))
  {
  }

  lemma ReadingSafe(m: Model, shift: nat, history: nat, previous: byte, pos: nat, r: Reading, slots: Slots)
    requires history < 8 && Healthy(m, Rest(slots)) && Writes(r) && Within(r, slots)
    ensures var ds := ReadingScript(shift, history, previous, pos, r);
      Safe(m, ds, Floor(slots)) && Healthy(AdvanceAll(m, ds), Rest(slots))
  {
    hide Healthy, Safe, FlagScript, LengthScript, SlotScript, TokenScript;
    match r
    case Read(t) => TokenSafe(m, shift, history, previous, pos, t, slots);
    case EndMark =>
      CopyStartSafe(m, history, pos, 255, slots);
      SteadyRests(AdvanceAll(m, EndScript(history, pos)), slots);
    case OutsideTable(count, slot) =>
      var flag, length := FlagScript(history, 1), LengthScript(history, pos, count - 1);
      var third := SlotScript(count - 1, slot);
      CopyStartSafe(m, history, pos, count - 1, slots);
      SlotSafe(AdvanceAll(m, flag + length), count - 1, slot);
      SafeWeaker(AdvanceAll(m, flag + length), third, FLOOR, Floor(slots));
      SafeConcat(m, flag + length, third, Floor(slots));
      assert flag + length + third == flag + (length + third);
      SteadyRests(AdvanceAll(m, flag + length + third), slots);
  }

  /** The distances are small enough for the slots. */
  predicate AllWithin(tokens: seq<Token>, slots: Slots) {
    forall i :: 0 <= i < |tokens| ==> Within(Read(tokens[i]), slots)
  }

  lemma {:induction false} RunSafe(
    m: Model, shift: nat, history: nat, out: seq<byte>, tokens: seq<Token>, last: Reading, slots: Slots)
    requires history < 8 && |out| >= 1 && WellFormed(out, tokens) && Writes(last) && Healthy(m, Rest(slots))
    requires AllWithin(tokens, slots) && Within(last, slots)
    ensures var ds := RunScript(shift, history, out, tokens, last);
      Safe(m, ds, Floor(slots)) && Healthy(AdvanceAll(m, ds), Rest(slots))
    decreases |tokens|
  {
    hide Healthy, Safe, TokenScript, ReadingScript, ExpandToken, Within;
    if tokens == [] {
      ReadingSafe(m, shift, history, out[|out| - 1], |out|, last, slots);
    } else {
      var t := tokens[0];
      WellFormedIsWritable(|out|, t);
      var first := TokenScript(shift, history, out[|out| - 1], |out|, t);
      TokenSafe(m, shift, history, out[|out| - 1], |out|, t, slots);
      RunSafe(AdvanceAll(m, first), shift, HistoryAfter(history, t), ExpandToken(out, t), tokens[1..], last, slots);
      SafeConcat(m, first, RunScript(shift, HistoryAfter(history, t), ExpandToken(out, t), tokens[1..], last),
                 Floor(slots));
    }
  }

  lemma ScriptSafe(header: byte, tokens: seq<Token>, last: Reading, slots: Slots)
    requires StartsWithLiteral(tokens) && WellFormed([], tokens) && Writes(last)
    requires AllWithin(tokens, slots) && Within(last, slots)
    ensures var m, ds := StartModel(header), Script(header, tokens, last);
      Safe(m, ds, Floor(slots)) && Healthy(AdvanceAll(m, ds), Rest(slots))
  {
    var m := StartModel(header);
    var first := LiteralScript(header % 8, 0, 0, tokens[0].b);
    assert Healthy(m, STEADY);
    var out := ExpandToken([], tokens[0]);
    LiteralSafe(m, header % 8, 0, 0, tokens[0].b);
    SafeWeaker(m, first, FLOOR, Floor(slots));
    RunSafe(AdvanceAll(m, first), header % 8, 0, out, tokens[1..], last, slots);
    SafeConcat(m, first, RunScript(header % 8, 0, out, tokens[1..], last), Floor(slots));
  }

  /** All slots of well-formed tokens lie in memory. */
  lemma {:induction false} WellFormedWithin(out: seq<byte>, tokens: seq<Token>)
    requires WellFormed(out, tokens)
    ensures AllWithin(tokens, All)
    decreases |tokens|
  {
    if tokens != [] {
      WellFormedIsWritable(|out|, tokens[0]);
      WellFormedWithin(ExpandToken(out, tokens[0]), tokens[1..]);
      assert forall i :: 1 <= i < |tokens| ==> tokens[i] == tokens[1..][i - 1];
    }
  }

  /**
   Wherever a decoder is in a well-formed stream, its probabilities are within
   bounds. Its range is at least 2, and at least 2^11 if the slots up to there and
   in the rest of the stream are at most 18.
   */
  lemma DecoderStateBounded(
    input: seq<byte>, header: byte, code: word, tokens: seq<Token>, last: Reading, i: nat, slots: Slots)
    requires StartsWithLiteral(tokens) && WellFormed([], tokens) && Writes(last)
    requires slots.Own? ==> AllWithin(tokens, Own) && Within(last, Own)
    requires i <= |Script(header, tokens, last)|
    requires Follows(Start(header, code), input, Script(header, tokens, last)[..i])
    ensures Healthy(After(Start(header, code), input, Script(header, tokens, last)[..i]).model, Floor(slots))
  {
    WellFormedWithin([], tokens);
    ScriptSafe(header, tokens, last, slots);
    SafeEverywhere(StartModel(header), Script(header, tokens, last), i, Floor(slots));
    ModelAfter(Start(header, code), input, Script(header, tokens, last)[..i]);
  }
}
