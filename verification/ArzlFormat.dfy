/**
 The ARZL stream format: tokens, how the decoder reads them, and the scripts an
 encoder follows to write them.
 */
module ArzlFormat {
  import opened Machine
  import opened ArzlCoder
  import opened ArzlLayout
  import opened ArzlNumbers

  // ----- tokens and what they stand for

  datatype Token = Literal(b: byte) | Copy(count: nat, distance: nat)

  /** Copies `count` bytes one at a time, so that a copy may read its own output. */
  function CopyBytes(out: seq<byte>, count: nat, distance: nat): (r: seq<byte>)
    requires 1 <= distance <= |out|
    ensures |r| == |out| + count && out <= r
    decreases count
  {
    if count == 0 then out else CopyBytes(out + [out[|out| - distance]], count - 1, distance)
  }

  predicate WellFormedToken(produced: nat, t: Token) {
    match t
    case Literal(_) => true
    case Copy(count, distance) =>
      2 <= count <= 255 && 1 <= distance <= produced && distance < (if count <= 3 then 0x100 else 0x2000_0000)
  }

  predicate InReach(produced: nat, t: Token) {
    t.Copy? ==> 1 <= t.distance <= produced
  }

  function SizeOf(t: Token): nat {
    if t.Literal? then 1 else t.count
  }

  function ExpandToken(out: seq<byte>, t: Token): (r: seq<byte>)
    requires InReach(|out|, t)
    ensures |r| == |out| + SizeOf(t) && out <= r
  {
    match t
    case Literal(b) => out + [b]
    case Copy(count, distance) => CopyBytes(out, count, distance)
  }

  predicate WellFormed(out: seq<byte>, tokens: seq<Token>)
    decreases |tokens|
  {
    tokens == [] || (WellFormedToken(|out|, tokens[0]) && WellFormed(ExpandToken(out, tokens[0]), tokens[1..]))
  }

  function Expand(out: seq<byte>, tokens: seq<Token>): (r: seq<byte>)
    requires WellFormed(out, tokens)
    ensures out <= r
    decreases |tokens|
  {
    if tokens == [] then out else Expand(ExpandToken(out, tokens[0]), tokens[1..])
  }

  // ----- the decoder's contexts

  /** The low three bits of `x` shifted left, in steps of whole table copies. */
  function Align(x: nat, shift: nat): (a: nat)
    ensures shift == 0 ==> a == x % 4
    ensures shift == 1 ==> a == 2 * (x % 2)
    ensures shift >= 2 ==> a == 0
  {
    if shift >= 2 then
      FourDivides(x, shift);
      (x * Pow2(shift)) % 4
    else
      (x * Pow2(shift)) % 4
  }

  lemma FourDivides(x: nat, shift: nat)
    requires shift >= 2
    ensures (x * Pow2(shift)) % 4 == 0
  {
    assert Pow2(shift) == 4 * Pow2(shift - 2);
    assert x * Pow2(shift) == 4 * (x * Pow2(shift - 2));
  }

  function LiteralContext(shift: nat, previous: byte, pos: nat): nat {
    ((previous + 0x100 * (pos % 8)) / Pow2(shift)) % 8
  }

  /**
   The literal context: three bits of the previous byte for shifts up to five,
   and position bits above the byte's last two, or one, for shifts six and seven.
   */
  lemma LiteralContextBits(shift: nat, previous: byte, pos: nat)
    requires shift < 8
    ensures LiteralContext(shift, previous, pos) ==
      if shift <= 5 then (previous / Pow2(shift)) % 8
      else if shift == 6 then previous / 64 + 4 * (pos % 2)
      else previous / 128 + 2 * (pos % 4)
  {
    assert Pow2(0) == 1 && Pow2(1) == 2 && Pow2(2) == 4 && Pow2(3) == 8;
    assert Pow2(4) == 16 && Pow2(5) == 32 && Pow2(6) == 64 && Pow2(7) == 128;
    if shift <= 5 {
      assert Pow2(shift) * Pow2(5 - shift) == 32;
      LowContext(previous, pos % 8, Pow2(shift), Pow2(5 - shift));
    } else {
      HighContexts(previous, pos);
    }
  }

  lemma LowContext(x: nat, hi: nat, p: nat, q: nat)
    requires p * q == 32
    ensures ((x + 0x100 * hi) / p) % 8 == (x / p) % 8
  {
    assert p >= 1;
    Regroup(p, q, hi);
    DivShift(x, 8 * (q * hi), p);
    EightMore(x / p, q * hi);
  }

  lemma Regroup(p: nat, q: nat, hi: nat)
    requires p * q == 32
    ensures 0x100 * hi == (8 * (q * hi)) * p
  {
    assert (8 * (q * hi)) * p == 8 * hi * (p * q);
  }

  lemma EightMore(x: nat, y: nat)
    ensures (x + 8 * y) % 8 == x % 8
  {
  }

  lemma BitsAbove(x: nat, p: nat)
    ensures (x + 0x100 * p) / 64 == x / 64 + 4 * p
    ensures (x + 0x100 * p) / 128 == x / 128 + 2 * p
  {
  }

  lemma PositionBits(pos: nat)
    ensures pos % 8 % 2 == pos % 2 && pos % 8 % 4 == pos % 4
  {
    WholeTurns(4 * (pos / 8), 2 * (pos / 8), pos % 8);
  }

  lemma WholeTurns(a: nat, b: nat, r: nat)
    ensures (2 * a + r) % 2 == r % 2 && (4 * b + r) % 4 == r % 4
  {
  }

  /** Three bits of `h + 4p` or `h + 2p`, where `h` has the bits below. */
  lemma LowBits(h: nat, p: nat, low: nat)
    requires p < 8
    ensures h < 4 && low == p % 2 ==> (h + 4 * p) % 8 == h + 4 * low
    ensures h < 2 && low == p % 4 ==> (h + 2 * p) % 8 == h + 2 * low
  {
  }

  lemma HighContexts(x: byte, pos: nat)
    ensures ((x + 0x100 * (pos % 8)) / 64) % 8 == x / 64 + 4 * (pos % 2)
    ensures ((x + 0x100 * (pos % 8)) / 128) % 8 == x / 128 + 2 * (pos % 4)
  {
    BitsAbove(x, pos % 8);
    PositionBits(pos);
    LowBits(x / 64, pos % 8, pos % 2);
    LowBits(x / 128, pos % 8, pos % 4);
  }

  function LengthSources(klass: nat, pos: nat, history: nat): seq<Source>
    requires klass <= 7 && history < 8
  {
    if klass == 0 then [] else Sources(LengthBase(klass, Align(pos, klass - 1), history), klass)
  }

  function DistanceSources(slot: nat, long: bool, klass: nat): seq<Source>
    requires slot <= LAST_SLOT_IN_MEMORY && klass <= 7
  {
    if slot == 0 then []
    else Sources(DistanceBase(slot, Align(if long then 1 else 0, slot - 1), klass), slot)
  }

  lemma SourceCounts(klass: nat, pos: nat, history: nat, slot: nat, long: bool)
    requires klass <= 7 && history < 8 && slot <= LAST_SLOT_IN_MEMORY
    ensures BitCount(LengthSources(klass, pos, history)) == klass
    ensures BitCount(DistanceSources(slot, long, klass)) == slot
  {
    if klass > 0 {
      SourcesCount(LengthBase(klass, Align(pos, klass - 1), history), klass);
    }
    if slot > 0 {
      SourcesCount(DistanceBase(slot, Align(if long then 1 else 0, slot - 1), klass), slot);
    }
  }

  /** A length of class `klass` lies in [2^klass, 2^(klass+1)), a distance of slot `slot` in [2^slot, 2^(slot+1)). */
  lemma NumberRanges(c: Coder, input: seq<byte>, klass: nat, pos: nat, history: nat, slot: nat, long: bool)
    requires klass <= 7 && history < 8 && slot <= LAST_SLOT_IN_MEMORY
    ensures Pow2(klass) <= ReadNumber(c, input, LengthSources(klass, pos, history)).1 < 2 * Pow2(klass)
    ensures Pow2(slot) <= ReadNumber(c, input, DistanceSources(slot, long, klass)).1 < 2 * Pow2(slot)
  {
    SourceCounts(klass, pos, history, slot, long);
  }

  /** Short copies have three-bit slots, the others five-bit ones. */
  function SlotBits(length: nat): nat {
    if length <= 2 then 3 else 5
  }

  // ----- reading

  function ReadLiteral(c: Coder, input: seq<byte>, shift: nat, previous: byte, pos: nat): (Coder, byte) {
    assert Pow2(8) == 256;
    var (c1, leaf) := ReadTree(c, input, LiteralTree(LiteralContext(shift, previous, pos)), 1, 8);
    (c1, leaf - 256)
  }

  /** What follows: a token, the end mark, or the slot of a distance whose cells are not in memory. */
  datatype Reading = Read(token: Token) | EndMark | OutsideTable(count: nat, slot: nat)

  /** A length class and then the number: one less than the size of a copy, or 255 for the end mark. */
  function ReadLength(c: Coder, input: seq<byte>, history: nat, pos: nat): (r: (Coder, nat))
    requires history < 8
    ensures 1 <= r.1 <= 255
  {
    var (c1, klass) := ReadClass(c, input, history, 0);
    SourceCounts(klass, pos, history, 0, false);
    assert Pow2(7) == 128;
    PowMonotone(klass, 7);
    ReadNumber(c1, input, LengthSources(klass, pos, history))
  }

  function ReadSlot(c: Coder, input: seq<byte>, length: nat): (r: (Coder, nat))
    requires 1 <= length < 255
    ensures r.1 < Pow2(SlotBits(length))
  {
    KlassOf(length);
    assert Pow2(3) == 8 && Pow2(5) == 32;
    var (c1, leaf) := ReadTree(c, input, SlotTree(Log2(length), length <= 2), 8, SlotBits(length));
    (c1, leaf - Pow2(SlotBits(length)))
  }

  /** A distance slot and then the number. */
  function ReadDistance(c: Coder, input: seq<byte>, length: nat): (r: (Coder, Reading))
    requires 1 <= length < 255
    ensures r.1.Read? ==> r.1.token.Copy? && r.1.token.count == length + 1 && r.1.token.distance >= 1
  {
    KlassOf(length);
    var (c1, slot) := ReadSlot(c, input, length);
    if slot > LAST_SLOT_IN_MEMORY then (c1, OutsideTable(length + 1, slot))
    else
      var (c2, distance) := ReadNumber(c1, input, DistanceSources(slot, length > 2, Log2(length)));
      (c2, Read(Copy(length + 1, distance)))
  }

  function ReadCopy(c: Coder, input: seq<byte>, history: nat, pos: nat): (r: (Coder, Reading))
    requires history < 8
    ensures r.1.Read? ==> r.1.token.Copy? && 2 <= r.1.token.count <= 255 && r.1.token.distance >= 1
  {
    var (c1, length) := ReadLength(c, input, history, pos);
    if length == 255 then (c1, EndMark) else ReadDistance(c1, input, length)
  }

  /** A token, match flag included. */
  function ReadToken(c: Coder, input: seq<byte>, shift: nat, history: nat, previous: byte, pos: nat)
    : (r: (Coder, Reading))
    requires history < 8
    ensures r.1.Read? && r.1.token.Copy? ==> 2 <= r.1.token.count <= 255 && r.1.token.distance >= 1
  {
    var (c1, flag) := ReadModelled(c, input, FlagCell(history), Slow);
    if flag == 1 then ReadCopy(c1, input, history, pos)
    else
      var (c2, b) := ReadLiteral(c1, input, shift, previous, pos);
      (c2, Read(Literal(b)))
  }

  lemma {:induction false} PowMonotone(a: nat, b: nat)
    requires a <= b
    ensures Pow2(a) <= Pow2(b)
    decreases b - a
  {
    if a < b {
      PowMonotone(a, b - 1);
    }
  }

  lemma ShortClass(klass: nat, length: nat)
    requires Pow2(klass) <= length < 2 * Pow2(klass) && klass <= 7
    ensures length <= 2 ==> klass <= 1
    ensures length > 2 ==> klass >= 1
  {
    if klass >= 2 {
      PowMonotone(2, klass);
      assert Pow2(2) == 4;
    }
  }

  // ----- the decoder

  datatype Outcome =
    | Done(out: seq<byte>, end: nat)
    | BadDistance
    | NoSpace
    | Undefined

  function NextHistory(history: nat): nat {
    if history > 0 then history - 1 else 0
  }

  function HistoryAfter(history: nat, t: Token): nat {
    if t.Copy? then 7 else NextHistory(history)
  }

  /** Decodes from just before a match flag. */
  function DecodeRun(shift: nat, capacity: nat, c: Coder, input: seq<byte>, history: nat, out: seq<byte>): Outcome
    requires history < 8 && 1 <= |out| <= capacity
    decreases capacity - |out|
  {
    var (c', reading) := ReadToken(c, input, shift, history, out[|out| - 1], |out|);
    match reading
    case EndMark => Done(out, c'.pos)
    case OutsideTable(_, _) => Undefined
    case Read(t) =>
      if !InReach(|out|, t) then BadDistance
      else if capacity < |out| + SizeOf(t) then NoSpace
      else DecodeRun(shift, capacity, c', input, HistoryAfter(history, t), ExpandToken(out, t))
  }

  /** The decoder goes on only after a token that is in reach and fits. */
  predicate GoesOn(reading: Reading, produced: nat, capacity: nat) {
    reading.Read? && InReach(produced, reading.token) && produced + SizeOf(reading.token) <= capacity
  }

  /** The course of a run: the tokens accepted, what was read then, and the decoder after it. */
  datatype Course = Course(tokens: seq<Token>, last: Reading, end: Coder)

  function CourseOf(shift: nat, capacity: nat, c: Coder, input: seq<byte>, history: nat, out: seq<byte>): Course
    requires history < 8 && 1 <= |out| <= capacity
    decreases capacity - |out|
  {
    var (c', reading) := ReadToken(c, input, shift, history, out[|out| - 1], |out|);
    if !GoesOn(reading, |out|, capacity) then Course([], reading, c')
    else
      var t := reading.token;
      var rest := CourseOf(shift, capacity, c', input, HistoryAfter(history, t), ExpandToken(out, t));
      rest.(tokens := [t] + rest.tokens)
  }

  /** What a run that has produced `out` makes of a reading with which it does not go on. */
  function OutcomeOf(out: seq<byte>, last: Reading, end: nat): Outcome {
    match last
    case EndMark => Done(out, end)
    case OutsideTable(_, _) => Undefined
    case Read(t) => if InReach(|out|, t) then NoSpace else BadDistance
  }

  function InitialProbability(header: byte): byte {
    16 * (8 - (header / 8) % 4)
  }

  function Start(header: byte, code: word): Coder {
    Coder(StartModel(header), code, 5)
  }

  function StartModel(header: byte): Model {
    Model(0xFFFF_FFFF, seq(TABLE_SIZE, _ => InitialProbability(header)))
  }

  function FirstCode(input: seq<byte>): word {
    assert Pow256(4) == 0x1_0000_0000;
    BigEndianBounds(0, [ByteAt(input, 1), ByteAt(input, 2), ByteAt(input, 3), ByteAt(input, 4)]);
    BigEndian(0, [ByteAt(input, 1), ByteAt(input, 2), ByteAt(input, 3), ByteAt(input, 4)])
  }

  /** Whether the stream holds coded tokens, rather than a stored block. */
  predicate IsCoded(input: seq<byte>) {
    ByteAt(input, 0) < 0x80
  }

  function Decompress(input: seq<byte>, capacity: nat): Outcome
    requires IsCoded(input)
  {
    if capacity == 0 then NoSpace
    else
      var header := ByteAt(input, 0);
      var (c, b) := ReadLiteral(Start(header, FirstCode(input)), input, header % 8, 0, 0);
      DecodeRun(header % 8, capacity, c, input, 0, [b])
  }

  /** The content of a stored block: a length and as many bytes. */
  function StoredBytes(input: seq<byte>, n: nat): seq<byte> {
    seq(n, k requires 0 <= k < n => ByteAt(input, 5 + k))
  }

  /** A stream of either kind. */
  function DecompressStream(input: seq<byte>, capacity: nat): Outcome {
    if IsCoded(input) then Decompress(input, capacity)
    else
      var n := FirstCode(input);
      if capacity < n then NoSpace else Done(StoredBytes(input, n), 5 + n)
  }

  // ----- scripts

  function LiteralScript(shift: nat, previous: byte, pos: nat, b: byte): seq<Decision> {
    assert Pow2(8) == 256;
    TreeScript(LiteralTree(LiteralContext(shift, previous, pos)), 1, 8, 256 + b)
  }

  function LengthScript(history: nat, pos: nat, length: nat): seq<Decision>
    requires history < 8 && 1 <= length <= 255
  {
    KlassOf(length);
    ClassScript(history, 0, Log2(length))
    + NumberScript(LengthSources(Log2(length), pos, history), length)
  }

  lemma KlassOf(length: nat)
    requires 1 <= length <= 255
    ensures Log2(length) <= 7
    ensures length <= 2 ==> Log2(length) <= 1
    ensures length > 2 ==> Log2(length) >= 1
  {
    assert Pow2(8) == 256;
    if Log2(length) >= 8 {
      PowMonotone(8, Log2(length));
    }
    ShortClass(Log2(length), length);
  }

  function SlotScript(length: nat, slot: nat): seq<Decision>
    requires 1 <= length <= 255 && slot < Pow2(SlotBits(length))
  {
    KlassOf(length);
    assert Pow2(3) == 8 && Pow2(5) == 32;
    TreeScript(SlotTree(Log2(length), length <= 2), 8, SlotBits(length), Pow2(SlotBits(length)) + slot)
  }

  function DistanceScript(length: nat, distance: nat): seq<Decision>
    requires 1 <= length <= 255 && distance >= 1 && Log2(distance) <= LAST_SLOT_IN_MEMORY
  {
    KlassOf(length);
    NumberScript(DistanceSources(Log2(distance), length > 2, Log2(length)), distance)
  }

  lemma SlotOf(count: nat, distance: nat)
    requires distance >= 1 && distance < (if count <= 3 then 0x100 else 0x2000_0000)
    ensures Log2(distance) <= LAST_SLOT_IN_MEMORY
    ensures distance < 0x8_0000 ==> Log2(distance) <= LAST_SLOT
    ensures count <= 3 ==> Log2(distance) < 8
  {
    assert Pow2(8) == 0x100 && Pow2(14) == 0x4000 && Pow2(19) == 0x8_0000;
    assert Pow2(24) == 0x100_0000 && Pow2(29) == 0x2000_0000;
    if Log2(distance) >= 29 {
      PowMonotone(29, Log2(distance));
    } else if distance < 0x8_0000 && Log2(distance) >= 19 {
      PowMonotone(19, Log2(distance));
    } else if count <= 3 && Log2(distance) >= 8 {
      PowMonotone(8, Log2(distance));
    }
  }

  function FlagScript(history: nat, flag: Bit): seq<Decision>
    requires history < 8
  {
    [Modelled(FlagCell(history), Slow, flag)]
  }

  predicate Writable(length: nat, distance: nat) {
    && 1 <= length < 255 && distance >= 1
    && Log2(distance) <= LAST_SLOT_IN_MEMORY && Log2(distance) < Pow2(SlotBits(length))
  }

  function CopyScript(history: nat, pos: nat, length: nat, distance: nat): seq<Decision>
    requires history < 8 && Writable(length, distance)
  {
    LengthScript(history, pos, length) + (SlotScript(length, Log2(distance)) + DistanceScript(length, distance))
  }

  /** What an encoder writes for a token other than the first. */
  function TokenScript(shift: nat, history: nat, previous: byte, pos: nat, t: Token): seq<Decision>
    requires history < 8 && (t.Copy? ==> t.count >= 1 && Writable(t.count - 1, t.distance))
  {
    match t
    case Literal(b) => FlagScript(history, 0) + LiteralScript(shift, previous, pos, b)
    case Copy(count, distance) => FlagScript(history, 1) + CopyScript(history, pos, count - 1, distance)
  }

  lemma WellFormedIsWritable(produced: nat, t: Token)
    requires WellFormedToken(produced, t)
    ensures t.Copy? ==> Writable(t.count - 1, t.distance)
  {
    assert Pow2(3) == 8 && Pow2(5) == 32;
    if t.Copy? {
      SlotOf(t.count, t.distance);
    }
  }

  function EndScript(history: nat, pos: nat): seq<Decision>
    requires history < 8
  {
    FlagScript(history, 1) + LengthScript(history, pos, 255)
  }

  /** What can be written: any copy with a slot in memory, the end mark, or a larger slot. */
  predicate Writes(r: Reading) {
    match r
    case Read(t) => t.Copy? ==> t.count >= 2 && Writable(t.count - 1, t.distance)
    case EndMark => true
    case OutsideTable(count, slot) => 2 <= count <= 255 && LAST_SLOT_IN_MEMORY < slot < Pow2(SlotBits(count - 1))
  }

  function ReadingScript(shift: nat, history: nat, previous: byte, pos: nat, r: Reading): seq<Decision>
    requires history < 8 && Writes(r)
  {
    match r
    case Read(t) => TokenScript(shift, history, previous, pos, t)
    case EndMark => EndScript(history, pos)
    case OutsideTable(count, slot) =>
      FlagScript(history, 1) + (LengthScript(history, pos, count - 1) + SlotScript(count - 1, slot))
  }

  /** The script of some tokens and of what comes after them. */
  function RunScript(shift: nat, history: nat, out: seq<byte>, tokens: seq<Token>, last: Reading): seq<Decision>
    requires history < 8 && |out| >= 1 && WellFormed(out, tokens) && Writes(last)
    decreases |tokens|
  {
    if tokens == [] then
      ReadingScript(shift, history, out[|out| - 1], |out|, last)
    else
      WellFormedIsWritable(|out|, tokens[0]);
      TokenScript(shift, history, out[|out| - 1], |out|, tokens[0])
      + RunScript(shift, HistoryAfter(history, tokens[0]), ExpandToken(out, tokens[0]), tokens[1..], last)
  }

  /** Every stream of tokens begins with a literal, which needs no flag. */
  predicate StartsWithLiteral(tokens: seq<Token>) {
    tokens != [] && tokens[0].Literal?
  }

  function Script(header: byte, tokens: seq<Token>, last: Reading): seq<Decision>
    requires StartsWithLiteral(tokens) && WellFormed([], tokens) && Writes(last)
  {
    LiteralScript(header % 8, 0, 0, tokens[0].b)
    + RunScript(header % 8, 0, ExpandToken([], tokens[0]), tokens[1..], last)
  }
}
