/**
 A stream followed bit by bit: two literals, a long copy that overlaps itself, a
 literal, a short copy from far back, and the end mark. It uses a literal context
 of position bits, a start below one half, and numbers with plain bits.
 */
module ArzlSample {
  import opened Machine
  import opened ArzlCoder
  import opened ArzlLayout
  import opened ArzlNumbers
  import opened ArzlFormat
  import opened ArzlTheorems
  import opened ArzlDecoder

  const STREAM: seq<byte> := [
    0x16, 0x62, 0xDD, 0xAE, 0x92, 0x16, 0x4F, 0xA, 0x16, 0xD7, 0x77, 0xB0, 0, 0, 0
  ]

  /** From the registers of `c` a bit of probability `p`/256 leads to these. */
  predicate Turns(c: Coder, p: byte, bit: Bit, range: word, code: word, pos: nat) {
    var small := c.model.range < 0x100_0000;
    var r := if small then c.model.range * 0x100 else c.model.range;
    var x := if small then (c.code * 0x100 + ByteAt(STREAM, c.pos)) % 0x1_0000_0000 else c.code;
    var bound := p * (r / 0x100);
    && pos == c.pos + (if small then 1 else 0)
    && bit == (if x < bound then 1 else 0)
    && range == (if x < bound then bound else r - bound)
    && code == (if x < bound then x else x - bound)
  }

  /** A probability after one more bit. */
  function Moved(p: byte, rate: Rate, bit: Bit): byte {
    match rate
    case Fast => if bit == 1 then p - p / 8 + 31 else p - p / 8
    case Slow => if bit == 1 then p - p / 16 + 15 else p - p / 16
  }

  lemma Asked(c: Coder, cell: Cell, rate: Rate, p: byte, bit: Bit, range: word, code: word, pos: nat)
    returns (c': Coder)
    requires c.model.probs[cell] == p && Turns(c, p, bit, range, code, pos)
    ensures ReadModelled(c, STREAM, cell, rate) == (c', bit)
    ensures c' == Coder(Model(range, c.model.probs[cell := Moved(p, rate, bit)]), code, pos)
  {
    c' := ReadModelled(c, STREAM, cell, rate).0;
  }

  // ----- readers, one bit at a time

  lemma Node(start: Coder, c: Coder, base: int, stride: nat, k: nat, node: nat, cell: Cell, p: byte, bit: Bit,
             range: word, code: word, pos: nat) returns (c': Coder)
    requires TreeFits(base, stride, k + 1) && (c, node) == ReadTree(start, STREAM, base, stride, k)
    requires cell == if stride == 1 then base + node else base + 8 * node
    requires c.model.probs[cell] == p && Turns(c, p, bit, range, code, pos)
    ensures c' == Coder(Model(range, c.model.probs[cell := Moved(p, Fast, bit)]), code, pos)
    ensures (c', 2 * node + bit) == ReadTree(start, STREAM, base, stride, k + 1)
  {
    hide Turns, ReadModelled;
    c' := Asked(c, cell, Fast, p, bit, range, code, pos);
  }

  lemma AskBit(start: Coder, c: Coder, sources: seq<Source>, v: nat, cell: Cell, p: byte, bit: Bit,
               range: word, code: word, pos: nat) returns (c': Coder, sources': seq<Source>)
    requires (c, v) == ReadNumber(start, STREAM, sources)
    requires c.model.probs[cell] == p && Turns(c, p, bit, range, code, pos)
    ensures c' == Coder(Model(range, c.model.probs[cell := Moved(p, Slow, bit)]), code, pos)
    ensures sources' == sources + [Ask(cell)] && (c', 2 * v + bit) == ReadNumber(start, STREAM, sources')
  {
    hide Turns, ReadModelled;
    c' := Asked(c, cell, Slow, p, bit, range, code, pos);
    sources' := sources + [Ask(cell)];
    assert sources'[..|sources|] == sources;
  }

  lemma Refilled(start: Coder, c: Coder, sources: seq<Source>, v: nat) returns (sources': seq<Source>)
    requires (c, v) == ReadNumber(start, STREAM, sources) && c.model.range >= 0x100_0000
    ensures sources' == sources + [Fill] && (c, v) == ReadNumber(start, STREAM, sources')
  {
    sources' := sources + [Fill];
    assert sources'[..|sources|] == sources;
  }

  lemma Halved(start: Coder, c: Coder, sources: seq<Source>, v: nat, bit: Bit, range: word, code: word)
    returns (c': Coder, sources': seq<Source>)
    requires (c, v) == ReadNumber(start, STREAM, sources) && range == c.model.range / 2
    requires if bit == 1 then code == c.code < range else c.code == code + range
    ensures c' == Coder(Model(range, c.model.probs), code, c.pos)
    ensures sources' == sources + [Plain] && (c', 2 * v + bit) == ReadNumber(start, STREAM, sources')
  {
    c' := ReadHalf(c).0;
    sources' := sources + [Plain];
    assert sources'[..|sources|] == sources;
  }

  lemma Class(start: Coder, c: Coder, history: nat, step: nat, cell: Cell, p: byte, bit: Bit,
              range: word, code: word, pos: nat) returns (c': Coder)
    requires history < 8 && step < 7 && cell == 2928 + 8 * step + history
    requires ReadClass(start, STREAM, history, 0) == ReadClass(c, STREAM, history, step)
    requires c.model.probs[cell] == p && Turns(c, p, bit, range, code, pos)
    ensures c' == Coder(Model(range, c.model.probs[cell := Moved(p, Slow, bit)]), code, pos)
    ensures ReadClass(start, STREAM, history, 0)
      == if bit == 1 then ReadClass(c', STREAM, history, step + 1) else (c', step)
  {
    hide Turns, ReadModelled;
    c' := Asked(c, cell, Slow, p, bit, range, code, pos);
  }

  // ----- the stream, piece by piece

  /** The cells that the first `k` pieces ask for, or more. */
  predicate Used(k: nat, i: nat) {
    || (k >= 1 && i < 256) || (k >= 3 && 1275 <= i < 1530)
    || (k >= 2 && i == 2920) || (k >= 9 && i == 2927) || (k >= 11 && i == 2926)
    || (2928 <= i < 2984 && ((k >= 5 && i % 8 == 0) || (k >= 12 && i % 8 == 6) || (k >= 17 && i % 8 == 7)))
    || (k >= 6 && 3144 <= i < 3176) || (k >= 7 && 2046 <= i < 2286 && i % 8 == 6) || (k >= 8 && i == 2357)
    || (k >= 13 && i == 2990) || (k >= 14 && 2289 <= i < 2338 && i % 8 == 1) || (k >= 15 && 2504 <= i < 2536)
    || (k >= 18 && 3176 <= i < 3208)
  }

  /** The nodes that the third literal asks for, and the second does not. */
  predicate ThirdPath(c: Coder) {
    && c.model.probs[1278] == 96 && c.model.probs[1283] == 96 && c.model.probs[1292] == 96
    && c.model.probs[1310] == 96 && c.model.probs[1346] == 96 && c.model.probs[1418] == 96
  }

  /** After `k` pieces: the registers, the cells that were not asked for, and those that will be asked for again. */
  predicate At(k: nat, c: Coder, range: word, code: word, pos: nat) {
    && c.model.range == range && c.code == code && c.pos == pos
    && (forall i :: 0 <= i < TABLE_SIZE && !Used(k, i) ==> c.model.probs[i] == 96)
    && (2 <= k < 4 ==> c.model.probs[2920] == 90)
    && (3 <= k < 10 ==> c.model.probs[1275] == 84 && c.model.probs[1276] == 115 && ThirdPath(c))
    && (9 <= k < 16 ==> c.model.probs[2927] == 90)
  }

  // ----- where the bits of the numbers come from

  lemma AlignsTo()
    ensures Align(2, 5) == 0 && Align(1, 0) == 1 && Align(104, 0) == 0 && Align(0, 5) == 0 && Align(107, 6) == 0
  {
    assert Pow2(0) == 1;
  }

  lemma SixOfLength()
    ensures LengthSources(6, 2, 0)
      == [Ask(3144), Ask(3144), Fill, Plain, Ask(3168), Ask(3152), Ask(3160)]
  {
    AlignsTo();
  }

  lemma OneOfDistance()
    ensures DistanceSources(1, true, 6)
      == [Ask(2357)]
  {
    AlignsTo();
  }

  lemma OneOfLength()
    ensures LengthSources(1, 104, 6)
      == [Ask(2990)]
  {
    AlignsTo();
  }

  lemma SixOfDistance()
    ensures DistanceSources(6, false, 1)
      == [Ask(2504), Ask(2504), Fill, Plain, Ask(2528), Ask(2512), Ask(2520)]
  {
    AlignsTo();
  }

  lemma SevenOfLength()
    ensures LengthSources(7, 107, 7)
      == [Ask(3183), Ask(3183), Fill, Plain, Plain, Ask(3207), Ask(3191), Ask(3199)]
  {
    AlignsTo();
  }

  lemma Root(c: Coder, base: int, stride: nat, n: nat)
    requires (stride == 1 && n == 8) || (stride == 8 && (n == 3 || n == 5))
    requires -1 <= base < 2900
    ensures forall k :: 1 <= k <= n ==> TreeFits(base, stride, k)
    ensures TreeFits(base, stride, 0) && ReadTree(c, STREAM, base, stride, 0) == (c, 1)
  {
    Levels();
  }

  lemma Levels()
    ensures Pow2(0) == 1 && Pow2(1) == 2 && Pow2(2) == 4 && Pow2(3) == 8 && Pow2(4) == 16 && Pow2(5) == 32
    ensures Pow2(6) == 64 && Pow2(7) == 128 && Pow2(8) == 256
  {
  }

  lemma ClassEnds(c: Coder, history: nat)
    requires history < 8
    ensures ReadClass(c, STREAM, history, 7) == (c, 7)
  {
  }

  lemma NoBit(c: Coder)
    ensures ReadNumber(c, STREAM, []) == (c, 1)
  {
  }

  lemma Piece1(c: Coder) returns (c': Coder)
    requires At(0, c, 0xFFFF_FFFF, 0x62DDAE92, 5)
    ensures At(1, c', 0xC5C100, 0x796FF2, 5)
    ensures TreeFits(-1, 1, 8) && ReadTree(c, STREAM, -1, 1, 8) == (c', 376)
  {
    hide ReadTree;
    Root(c, -1, 1, 8);
    c' := c;
    c' := Node(c, c', -1, 1, 0, 1, 0, 96, 0, 0xA000005F, 0x2DDAEF2, 5);
    c' := Node(c, c', -1, 1, 1, 2, 1, 96, 1, 0x3C000000, 0x2DDAEF2, 5);
    c' := Node(c, c', -1, 1, 2, 5, 4, 96, 1, 0x16800000, 0x2DDAEF2, 5);
    c' := Node(c, c', -1, 1, 3, 11, 10, 96, 1, 0x8700000, 0x2DDAEF2, 5);
    c' := Node(c, c', -1, 1, 4, 23, 22, 96, 1, 0x32A0000, 0x2DDAEF2, 5);
    c' := Node(c, c', -1, 1, 5, 47, 46, 96, 0, 0x1FA4000, 0x1ADEEF2, 5);
    c' := Node(c, c', -1, 1, 6, 94, 93, 96, 0, 0x13C6800, 0xF016F2, 5);
    c' := Node(c, c', -1, 1, 7, 188, 187, 96, 0, 0xC5C100, 0x796FF2, 5);
  }

  lemma Piece2(c: Coder) returns (c': Coder)
    requires At(1, c, 0xC5C100, 0x796FF2, 5)
    ensures At(2, c', 0x7B98A000, 0x2F479216, 6)
    ensures ReadModelled(c, STREAM, FlagCell(0), Slow) == (c', 0)
  {
    c' := Asked(c, 2920, Slow, 96, 0, 0x7B98A000, 0x2F479216, 6);
  }

  lemma Piece3Upper(c: Coder) returns (c': Coder)
    requires At(2, c, 0x7B98A000, 0x2F479216, 6)
    ensures c'.model.range == 0x412D760 && c'.code == 0xEE5616 && c'.pos == 6
    ensures c'.model.probs == c.model.probs[1275 := 84][1276 := 115][1279 := 115][1285 := 115]
    ensures (forall k :: 1 <= k <= 8 ==> TreeFits(1274, 1, k)) && ReadTree(c, STREAM, 1274, 1, 4) == (c', 23)
  {
    hide ReadTree;
    Root(c, 1274, 1, 8);
    c' := c;
    c' := Node(c, c', 1274, 1, 0, 1, 1275, 96, 0, 0x4D3F6400, 0xEE5616, 6);
    c' := Node(c, c', 1274, 1, 1, 2, 1276, 96, 1, 0x1CF7C580, 0xEE5616, 6);
    c' := Node(c, c', 1274, 1, 2, 5, 1279, 96, 1, 0xADCE9E0, 0xEE5616, 6);
    c' := Node(c, c', 1274, 1, 3, 11, 1285, 96, 1, 0x412D760, 0xEE5616, 6);
  }

  lemma Piece3(c: Coder) returns (c': Coder)
    requires At(2, c, 0x7B98A000, 0x2F479216, 6)
    ensures At(3, c', 0x3948FD80, 0x81A4F, 7)
    ensures TreeFits(1274, 1, 8) && ReadTree(c, STREAM, 1274, 1, 8) == (c', 377)
  {
    hide ReadTree;
    c' := Piece3Upper(c);
    c' := Node(c, c', 1274, 1, 4, 23, 1297, 96, 1, 0x18710A0, 0xEE5616, 6);
    c' := Node(c, c', 1274, 1, 5, 47, 1321, 96, 0, 0xF46AA0, 0x5BB016, 6);
    c' := Node(c, c', 1274, 1, 6, 94, 1368, 96, 0, 0x98C2A400, 0x81A4F, 7);
    c' := Node(c, c', 1274, 1, 7, 188, 1462, 96, 1, 0x3948FD80, 0x81A4F, 7);
  }

  lemma Piece4(c: Coder) returns (c': Coder)
    requires At(3, c, 0x3948FD80, 0x81A4F, 7)
    ensures At(4, c', 0x1423A8F2, 0x81A4F, 7)
    ensures ReadModelled(c, STREAM, FlagCell(0), Slow) == (c', 1)
  {
    c' := Asked(c, 2920, Slow, 90, 1, 0x1423A8F2, 0x81A4F, 7);
  }

  lemma Piece5(c: Coder) returns (c': Coder)
    requires At(4, c, 0x1423A8F2, 0x81A4F, 7)
    ensures At(5, c', 0x8F5FAA0, 0x2B9EC2A, 8)
    ensures ReadClass(c, STREAM, 0, 0) == (c', 6)
  {
    hide ReadClass;
    c' := c;
    c' := Class(c, c', 0, 0, 2928, 96, 1, 0x78D5F00, 0x81A4F, 7);
    c' := Class(c, c', 0, 1, 2936, 96, 1, 0x2D503A0, 0x81A4F, 7);
    c' := Class(c, c', 0, 2, 2944, 96, 1, 0x10FE120, 0x81A4F, 7);
    c' := Class(c, c', 0, 3, 2952, 96, 1, 0x65F460, 0x81A4F, 7);
    c' := Class(c, c', 0, 4, 2960, 96, 1, 0x263BA400, 0x81A4F0A, 8);
    c' := Class(c, c', 0, 5, 2968, 96, 1, 0xE565D80, 0x81A4F0A, 8);
    c' := Class(c, c', 0, 6, 2976, 96, 0, 0x8F5FAA0, 0x2B9EC2A, 8);
  }

  lemma Piece6(c: Coder) returns (c': Coder)
    requires At(5, c, 0x8F5FAA0, 0x2B9EC2A, 8)
    ensures At(6, c', 0x2529EBE0, 0x21691116, 9)
    ensures ReadNumber(c, STREAM, LengthSources(6, 2, 0)) == (c', 100)
  {
    hide ReadNumber;
    NoBit(c);
    var s: seq<Source> := [];
    c' := c;
    c', s := AskBit(c, c', s, 1, 3144, 96, 1, 0x35C3DC0, 0x2B9EC2A, 8);
    c', s := AskBit(c, c', s, 3, 3144, 105, 0, 0x1FB68BB, 0x1591725, 8);
    s := Refilled(c, c', s, 6);
    c', s := Halved(c, c', s, 6, 0, 0xFDB45D, 0x5B62C8);
    c', s := AskBit(c, c', s, 12, 3168, 96, 1, 0x5F23A2E0, 0x5B62C816, 9);
    c', s := AskBit(c, c', s, 25, 3152, 96, 0, 0x3B764620, 0x37B56B56, 9);
    c', s := AskBit(c, c', s, 50, 3160, 96, 0, 0x2529EBE0, 0x21691116, 9);
    assert s == [Ask(3144), Ask(3144), Fill, Plain, Ask(3168), Ask(3152), Ask(3160)];
    SixOfLength();
  }

  lemma Piece7(c: Coder) returns (c': Coder)
    requires At(6, c, 0x2529EBE0, 0x21691116, 9)
    ensures At(7, c', 0x2206440, 0x1EADB56, 9)
    ensures TreeFits(2038, 8, 5) && ReadTree(c, STREAM, 2038, 8, 5) == (c', 33)
  {
    hide ReadTree;
    Root(c, 2038, 8, 5);
    c' := c;
    c' := Node(c, c', 2038, 8, 0, 1, 2046, 96, 0, 0x173A33C0, 0x137958F6, 9);
    c' := Node(c, c', 2038, 8, 1, 2, 2054, 96, 0, 0xE8460A0, 0xAC385D6, 9);
    c' := Node(c, c', 2038, 8, 2, 4, 2070, 96, 0, 0x912BCA0, 0x551E1D6, 9);
    c' := Node(c, c', 2038, 8, 3, 8, 2102, 96, 0, 0x5ABB620, 0x1EADB56, 9);
    c' := Node(c, c', 2038, 8, 4, 16, 2166, 96, 1, 0x2206440, 0x1EADB56, 9);
  }

  lemma Piece8(c: Coder) returns (c': Coder)
    requires At(7, c, 0x2206440, 0x1EADB56, 9)
    ensures At(8, c', 0x1543EC0, 0x11EB5D6, 9)
    ensures ReadNumber(c, STREAM, DistanceSources(1, true, 6)) == (c', 2)
  {
    hide ReadNumber;
    NoBit(c);
    var s: seq<Source> := [];
    c' := c;
    c', s := AskBit(c, c', s, 1, 2357, 96, 0, 0x1543EC0, 0x11EB5D6, 9);
    assert s == [Ask(2357)];
    OneOfDistance();
  }

  lemma Piece9(c: Coder) returns (c': Coder)
    requires At(8, c, 0x1543EC0, 0x11EB5D6, 9)
    ensures At(9, c', 0xD4A780, 0x9F1E96, 9)
    ensures ReadModelled(c, STREAM, FlagCell(7), Slow) == (c', 0)
  {
    c' := Asked(c, 2927, Slow, 96, 0, 0xD4A780, 0x9F1E96, 9);
  }

  lemma Piece10(c: Coder) returns (c': Coder)
    requires At(9, c, 0xD4A780, 0x9F1E96, 9)
    ensures At(10, c', 0x1B04740, 0x26E139, 10)
    ensures TreeFits(1274, 1, 8) && ReadTree(c, STREAM, 1274, 1, 8) == (c', 289)
  {
    hide ReadTree;
    Root(c, 1274, 1, 8);
    c' := c;
    c' := Node(c, c', 1274, 1, 0, 1, 1275, 84, 0, 0x8EE08A00, 0x5957A0D7, 10);
    c' := Node(c, c', 1274, 1, 1, 2, 1276, 115, 0, 0x4EB1AC02, 0x1928C2D9, 10);
    c' := Node(c, c', 1274, 1, 2, 4, 1278, 96, 1, 0x1D82A080, 0x1928C2D9, 10);
    c' := Node(c, c', 1274, 1, 3, 9, 1283, 96, 0, 0x1271A480, 0xE17C6D9, 10);
    c' := Node(c, c', 1274, 1, 4, 18, 1292, 96, 0, 0xB870700, 0x72D2959, 10);
    c' := Node(c, c', 1274, 1, 5, 36, 1310, 96, 0, 0x7346460, 0x2DA86B9, 10);
    c' := Node(c, c', 1274, 1, 6, 72, 1346, 96, 0, 0x480BEE0, 0x26E139, 10);
    c' := Node(c, c', 1274, 1, 7, 144, 1418, 96, 1, 0x1B04740, 0x26E139, 10);
  }

  lemma Piece11(c: Coder) returns (c': Coder)
    requires At(10, c, 0x1B04740, 0x26E139, 10)
    ensures At(11, c', 0xA21AA0, 0x26E139, 10)
    ensures ReadModelled(c, STREAM, FlagCell(6), Slow) == (c', 1)
  {
    c' := Asked(c, 2926, Slow, 96, 1, 0xA21AA0, 0x26E139, 10);
  }

  lemma Piece12(c: Coder) returns (c': Coder)
    requires At(11, c, 0xA21AA0, 0x26E139, 10)
    ensures At(12, c', 0x25FE3D80, 0x10157AF7, 11)
    ensures ReadClass(c, STREAM, 6, 0) == (c', 1)
  {
    hide ReadClass;
    c' := c;
    c' := Class(c, c', 6, 0, 2934, 96, 1, 0x3CC9FC00, 0x26E13977, 11);
    c' := Class(c, c', 6, 1, 2942, 96, 0, 0x25FE3D80, 0x10157AF7, 11);
  }

  lemma Piece13(c: Coder) returns (c': Coder)
    requires At(12, c, 0x25FE3D80, 0x10157AF7, 11)
    ensures At(13, c', 0x17BEE6A0, 0x1D62417, 11)
    ensures ReadNumber(c, STREAM, LengthSources(1, 104, 6)) == (c', 2)
  {
    hide ReadNumber;
    NoBit(c);
    var s: seq<Source> := [];
    c' := c;
    c', s := AskBit(c, c', s, 1, 2990, 96, 0, 0x17BEE6A0, 0x1D62417, 11);
    assert s == [Ask(2990)];
    OneOfLength();
  }

  lemma Piece14(c: Coder) returns (c': Coder)
    requires At(13, c, 0x17BEE6A0, 0x1D62417, 11)
    ensures At(14, c', 0x2164740, 0x959317, 11)
    ensures TreeFits(2281, 8, 3) && ReadTree(c, STREAM, 2281, 8, 3) == (c', 14)
  {
    hide ReadTree;
    Root(c, 2281, 8, 3);
    c' := c;
    c' := Node(c, c', 2281, 8, 0, 1, 2289, 96, 1, 0x8E79640, 0x1D62417, 11);
    c' := Node(c, c', 2281, 8, 1, 3, 2305, 96, 1, 0x356D840, 0x1D62417, 11);
    c' := Node(c, c', 2281, 8, 2, 7, 2337, 96, 0, 0x2164740, 0x959317, 11);
  }

  lemma Piece15(c: Coder) returns (c': Coder)
    requires At(14, c, 0x2164740, 0x959317, 11)
    ensures At(15, c', 0x5317F20, 0, 12)
    ensures ReadNumber(c, STREAM, DistanceSources(6, false, 1)) == (c', 101)
  {
    hide ReadNumber;
    NoBit(c);
    var s: seq<Source> := [];
    c' := c;
    c', s := AskBit(c, c', s, 1, 2504, 96, 1, 0xC85AA0, 0x959317, 11);
    c', s := AskBit(c, c', s, 3, 2504, 105, 0, 0x762D7460, 0x4365EC10, 12);
    s := Refilled(c, c', s, 6);
    c', s := Halved(c, c', s, 6, 0, 0x3B16BA30, 0x84F31E0);
    c', s := AskBit(c, c', s, 12, 2528, 96, 1, 0x162885C0, 0x84F31E0, 12);
    c', s := AskBit(c, c', s, 25, 2512, 96, 0, 0xDD953E0, 0, 12);
    c', s := AskBit(c, c', s, 50, 2520, 96, 1, 0x5317F20, 0, 12);
    assert s == [Ask(2504), Ask(2504), Fill, Plain, Ask(2528), Ask(2512), Ask(2520)];
    SixOfDistance();
  }

  lemma Piece16(c: Coder) returns (c': Coder)
    requires At(15, c, 0x5317F20, 0, 12)
    ensures At(16, c', 0x1D366A6, 0, 12)
    ensures ReadModelled(c, STREAM, FlagCell(7), Slow) == (c', 1)
  {
    c' := Asked(c, 2927, Slow, 90, 1, 0x1D366A6, 0, 12);
  }

  lemma Piece17(c: Coder) returns (c': Coder)
    requires At(16, c, 0x1D366A6, 0, 12)
    ensures At(17, c', 0x7CC7A0, 0, 13)
    ensures ReadClass(c, STREAM, 7, 0) == (c', 7)
  {
    hide ReadClass;
    c' := c;
    c' := Class(c, c', 7, 0, 2935, 96, 1, 0xAF4640, 0, 12);
    c' := Class(c, c', 7, 1, 2943, 96, 1, 0x41BA5800, 0, 13);
    c' := Class(c, c', 7, 2, 2951, 96, 1, 0x18A5E100, 0, 13);
    c' := Class(c, c', 7, 3, 2959, 96, 1, 0x93E3460, 0, 13);
    c' := Class(c, c', 7, 4, 2967, 96, 1, 0x3775380, 0, 13);
    c' := Class(c, c', 7, 5, 2975, 96, 1, 0x14CBF20, 0, 13);
    c' := Class(c, c', 7, 6, 2983, 96, 1, 0x7CC7A0, 0, 13);
    ClassEnds(c', 7);
  }

  lemma Piece18(c: Coder) returns (c': Coder)
    requires At(17, c, 0x7CC7A0, 0, 13)
    ensures At(18, c', 0x40C5F000, 0, 15)
    ensures ReadNumber(c, STREAM, LengthSources(7, 107, 7)) == (c', 255)
  {
    hide ReadNumber;
    NoBit(c);
    var s: seq<Source> := [];
    c' := c;
    c', s := AskBit(c, c', s, 1, 3183, 96, 1, 0x2ECADC00, 0, 14);
    c', s := AskBit(c, c', s, 3, 3183, 105, 1, 0x1331343C, 0, 14);
    s := Refilled(c, c', s, 7);
    c', s := Halved(c, c', s, 7, 1, 0x9989A1E, 0);
    c', s := Halved(c, c', s, 15, 1, 0x4CC4D0F, 0);
    c', s := AskBit(c, c', s, 31, 3207, 96, 1, 0x1CC9CE0, 0, 14);
    c', s := AskBit(c, c', s, 63, 3191, 96, 1, 0xACBA80, 0, 14);
    c', s := AskBit(c, c', s, 127, 3199, 96, 1, 0x40C5F000, 0, 15);
    assert s == [Ask(3183), Ask(3183), Fill, Plain, Plain, Ask(3207), Ask(3191), Ask(3199)];
    SevenOfLength();
  }

  // ----- token by token

  lemma Beginning()
    ensures At(0, Start(0x16, FirstCode(STREAM)), 0xFFFF_FFFF, 0x62DDAE92, 5)
  {
    FirstFour(STREAM);
  }

  lemma ContextAt(previous: byte, pos: nat)
    ensures LiteralContext(6, previous, pos) == previous / 64 + 4 * (pos % 2)
  {
    LiteralContextBits(6, previous, pos);
  }

  lemma Classes()
    ensures Log2(100) == 6 && Log2(2) == 1 && Log2(255) == 7
  {
    Levels();
    Log2Unique(100, 6);
    Log2Unique(2, 1);
    Log2Unique(255, 7);
  }

  lemma FirstByte(c: Coder) returns (c': Coder)
    requires At(0, c, 0xFFFF_FFFF, 0x62DDAE92, 5)
    ensures At(1, c', 0xC5C100, 0x796FF2, 5)
    ensures ReadLiteral(c, STREAM, 6, 0, 0) == (c', 0x78)
  {
    hide At, ReadTree, TreeFits, LiteralContext;
    ContextAt(0, 0);
    c' := Piece1(c);
  }

  lemma SecondByte(c: Coder) returns (c': Coder)
    requires At(1, c, 0xC5C100, 0x796FF2, 5)
    ensures At(3, c', 0x3948FD80, 0x81A4F, 7)
    ensures ReadToken(c, STREAM, 6, 0, 0x78, 1) == (c', Read(Literal(0x79)))
  {
    hide At, ReadTree, TreeFits, LiteralContext, ReadModelled, ReadCopy;
    ContextAt(0x78, 1);
    var c1 := Piece2(c);
    c' := Piece3(c1);
  }

  lemma LongCopy(c: Coder) returns (c': Coder)
    requires At(3, c, 0x3948FD80, 0x81A4F, 7)
    ensures At(8, c', 0x1543EC0, 0x11EB5D6, 9)
    ensures ReadToken(c, STREAM, 6, 0, 0x79, 2) == (c', Read(Copy(101, 2)))
  {
    hide At, ReadTree, TreeFits, ReadModelled, ReadClass, ReadNumber, ReadLiteral, LengthSources, DistanceSources, Log2;
    Classes();
    Levels();
    c' := Piece4(c);
    c' := Piece5(c');
    c' := Piece6(c');
    c' := Piece7(c');
    c' := Piece8(c');
  }

  lemma ThirdByte(c: Coder) returns (c': Coder)
    requires At(8, c, 0x1543EC0, 0x11EB5D6, 9)
    ensures At(10, c', 0x1B04740, 0x26E139, 10)
    ensures ReadToken(c, STREAM, 6, 7, 0x78, 103) == (c', Read(Literal(0x21)))
  {
    hide At, ReadTree, TreeFits, LiteralContext, ReadModelled, ReadCopy;
    ContextAt(0x78, 103);
    var c1 := Piece9(c);
    c' := Piece10(c1);
  }

  lemma ShortCopy(c: Coder) returns (c': Coder)
    requires At(10, c, 0x1B04740, 0x26E139, 10)
    ensures At(15, c', 0x5317F20, 0, 12)
    ensures ReadToken(c, STREAM, 6, 6, 0x21, 104) == (c', Read(Copy(3, 101)))
  {
    hide At, ReadTree, TreeFits, ReadModelled, ReadClass, ReadNumber, ReadLiteral, LengthSources, DistanceSources, Log2;
    Classes();
    Levels();
    c' := Piece11(c);
    c' := Piece12(c');
    c' := Piece13(c');
    c' := Piece14(c');
    c' := Piece15(c');
  }

  lemma LastToken(c: Coder) returns (c': Coder)
    requires At(15, c, 0x5317F20, 0, 12)
    ensures c'.pos == 15 && ReadToken(c, STREAM, 6, 7, 0x79, 107) == (c', EndMark)
  {
    hide At, ReadModelled, ReadClass, ReadNumber, ReadLiteral, LengthSources;
    var c1 := Piece16(c);
    var c2 := Piece17(c1);
    c' := Piece18(c2);
    assert c'.pos == 15 by {
      Position(18, c', 0x40C5F000, 0, 15);
    }
  }

  lemma Position(k: nat, c: Coder, range: word, code: word, pos: nat)
    requires At(k, c, range, code, pos)
    ensures c.pos == pos
  {
  }

  // ----- the whole stream

  /** The output while only the first two literals and the long copy are out. */
  function Alternating(n: nat): (out: seq<byte>)
    ensures |out| == n
  {
    seq(n, i requires 0 <= i < n => if i % 2 == 0 then 0x78 else 0x79)
  }

  const RESULT: seq<byte> := Alternating(103) + [0x21, 0x79, 0x78, 0x79]

  lemma LongExpands()
    ensures CopyBytes([0x78, 0x79], 101, 2) == Alternating(103)
  {
    var start: seq<byte> := [0x78, 0x79];
    assert Alternating(103)[..2] == start;
    CopyRepeats(start, 101, 2, Alternating(103));
  }

  lemma ShortExpands()
    ensures CopyBytes(Alternating(103) + [0x21], 3, 101) == RESULT
  {
    CopyRepeats(Alternating(103) + [0x21], 3, 101, RESULT);
  }

  lemma RunTurns(capacity: nat, c: Coder, history: nat, out: seq<byte>, t: Token, c': Coder)
    requires history < 8 && 1 <= |out| <= capacity && InReach(|out|, t) && |out| + SizeOf(t) <= capacity
    requires ReadToken(c, STREAM, 6, history, out[|out| - 1], |out|) == (c', Read(t))
    ensures DecodeRun(6, capacity, c, STREAM, history, out)
      == DecodeRun(6, capacity, c', STREAM, if t.Copy? then 7 else if history > 0 then history - 1 else 0,
                   if t.Copy? then CopyBytes(out, t.count, t.distance) else out + [t.b])
  {
    hide ReadToken;
  }

  lemma RunEnds(capacity: nat, c: Coder, history: nat, out: seq<byte>, c': Coder)
    requires history < 8 && 1 <= |out| <= capacity
    requires ReadToken(c, STREAM, 6, history, out[|out| - 1], |out|) == (c', EndMark)
    ensures DecodeRun(6, capacity, c, STREAM, history, out) == Done(out, c'.pos)
  {
    hide ReadToken;
  }

  /** The decompressor, run on these bytes with room for the result. */
  lemma KnownStream(capacity: nat)
    requires capacity >= 107
    ensures IsCoded(STREAM) && Decompress(STREAM, capacity) == Done(RESULT, 15)
  {
    hide At, ReadToken, DecodeRun, ReadLiteral, CopyBytes, Alternating, Decompress, Start, FirstCode;
    Beginning();
    LongExpands();
    ShortExpands();
    LastBytes();
    var c0 := Start(0x16, FirstCode(STREAM));
    var c1 := FirstByte(c0);
    var c2 := SecondByte(c1);
    RunTurns(capacity, c1, 0, [0x78], Literal(0x79), c2);
    var c3 := LongCopy(c2);
    RunTurns(capacity, c2, 0, [0x78, 0x79], Copy(101, 2), c3);
    var c4 := ThirdByte(c3);
    RunTurns(capacity, c3, 7, Alternating(103), Literal(0x21), c4);
    var c5 := ShortCopy(c4);
    RunTurns(capacity, c4, 6, Alternating(103) + [0x21], Copy(3, 101), c5);
    var c6 := LastToken(c5);
    RunEnds(capacity, c5, 7, RESULT, c6);
    FirstOfRun(capacity, c1);
    assert [0x78] + [0x79] == [0x78, 0x79];
  }

  lemma FirstOfRun(capacity: nat, c: Coder)
    requires capacity >= 1 && ReadLiteral(Start(0x16, FirstCode(STREAM)), STREAM, 6, 0, 0) == (c, 0x78)
    ensures IsCoded(STREAM) && Decompress(STREAM, capacity) == DecodeRun(6, capacity, c, STREAM, 0, [0x78])
  {
    hide ReadLiteral, DecodeRun, FirstCode;
    assert ByteAt(STREAM, 0) == 0x16;
  }

  lemma LastBytes()
    ensures Alternating(103)[102] == 0x78 && ByteAt(STREAM, 0) == 0x16
  {
  }
}
