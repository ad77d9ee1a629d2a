/**
 The decompressor as it runs: registers, a probability array updated in place,
 and an output buffer. Each method is proved against the reader of the same
 name in the format's modules.
 */
module ArzlDecoder {
  import opened Machine
  import opened ArzlCoder
  import opened ArzlLayout
  import opened ArzlNumbers
  import opened ArzlFormat

  const OUT_OF_SPACE: word := 0x8056_0201
  const INVALID_DISTANCE: word := 0x8056_0200

  datatype Status = Decoded(length: nat, end: nat) | Failed(code: word) | OutOfTable

  lemma TreeFitsBelow(base: int, stride: nat, k: nat, n: nat)
    requires TreeFits(base, stride, n) && (k <= n || k == 0)
    ensures TreeFits(base, stride, k)
  {
    PowMonotone(k, n);
  }

  lemma PlainsSnoc(sources: seq<Source>, k: nat)
    ensures sources + Plains(k) + [Plain] == sources + Plains(k + 1)
  {
    assert Plains(k + 1) == Plains(k) + [Plain];
  }

  lemma TailAppended(s: seq<Source>, base: int, n: nat)
    requires SourcesFit(base, n)
    ensures n == 1 ==> s + TailSources(base, n) == s
    ensures n == 2 ==> s + TailSources(base, n) == s + [Ask(base + 8)]
    ensures n == 3 ==> s + TailSources(base, n) == s + [Ask(base + 8)] + [Ask(base + 16)]
    ensures n >= 4 ==> s + TailSources(base, n) == s + [Ask(base + 24)] + [Ask(base + 8)] + [Ask(base + 16)]
  {
  }

  lemma RootRead(c: Coder, input: seq<byte>, base: int, stride: nat, n: nat)
    requires TreeFits(base, stride, n)
    ensures TreeFits(base, stride, 0) && ReadTree(c, input, base, stride, 0) == (c, 1)
  {
    TreeFitsBelow(base, stride, 0, n);
  }

  lemma SlotTreeFits(n: nat)
    requires 1 <= n < 255
    ensures TreeFits(SlotTree(Log2(n), n <= 2), 8, SlotBits(n))
  {
    KlassOf(n);
    assert Pow2(3) == 8 && Pow2(5) == 32;
  }

  lemma CopyStep(out: seq<byte>, count: nat, distance: nat)
    requires 1 <= distance <= |out| && count >= 1
    ensures CopyBytes(out, count, distance) == CopyBytes(out + [out[|out| - distance]], count - 1, distance)
    ensures CopyBytes(out, 0, distance) == out
  {
  }

  lemma SourcesInOrder(base: int, n: nat)
    requires SourcesFit(base, n)
    ensures HeadSources(base, n) + RawSources(n) + TailSources(base, n) == Sources(base, n)
  {
    hide HeadSources, RawSources, TailSources;
  }

  lemma NoSources(input: seq<byte>)
    ensures forall c :: ReadNumber(c, input, []) == (c, 1)
  {
  }

  lemma FirstFour(input: seq<byte>)
    ensures FirstCode(input)
      == 0x100_0000 * ByteAt(input, 1) + 0x1_0000 * ByteAt(input, 2) + 0x100 * ByteAt(input, 3) + ByteAt(input, 4)
  {
    var a: byte, b: byte, c: byte, d: byte := ByteAt(input, 1), ByteAt(input, 2), ByteAt(input, 3), ByteAt(input, 4);
    assert [a, b, c, d][1..] == [b, c, d] && [b, c, d][1..] == [c, d] && [c, d][1..] == [d];
    var x: nat, y: nat, z: nat := a * 0x100 + b, (a * 0x100 + b) * 0x100 + c, ((a * 0x100 + b) * 0x100 + c) * 0x100 + d;
    assert BigEndian(y, [d]) == z && BigEndian(x, [c, d]) == z && BigEndian(a, [b, c, d]) == z;
  }

  /** A run that meets a literal. */
  lemma LiteralTurn(shift: nat, capacity: nat, c: Coder, input: seq<byte>, history: nat, out: seq<byte>)
    requires history < 8 && 1 <= |out| <= capacity && ReadModelled(c, input, FlagCell(history), Slow).1 == 0
    ensures var c1 := ReadModelled(c, input, FlagCell(history), Slow).0;
      var (c2, b) := ReadLiteral(c1, input, shift, out[|out| - 1], |out|);
      DecodeRun(shift, capacity, c, input, history, out) ==
      if |out| == capacity then NoSpace else DecodeRun(shift, capacity, c2, input, NextHistory(history), out + [b])
  {
    hide ReadModelled, ReadLiteral, ReadCopy;
  }

  /** A run that meets a copy or the end mark. */
  lemma CopyTurn(shift: nat, capacity: nat, c: Coder, input: seq<byte>, history: nat, out: seq<byte>)
    requires history < 8 && 1 <= |out| <= capacity && ReadModelled(c, input, FlagCell(history), Slow).1 == 1
    ensures var (c2, reading) := ReadCopy(ReadModelled(c, input, FlagCell(history), Slow).0, input, history, |out|);
      DecodeRun(shift, capacity, c, input, history, out) ==
      match reading
      case EndMark => Done(out, c2.pos)
      case OutsideTable(_, _) => Undefined
      case Read(t) =>
        if |out| < t.distance then BadDistance
        else if capacity < |out| + t.count then NoSpace
        else DecodeRun(shift, capacity, c2, input, 7, CopyBytes(out, t.count, t.distance))
  {
    hide ReadModelled, ReadLiteral, ReadCopy;
  }

  class Decoder {
    const input: seq<byte>
    const buffer: array<byte>
    const capacity: nat
    const probs: array<byte>
    var range: word
    var code: word
    var pos: nat
    var length: nat

    ghost predicate Valid()
      reads this
    {
      probs.Length == TABLE_SIZE && probs != buffer && length <= capacity <= buffer.Length
    }

    ghost function Snapshot(): Coder
      requires Valid()
      reads this, probs
    {
      Coder(Model(range, probs[..]), code, pos)
    }

    ghost function Out(): seq<byte>
      requires Valid()
      reads this, buffer
    {
      buffer[..length]
    }

    constructor (buffer: array<byte>, capacity: nat, input: seq<byte>)
      requires capacity <= buffer.Length
      ensures Valid() && fresh(probs) && this.input == input && this.buffer == buffer
      ensures this.capacity == capacity && length == 0
      ensures Snapshot() == Start(ByteAt(input, 0), FirstCode(input))
    {
      var p: byte := 16 * (8 - (ByteAt(input, 0) / 8) % 4);
      this.input := input;
      this.buffer := buffer;
      this.capacity := capacity;
      probs := new byte[TABLE_SIZE](_ => p);
      range := 0xFFFF_FFFF;
      FirstFour(input);
      code := 0x100_0000 * ByteAt(input, 1) + 0x1_0000 * ByteAt(input, 2) + 0x100 * ByteAt(input, 3) + ByteAt(input, 4);
      pos := 5;
      length := 0;
      new;
      assert probs[..] == seq(TABLE_SIZE, _ => InitialProbability(ByteAt(input, 0)));
    }

    method Renormalise()
      requires Valid()
      modifies this
      ensures Valid() && length == old(length)
      ensures Snapshot() == Refill(old(Snapshot()), input)
    {
      if range < TOP {
        range := range * 256;
        code := (code * 256 + ByteAt(input, pos)) % 0x1_0000_0000;
        pos := pos + 1;
      }
    }

    method DecodeBit(cell: Cell, rate: Rate) returns (bit: Bit)
      requires Valid()
      modifies this, probs
      ensures Valid() && length == old(length)
      ensures (Snapshot(), bit) == ReadModelled(old(Snapshot()), input, cell, rate)
    {
      ghost var was := Snapshot();
      var p := probs[cell];
      Renormalise();
      SplitInRange(p, range / 256);
      var bound := p * (range / 256);
      if code >= bound {
        bit := 0;
        range := range - bound;
        code := code - bound;
      } else {
        bit := 1;
        range := bound;
      }
      match rate
      case Fast => probs[cell] := p - p / 8 + if bit == 1 then 31 else 0;
      case Slow => probs[cell] := p - p / 16 + if bit == 1 then 15 else 0;
      assert probs[..] == was.model.probs[cell := Adapt(p, rate, bit)];
    }

    method DecodeHalf() returns (bit: Bit)
      requires Valid()
      modifies this
      ensures Valid() && length == old(length)
      ensures (Snapshot(), bit) == ReadHalf(old(Snapshot()))
    {
      range := range / 2;
      if code < range {
        bit := 1;
      } else {
        bit := 0;
        code := code - range;
      }
    }

    method DecodeNode(node: nat, cell: Cell, base: int, stride: nat, ghost start: Coder, ghost k: nat)
      returns (child: nat)
      requires Valid() && TreeFits(base, stride, k + 1) && Pow2(k) <= node < 2 * Pow2(k)
      requires cell == NodeCell(base, stride, k + 1, node)
      requires (Snapshot(), node) == ReadTree(start, input, base, stride, k)
      modifies this, probs
      ensures Valid() && length == old(length)
      ensures (Snapshot(), child) == ReadTree(start, input, base, stride, k + 1)
    {
      var bit := DecodeBit(cell, Fast);
      child := 2 * node + bit;
    }

    /** Walks down a bit tree of `n` levels. */
    method DecodeTree(base: int, stride: nat, n: nat) returns (leaf: nat)
      requires Valid() && TreeFits(base, stride, n)
      modifies this, probs
      ensures Valid() && length == old(length)
      ensures (Snapshot(), leaf) == ReadTree(old(Snapshot()), input, base, stride, n)
    {
      hide ReadTree, TreeFits;
      leaf := 1;
      var limit := Pow2(n);
      ghost var k, start := 0, Snapshot();
      RootRead(start, input, base, stride, n);
      TreeFitsBelow(base, stride, 0, n);
      while leaf < limit
        invariant Valid() && length == old(length)
        invariant k <= n && TreeFits(base, stride, k)
        invariant (Snapshot(), leaf) == ReadTree(start, input, base, stride, k)
        decreases n - k
      {
        TreeFitsBelow(base, stride, k + 1, n);
        leaf := DecodeNode(leaf, NodeCell(base, stride, n, leaf), base, stride, start, k);
        k := k + 1;
      }
      if k < n {
        PowMonotone(k + 1, n);
      }
    }

    /** Appends a bit to the number read so far. */
    method AppendBit(v: nat, cell: Cell, ghost start: Coder, ghost sources: seq<Source>) returns (v': nat)
      requires Valid() && (Snapshot(), v) == ReadNumber(start, input, sources)
      modifies this, probs
      ensures Valid() && length == old(length)
      ensures (Snapshot(), v') == ReadNumber(start, input, sources + [Ask(cell)])
    {
      assert (sources + [Ask(cell)])[..|sources|] == sources;
      var bit := DecodeBit(cell, Slow);
      v' := 2 * v + bit;
    }

    method AppendFill(v: nat, ghost start: Coder, ghost sources: seq<Source>)
      requires Valid() && (Snapshot(), v) == ReadNumber(start, input, sources)
      modifies this
      ensures Valid() && length == old(length)
      ensures (Snapshot(), v) == ReadNumber(start, input, sources + [Fill])
    {
      assert (sources + [Fill])[..|sources|] == sources;
      Renormalise();
    }

    method AppendHalf(v: nat, ghost start: Coder, ghost sources: seq<Source>) returns (v': nat)
      requires Valid() && (Snapshot(), v) == ReadNumber(start, input, sources)
      modifies this
      ensures Valid() && length == old(length)
      ensures (Snapshot(), v') == ReadNumber(start, input, sources + [Plain])
    {
      assert (sources + [Plain])[..|sources|] == sources;
      var bit := DecodeHalf();
      v' := 2 * v + bit;
    }

    method AppendPlain(v: nat, count: nat, ghost start: Coder, ghost sources: seq<Source>) returns (v': nat)
      requires Valid() && (Snapshot(), v) == ReadNumber(start, input, sources)
      modifies this
      ensures Valid() && length == old(length)
      ensures (Snapshot(), v') == ReadNumber(start, input, sources + Plains(count))
    {
      v' := v;
      var k := count;
      assert sources + Plains(0) == sources;
      while k != 0
        invariant Valid() && length == old(length) && 0 <= k <= count
        invariant (Snapshot(), v') == ReadNumber(start, input, sources + Plains(count - k))
        decreases k
      {
        PlainsSnoc(sources, count - k);
        v' := AppendHalf(v', start, sources + Plains(count - k));
        k := k - 1;
      }
    }

    /** The bits of a number before the last, modelled, ones. */
    method DecodeHead(base: int, n: nat) returns (v: nat)
      requires Valid() && SourcesFit(base, n)
      modifies this, probs
      ensures Valid() && length == old(length)
      ensures (Snapshot(), v) == ReadNumber(old(Snapshot()), input, HeadSources(base, n) + RawSources(n))
    {
      hide ReadNumber;
      NoSources(input);
      ghost var start := Snapshot();
      v := AppendBit(1, base, start, []);
      assert [] + [Ask(base)] == [Ask(base)];
      if n >= 4 && n != 4 {
        v := AppendBit(v, base, start, [Ask(base)]);
        ghost var head := [Ask(base), Ask(base)];
        assert [Ask(base)] + [Ask(base)] == head;
        if n != 5 {
          AppendFill(v, start, head);
          v := AppendPlain(v, n - 5, start, head + [Fill]);
          assert head + [Fill] + Plains(n - 5) == head + ([Fill] + Plains(n - 5));
        }
      }
      assert n < 6 ==> HeadSources(base, n) + RawSources(n) == HeadSources(base, n);
    }

    method DecodeTail(v: nat, base: int, n: nat, ghost start: Coder, ghost sources: seq<Source>) returns (v': nat)
      requires Valid() && SourcesFit(base, n) && (Snapshot(), v) == ReadNumber(start, input, sources)
      modifies this, probs
      ensures Valid() && length == old(length)
      ensures (Snapshot(), v') == ReadNumber(start, input, sources + TailSources(base, n))
    {
      hide ReadNumber;
      v' := v;
      ghost var done := sources;
      TailAppended(sources, base, n);
      if n >= 4 {
        v' := AppendBit(v', base + 24, start, done);
        done := done + [Ask(base + 24)];
      }
      if n >= 2 {
        v' := AppendBit(v', base + 8, start, done);
        done := done + [Ask(base + 8)];
        if n != 2 {
          v' := AppendBit(v', base + 16, start, done);
          done := done + [Ask(base + 16)];
        }
      }
    }

    method DecodeNumber(base: int, n: nat) returns (v: nat)
      requires Valid() && SourcesFit(base, n)
      modifies this, probs
      ensures Valid() && length == old(length)
      ensures (Snapshot(), v) == ReadNumber(old(Snapshot()), input, Sources(base, n))
    {
      hide ReadNumber, HeadSources, RawSources, TailSources, Sources;
      ghost var start, head := Snapshot(), HeadSources(base, n) + RawSources(n);
      v := DecodeHead(base, n);
      v := DecodeTail(v, base, n, start, head);
      SourcesInOrder(base, n);
    }

    method DecodeClass(history: nat) returns (klass: nat)
      requires Valid() && history < 8
      modifies this, probs
      ensures Valid() && length == old(length)
      ensures (Snapshot(), klass) == ReadClass(old(Snapshot()), input, history, 0)
    {
      klass := 0;
      while klass < 7
        invariant Valid() && length == old(length) && klass <= 7
        invariant ReadClass(Snapshot(), input, history, klass) == ReadClass(old(Snapshot()), input, history, 0)
      {
        var bit := DecodeBit(2928 + 8 * klass + history, Slow);
        if bit == 0 {
          return;
        }
        klass := klass + 1;
      }
    }

    method DecodeLiteral(shift: nat, previous: byte) returns (b: byte)
      requires Valid()
      modifies this, probs
      ensures Valid() && length == old(length)
      ensures (Snapshot(), b) == ReadLiteral(old(Snapshot()), input, shift, previous, length)
    {
      assert Pow2(8) == 256;
      var context := ((previous + 0x100 * (length % 8)) / Pow2(shift)) % 8;
      var leaf := DecodeTree(255 * context - 1, 1, 8);
      b := leaf - 256;
    }

    method DecodeLength(history: nat) returns (klass: nat, n: nat)
      requires Valid() && history < 8
      modifies this, probs
      ensures Valid() && length == old(length)
      ensures (Snapshot(), n) == ReadLength(old(Snapshot()), input, history, length)
      ensures klass <= 7 && klass == Log2(n)
    {
      hide ReadNumber, ReadClass, Sources, Log2;
      klass := DecodeClass(history);
      SourceCounts(klass, length, history, 0, false);
      if klass == 0 {
        NoSources(input);
        n := 1;
      } else {
        var align := (length * Pow2(klass - 1)) % 4;
        assert align == Align(length, klass - 1);
        n := DecodeNumber(2984 + 32 * (klass - 1) + 8 * align + history, klass);
      }
      Log2Unique(n, klass);
    }

    method DecodeSlot(klass: nat, n: nat) returns (slot: nat)
      requires Valid() && 1 <= n < 255 && klass == Log2(n)
      modifies this, probs
      ensures Valid() && length == old(length)
      ensures (Snapshot(), slot) == ReadSlot(old(Snapshot()), input, n)
    {
      hide ReadTree, TreeFits, Log2;
      SlotTreeFits(n);
      assert Pow2(3) == 8 && Pow2(5) == 32;
      hide Pow2;
      if n <= 2 {
        var leaf := DecodeTree(2280 + klass, 8, 3);
        slot := leaf - 8;
      } else {
        var leaf := DecodeTree(2032 + klass, 8, 5);
        slot := leaf - 32;
      }
    }

    method DecodeDistance(klass: nat, n: nat) returns (reading: Reading)
      requires Valid() && 1 <= n < 255 && klass == Log2(n)
      modifies this, probs
      ensures Valid() && length == old(length)
      ensures (Snapshot(), reading) == ReadDistance(old(Snapshot()), input, n)
    {
      hide ReadSlot, ReadNumber, Sources;
      KlassOf(n);
      NoSources(input);
      var slot := DecodeSlot(klass, n);
      if slot > LAST_SLOT_IN_MEMORY {
        reading := OutsideTable(n + 1, slot);
      } else if slot == 0 {
        reading := Read(Copy(n + 1, 1));
      } else {
        var align := ((if n > 2 then 1 else 0) * Pow2(slot - 1)) % 4;
        assert align == Align(if n > 2 then 1 else 0, slot - 1);
        var low := if klass == 0 then 7 else klass - 1;
        var distance := DecodeNumber(2344 + 8 * align + 32 * (slot - 1) + low, slot);
        reading := Read(Copy(n + 1, distance));
      }
    }

    method DecodeCopy(history: nat) returns (reading: Reading)
      requires Valid() && history < 8
      modifies this, probs
      ensures Valid() && length == old(length)
      ensures (Snapshot(), reading) == ReadCopy(old(Snapshot()), input, history, length)
    {
      var klass, n := DecodeLength(history);
      if n == 255 {
        reading := EndMark;
      } else {
        reading := DecodeDistance(klass, n);
      }
    }

    method Store(b: byte)
      requires Valid() && length < capacity
      modifies this`length, buffer
      ensures Valid() && length == old(length) + 1
      ensures Out() == old(Out()) + [b]
      ensures forall i :: length <= i < buffer.Length ==> buffer[i] == old(buffer[i])
    {
      buffer[length] := b;
      length := length + 1;
    }

    /** Writes `n + 1` bytes, each `distance` behind the one it repeats. */
    method CopyMatch(n: nat, distance: nat)
      requires Valid() && n >= 1 && 1 <= distance <= length && length + n < capacity
      modifies this`length, buffer
      ensures Valid() && length == old(length) + n + 1
      ensures Out() == CopyBytes(old(Out()), n + 1, distance)
      ensures forall i :: length <= i < buffer.Length ==> buffer[i] == old(buffer[i])
    {
      hide CopyBytes;
      var end := length + n;
      var b := buffer[length - distance];
      ghost var target := CopyBytes(Out(), n + 1, distance);
      while length != end
        invariant Valid() && old(length) <= length <= end && b == buffer[length - distance]
        invariant CopyBytes(Out(), end - length + 1, distance) == target
        invariant forall i :: length <= i < buffer.Length ==> buffer[i] == old(buffer[i])
        decreases end - length
      {
        CopyStep(Out(), end - length + 1, distance);
        Store(b);
        b := buffer[length - distance];
      }
      CopyStep(Out(), 1, distance);
      Store(b);
      CopyStep(Out(), 1, distance);
    }

    /** What a finished run leaves: the outcome's status and, on success, its bytes. */
    ghost predicate Reports(status: Status, outcome: Outcome)
      requires Valid()
      reads this, buffer
    {
      match outcome
      case Done(out, end) => status == Decoded(|out|, end) && length == |out| && Out() == out
      case NoSpace => status == Failed(OUT_OF_SPACE)
      case BadDistance => status == Failed(INVALID_DISTANCE)
      case Undefined => status == OutOfTable
    }

    ghost function RestOfRun(shift: nat, history: nat): Outcome
      requires Valid() && length >= 1 && history < 8
      reads this, probs, buffer
    {
      DecodeRun(shift, capacity, Snapshot(), input, history, Out())
    }

    method StepLiteral(shift: nat, history: nat) returns (full: bool)
      requires Valid() && length >= 1 && history < 8
      modifies this, probs, buffer
      ensures Valid() && full == (old(length) == capacity) && length == old(length) + if full then 0 else 1
      ensures forall i :: length <= i < buffer.Length ==> buffer[i] == old(buffer[i])
      ensures var (c, b) := ReadLiteral(old(Snapshot()), input, shift, old(buffer[length - 1]), old(length));
        !full ==> Snapshot() == c && Out() == old(Out()) + [b]
    {
      if length == capacity {
        return true;
      }
      var b := DecodeLiteral(shift, buffer[length - 1]);
      Store(b);
      return false;
    }

    /** Checks a copy against the bytes produced and the room left, and carries it out. */
    method PlaceCopy(count: nat, distance: nat) returns (placed: bool, status: Status)
      requires Valid() && count >= 2 && distance >= 1
      modifies this`length, buffer
      ensures Valid() && placed == (distance <= old(length) && old(length) + count <= capacity)
      ensures !placed ==> status == Failed(if old(length) < distance then INVALID_DISTANCE else OUT_OF_SPACE)
      ensures length == old(length) + if placed then count else 0
      ensures placed ==> Out() == CopyBytes(old(Out()), count, distance)
      ensures forall i :: length <= i < buffer.Length ==> buffer[i] == old(buffer[i])
    {
      if length < distance {
        return false, Failed(INVALID_DISTANCE);
      }
      if capacity <= length + (count - 1) {
        return false, Failed(OUT_OF_SPACE);
      }
      CopyMatch(count - 1, distance);
      return true, Failed(OUT_OF_SPACE);
    }

    /** One turn of the loop: a match flag and the token it announces. */
    method Step(shift: nat, history: nat) returns (done: bool, status: Status, history': nat)
      requires Valid() && length >= 1 && history < 8
      modifies this, probs, buffer
      ensures Valid() && history' < 8 && length >= old(length)
      ensures forall i :: length <= i < buffer.Length ==> buffer[i] == old(buffer[i])
      ensures done ==> Reports(status, old(RestOfRun(shift, history)))
      ensures !done ==> length > old(length) && RestOfRun(shift, history') == old(RestOfRun(shift, history))
    {
      hide DecodeRun, ReadModelled, ReadLiteral, ReadCopy, CopyBytes;
      ghost var start, before := Snapshot(), Out();
      var flag := DecodeBit(2920 + history, Slow);
      if flag == 0 {
        LiteralTurn(shift, capacity, start, input, history, before);
        done := StepLiteral(shift, history);
        return done, Failed(OUT_OF_SPACE), if history > 0 then history - 1 else 0;
      }
      CopyTurn(shift, capacity, start, input, history, before);
      var reading := DecodeCopy(history);
      match reading
      case EndMark =>
        return true, Decoded(length, pos), 7;
      case OutsideTable(_, _) =>
        return true, OutOfTable, 7;
      case Read(t) =>
        var placed;
        placed, status := PlaceCopy(t.count, t.distance);
        return !placed, status, 7;
    }

    /** The literal that starts every stream. */
    method First(shift: nat)
      requires Valid() && length == 0 < capacity && shift == ByteAt(input, 0) % 8
      requires IsCoded(input) && Snapshot() == Start(ByteAt(input, 0), FirstCode(input))
      modifies this, probs, buffer
      ensures Valid() && length == 1
      ensures forall i :: length <= i < buffer.Length ==> buffer[i] == old(buffer[i])
      ensures RestOfRun(shift, 0) == ArzlFormat.Decompress(input, capacity)
    {
      var b := DecodeLiteral(shift, 0);
      Store(b);
      assert Out() == [b];
    }

    method Run(shift: nat) returns (status: Status)
      requires Valid() && length >= 1
      modifies this, probs, buffer
      ensures Valid() && length >= old(length) && Reports(status, old(RestOfRun(shift, 0)))
      ensures forall i :: length <= i < buffer.Length ==> buffer[i] == old(buffer[i])
    {
      status := Failed(OUT_OF_SPACE);
      var history: nat, done := 0, false;
      ghost var target := RestOfRun(shift, 0);
      while !done
        invariant Valid() && history < 8 && length >= old(length)
        invariant forall i :: length <= i < buffer.Length ==> buffer[i] == old(buffer[i])
        invariant if done then Reports(status, target) else RestOfRun(shift, history) == target
        decreases !done, capacity - length
      {
        done, status, history := Step(shift, history);
      }
    }

    /**
     The decompressor: a literal, and then tokens up to the end mark. The bytes
     of the buffer after the result are left alone.
     */
    method Decompress() returns (status: Status)
      requires Valid() && length == 0
      requires IsCoded(input) && Snapshot() == Start(ByteAt(input, 0), FirstCode(input))
      modifies this, probs, buffer
      ensures Valid() && Reports(status, ArzlFormat.Decompress(input, capacity))
      ensures forall i :: length <= i < buffer.Length ==> buffer[i] == old(buffer[i])
    {
      if length == capacity {
        return Failed(OUT_OF_SPACE);
      }
      var shift := ByteAt(input, 0) % 8;
      First(shift);
      status := Run(shift);
    }
  }

  /** What a call reports, and the bytes it leaves in the buffer on success. */
  ghost predicate Reported(outcome: Outcome, status: Status, bytes: seq<byte>) {
    match outcome
    case Done(out, end) => status == Decoded(|out|, end) && |out| <= |bytes| && bytes[..|out|] == out
    case NoSpace => status == Failed(OUT_OF_SPACE)
    case BadDistance => status == Failed(INVALID_DISTANCE)
    case Undefined => status == OutOfTable
  }

  /** The decompressor for streams of both kinds; nothing is written past the capacity. */
  method DecompressInto(buffer: array<byte>, capacity: nat, input: seq<byte>) returns (status: Status)
    requires capacity <= buffer.Length
    modifies buffer
    ensures Reported(DecompressStream(input, capacity), status, buffer[..capacity])
    ensures forall i :: capacity <= i < buffer.Length ==> buffer[i] == old(buffer[i])
  {
    hide ArzlFormat.Decompress;
    if ByteAt(input, 0) < 0x80 {
      var decoder := new Decoder(buffer, capacity, input);
      status := decoder.Decompress();
      assert buffer[..capacity][..decoder.length] == buffer[..decoder.length];
    } else {
      FirstFour(input);
      var n: nat :=
        0x100_0000 * ByteAt(input, 1) + 0x1_0000 * ByteAt(input, 2) + 0x100 * ByteAt(input, 3) + ByteAt(input, 4);
      if capacity < n {
        return Failed(OUT_OF_SPACE);
      }
      CopyStored(buffer, n, input);
      status := Decoded(n, 5 + n);
      assert buffer[..capacity][..n] == buffer[..n];
    }
  }

  method CopyStored(buffer: array<byte>, n: nat, input: seq<byte>)
    requires n <= buffer.Length
    modifies buffer
    ensures buffer[..n] == StoredBytes(input, n)
    ensures forall i :: n <= i < buffer.Length ==> buffer[i] == old(buffer[i])
  {
    var k := 0;
    while k < n
      invariant 0 <= k <= n
      invariant forall i :: 0 <= i < k ==> buffer[i] == ByteAt(input, 5 + i)
      invariant forall i :: n <= i < buffer.Length ==> buffer[i] == old(buffer[i])
    {
      buffer[k] := ByteAt(input, 5 + k);
      k := k + 1;
    }
  }
}
