/** SHA-256 computed block by block over a message that arrives in pieces. */
module Sha256Stream {
  import opened Machine
  import opened Sha256Functions
  import opened Sha256Spec

  function WordAt(s: seq<bv32>): Hash
    requires |s| == 8
  {
    Hash(s[0], s[1], s[2], s[3], s[4], s[5], s[6], s[7])
  }

  lemma NoBlocks(v: Hash, blocks: seq<octet>)
    requires blocks == []
    ensures HashBlocks(v, blocks) == v
  {
    hide Compress;
  }

  lemma InitialWords(s: seq<bv32>)
    requires s == INITIAL
    ensures WordAt(s) == InitialHash()
  {
  }

  lemma NextBlock(v: Hash, done: seq<octet>, block: seq<octet>)
    requires |done| % 64 == 0 && |block| == 64
    ensures HashBlocks(v, done + block) == Compress(HashBlocks(v, done), block)
  {
    hide Compress;
    assert (done + block)[..|done + block| - 64] == done;
    assert (done + block)[|done + block| - 64..] == block;
  }

  lemma NoWords(block: seq<octet>)
    requires |block| == 64
    ensures Schedule(block, 0) == []
  {
    hide NextWord, BlockWord;
  }

  lemma CompressIs(v: Hash, block: seq<octet>)
    requires |block| == 64
    ensures Compress(v, block) == AddHashes(v, Rounds(v, Schedule(block, 64), 64))
  {
    hide Rounds, Schedule, AddHashes;
  }

  lemma NoRounds(start: Hash, w: seq<bv32>)
    requires |w| <= 64
    ensures Rounds(start, w, 0) == start
  {
    hide Round, RoundConstant;
  }

  lemma ScheduleStep(block: seq<octet>, w: seq<bv32>, n: nat)
    requires |block| == 64 && n < 64 && w == Schedule(block, n)
    ensures Schedule(block, n + 1) == w + [if n < 16 then BlockWord(block, n) else NextWord(w)]
  {
    hide NextWord, BlockWord;
  }

  lemma RoundStep(start: Hash, w: seq<bv32>, n: nat, v: Hash)
    requires n < |w| <= 64 && v == Rounds(start, w, n)
    ensures Rounds(start, w, n + 1) == Round(v, RoundConstant(n), w[n])
  {
    hide Round, RoundConstant;
  }

  lemma SameOctet(x: nat, y: nat)
    requires x % 0x100 == y % 0x100
    ensures Octet(x) == Octet(y)
  {
  }

  lemma Weights()
    ensures Weight(0) == 1 && Weight(1) == 0x100 && Weight(2) == 0x1_0000 && Weight(3) == 0x100_0000
    ensures Weight(4) == 0x1_0000_0000 && Weight(5) == 0x100_0000_0000
    ensures Weight(6) == 0x1_0000_0000_0000 && Weight(7) == 0x100_0000_0000_0000
  {
  }

  function CounterOctets(low: word, high: word): seq<octet> {
    [Octet(high / 0x100_0000), Octet(high / 0x1_0000), Octet(high / 0x100), Octet(high),
     Octet(low / 0x100_0000), Octet(low / 0x1_0000), Octet(low / 0x100), Octet(low)]
  }

  lemma LowLengthOctets(x: nat, low: word, rest: nat)
    requires x == 0x1_0000_0000 * rest + low
    ensures OctetOf(x, 0) == Octet(low) && OctetOf(x, 1) == Octet(low / 0x100)
    ensures OctetOf(x, 2) == Octet(low / 0x1_0000) && OctetOf(x, 3) == Octet(low / 0x100_0000)
  {
    hide Octet;
    Weights();
    LowOctets(low, rest);
    SameOctet(x, low);
    SameOctet(x / 0x100, low / 0x100);
    SameOctet(x / 0x1_0000, low / 0x1_0000);
    SameOctet(x / 0x100_0000, low / 0x100_0000);
  }

  lemma HighLengthOctets(x: nat, low: word, high: word, q: nat)
    requires x == 0x1_0000_0000 * (0x1_0000_0000 * q + high) + low
    ensures OctetOf(x, 4) == Octet(high) && OctetOf(x, 5) == Octet(high / 0x100)
    ensures OctetOf(x, 6) == Octet(high / 0x1_0000) && OctetOf(x, 7) == Octet(high / 0x100_0000)
  {
    hide Octet;
    Weights();
    HighOctets(low, high, q);
    SameOctet(x / 0x1_0000_0000, high);
    SameOctet(x / 0x100_0000_0000, high / 0x100);
    SameOctet(x / 0x1_0000_0000_0000, high / 0x1_0000);
    SameOctet(x / 0x100_0000_0000_0000, high / 0x100_0000);
  }

  /** The two words of the counter hold the low 64 bits of the length in bits. */
  lemma LengthOctets(n: nat, low: word, high: word)
    requires Counts(low, high, 8 * n)
    ensures LengthField(n) == CounterOctets(low, high)
  {
    hide Octet, OctetOf;
    var q := (8 * n) / 0x1_0000_0000_0000_0000;
    LowLengthOctets(8 * n, low, 0x1_0000_0000 * q + high);
    HighLengthOctets(8 * n, low, high, q);
  }

  lemma LowOctets(low: word, rest: nat)
    ensures var x := 0x1_0000_0000 * rest + low;
      x % 0x100 == low % 0x100 && x / 0x100 % 0x100 == low / 0x100 % 0x100
      && x / 0x1_0000 % 0x100 == low / 0x1_0000 % 0x100 && x / 0x100_0000 % 0x100 == low / 0x100_0000 % 0x100
  {
    Quotients(low, rest);
    OctetAbove(0x100_0000 * rest, low);
    OctetAbove(0x1_0000 * rest, low / 0x100);
    OctetAbove(0x100 * rest, low / 0x1_0000);
    OctetAbove(rest, low / 0x100_0000);
  }

  lemma OctetAbove(y: nat, low: nat)
    ensures (0x100 * y + low) % 0x100 == low % 0x100
  {
  }

  lemma Quotients(low: word, rest: nat)
    ensures (0x1_0000_0000 * rest + low) / 0x100 == 0x100_0000 * rest + low / 0x100
    ensures (0x1_0000_0000 * rest + low) / 0x1_0000 == 0x1_0000 * rest + low / 0x1_0000
    ensures (0x1_0000_0000 * rest + low) / 0x100_0000 == 0x100 * rest + low / 0x100_0000
  {
  }

  lemma HighOctets(low: word, high: word, q: nat)
    ensures var x := 0x1_0000_0000 * (0x1_0000_0000 * q + high) + low;
      x / 0x1_0000_0000 % 0x100 == high % 0x100 && x / 0x100_0000_0000 % 0x100 == high / 0x100 % 0x100
      && x / 0x1_0000_0000_0000 % 0x100 == high / 0x1_0000 % 0x100
      && x / 0x100_0000_0000_0000 % 0x100 == high / 0x100_0000 % 0x100
  {
    var x := 0x1_0000_0000 * (0x1_0000_0000 * q + high) + low;
    var y := 0x1_0000_0000 * q + high;
    assert x / 0x1_0000_0000 == y;
    assert x / 0x100_0000_0000 == y / 0x100;
    assert x / 0x1_0000_0000_0000 == y / 0x1_0000;
    assert x / 0x100_0000_0000_0000 == y / 0x100_0000;
    LowOctets(high, q);
  }

  /** The padding of a message whose last piece leaves room for the length. */
  lemma PaddedOnce(whole: seq<octet>, tail: seq<octet>)
    requires |whole| % 64 == 0 && |tail| < 56
    ensures var n := |whole| + |tail|;
      whole + ((tail + [0x80] + Zeros(55 - |tail|)) + LengthField(n)) == Pad(whole + tail)
  {
  }

  /** The padding of a message whose last piece does not. */
  lemma PaddedTwice(whole: seq<octet>, tail: seq<octet>)
    requires |whole| % 64 == 0 && 56 <= |tail| < 64
    ensures var n := |whole| + |tail|;
      (whole + (tail + [0x80] + Zeros(63 - |tail|))) + (Zeros(56) + LengthField(n)) == Pad(whole + tail)
  {
    assert Zeros(63 - |tail|) + Zeros(56) == Zeros(119 - |tail|);
  }

  lemma InFours(s: seq<octet>)
    requires |s| >= 32
    ensures s[..32] == s[0..4] + s[4..8] + s[8..12] + s[12..16] + s[16..20] + s[20..24] + s[24..28] + s[28..32]
  {
  }

  lemma FourOctets(s: seq<octet>, i: nat, w: bv32)
    requires i + 4 <= |s|
    requires s[i] == WordOctet(w, 0) && s[i + 1] == WordOctet(w, 1)
    requires s[i + 2] == WordOctet(w, 2) && s[i + 3] == WordOctet(w, 3)
    ensures s[i..i + 4] == WordOctets(w)
  {
    hide WordOctet;
  }

  /** Octet `k` of each of the eight words, four octets apart. */
  predicate Column(bytes: seq<octet>, v: seq<bv32>, k: nat)
    requires |bytes| >= 32 && |v| == 8
  {
    k < 4
    && bytes[k] == WordOctet(v[0], k) && bytes[k + 4] == WordOctet(v[1], k)
    && bytes[k + 8] == WordOctet(v[2], k) && bytes[k + 12] == WordOctet(v[3], k)
    && bytes[k + 16] == WordOctet(v[4], k) && bytes[k + 20] == WordOctet(v[5], k)
    && bytes[k + 24] == WordOctet(v[6], k) && bytes[k + 28] == WordOctet(v[7], k)
  }

  predicate Columns(bytes: seq<octet>, v: seq<bv32>)
    requires |bytes| >= 32 && |v| == 8
  {
    Column(bytes, v, 0) && Column(bytes, v, 1) && Column(bytes, v, 2) && Column(bytes, v, 3)
  }

  lemma FirstWords(bytes: seq<octet>, v: seq<bv32>)
    requires |bytes| >= 32 && |v| == 8 && Columns(bytes, v)
    ensures bytes[0..4] == WordOctets(v[0]) && bytes[4..8] == WordOctets(v[1])
    ensures bytes[8..12] == WordOctets(v[2]) && bytes[12..16] == WordOctets(v[3])
  {
    hide WordOctet, WordOctets;
    FourOctets(bytes, 0, v[0]);
    FourOctets(bytes, 4, v[1]);
    FourOctets(bytes, 8, v[2]);
    FourOctets(bytes, 12, v[3]);
  }

  lemma LastWords(bytes: seq<octet>, v: seq<bv32>)
    requires |bytes| >= 32 && |v| == 8 && Columns(bytes, v)
    ensures bytes[16..20] == WordOctets(v[4]) && bytes[20..24] == WordOctets(v[5])
    ensures bytes[24..28] == WordOctets(v[6]) && bytes[28..32] == WordOctets(v[7])
  {
    hide WordOctet, WordOctets;
    FourOctets(bytes, 16, v[4]);
    FourOctets(bytes, 20, v[5]);
    FourOctets(bytes, 24, v[6]);
    FourOctets(bytes, 28, v[7]);
  }

  lemma ColumnsInOrder(bytes: seq<octet>, v: seq<bv32>)
    requires |bytes| >= 32 && |v| == 8 && Columns(bytes, v)
    ensures bytes[..32] == HashOctets(WordAt(v))
  {
    hide WordOctet, WordOctets, Column, Columns;
    InFours(bytes);
    FirstWords(bytes, v);
    LastWords(bytes, v);
  }

  /** The two words of the bit counter hold `bits`, up to 64 bits. */
  predicate Counts(low: word, high: word, bits: nat) {
    low + 0x1_0000_0000 * high == bits % 0x1_0000_0000_0000_0000
  }

  lemma CountsNothing()
    ensures Counts(0, 0, 0)
  {
  }

  lemma CountsMore(low: word, high: word, bits: nat, count: nat)
    requires Counts(low, high, bits) && count < 0x1_0000_0000
    ensures Counts((low + count) % 0x1_0000_0000,
      if low > 0xFFFF_FFFF - count then (high + 1) % 0x1_0000_0000 else high, bits + count)
  {
    var q := bits / 0x1_0000_0000_0000_0000;
    var sum := low + 0x1_0000_0000 * high + count;
    assert bits + count == 0x1_0000_0000_0000_0000 * q + sum;
    if low <= 0xFFFF_FFFF - count {
      Wrapped(q, sum);
    } else if high < 0xFFFF_FFFF {
      Wrapped(q, sum);
    } else {
      Wrapped(q + 1, sum - 0x1_0000_0000_0000_0000);
    }
  }

  lemma Wrapped(q: nat, r: nat)
    requires r < 0x1_0000_0000_0000_0000
    ensures (0x1_0000_0000_0000_0000 * q + r) % 0x1_0000_0000_0000_0000 == r
  {
  }

  /** The part of a message that fills whole blocks. */
  function Front(m: seq<octet>): (r: seq<octet>)
    ensures |r| % 64 == 0 && |r| <= |m|
  {
    m[..|m| - |m| % 64]
  }

  /** What is left of a message after its whole blocks. */
  function Rest(m: seq<octet>): (r: seq<octet>)
    ensures |r| < 64
  {
    m[|m| - |m| % 64..]
  }

  lemma NothingYet()
    ensures Front([]) == [] && Rest([]) == []
  {
  }

  lemma FrontAndRest(m: seq<octet>)
    ensures Front(m) + Rest(m) == m
  {
  }

  lemma MessageGrows(m: seq<octet>, b: octet)
    ensures |Rest(m)| < 63 ==> Front(m + [b]) == Front(m) && Rest(m + [b]) == Rest(m) + [b]
    ensures |Rest(m)| == 63 ==> Front(m + [b]) == Front(m) + (Rest(m) + [b]) && Rest(m + [b]) == []
  {
    RemainderGrows(|m|);
  }

  lemma RemainderGrows(n: nat)
    ensures (n + 1) % 64 == if n % 64 < 63 then n % 64 + 1 else 0
  {
  }

  class Context {
    const data: array<octet>
    const state: array<bv32>
    var datalen: nat
    var bitlenLow: word
    var bitlenHigh: word
    ghost var message: seq<octet>

    ghost predicate Shape()
      reads this
    {
      data.Length == 64 && state.Length == 8
    }

    ghost predicate Valid()
      reads this, data, state
    {
      && Shape()
      && datalen == |Rest(message)|
      && data[..datalen] == Rest(message)
      && WordAt(state[..]) == HashBlocks(InitialHash(), Front(message))
      && Counts(bitlenLow, bitlenHigh, 8 * |Front(message)|)
    }

    constructor ()
      ensures Valid() && message == [] && fresh(data) && fresh(state)
    {
      hide Compress, HashBlocks, InitialHash, Counts, Front, Rest, WordAt;
      data := new octet[64];
      state := new bv32[8](i requires 0 <= i < 8 => INITIAL[i]);
      datalen := 0;
      bitlenLow, bitlenHigh := 0, 0;
      message := [];
      new;
      assert state[..] == INITIAL;
      InitialWords(state[..]);
      CountsNothing();
      NothingYet();
      NoBlocks(InitialHash(), Front(message));
    }

    /** The message schedule of the block in `data`. */
    method MessageSchedule() returns (m: array<bv32>)
      requires Shape()
      ensures fresh(m) && m.Length == 64 && m[..] == Schedule(data[..], 64)
    {
      hide Add, Schedule, WordOf, SmallSigma0, SmallSigma1;
      m := new bv32[64];
      var i, j := 0, 0;
      NoWords(data[..]);
      while i < 16
        invariant 0 <= i <= 16 && j == 4 * i && m[..i] == Schedule(data[..], i)
      {
        ScheduleStep(data[..], m[..i], i);
        m[i] := WordOf(data[j], data[j + 1], data[j + 2], data[j + 3]);
        assert m[i] == BlockWord(data[..], i);
        i, j := i + 1, j + 4;
        assert m[..i] == m[..i - 1] + [m[i - 1]];
      }
      while i < 64
        invariant 16 <= i <= 64 && m[..i] == Schedule(data[..], i)
      {
        ghost var w := m[..i];
        ScheduleStep(data[..], w, i);
        m[i] := Add(Add(Add(SmallSigma1(m[i - 2]), m[i - 7]), SmallSigma0(m[i - 15])), m[i - 16]);
        assert m[i] == NextWord(w);
        i := i + 1;
        assert m[..i] == w + [m[i - 1]];
      }
      assert m[..] == m[..64];
    }

    method Transform()
      requires Shape()
      modifies state
      ensures WordAt(state[..]) == Compress(old(WordAt(state[..])), data[..])
    {
      hide Add, AddHashes, BigSigma0, BigSigma1, Ch, Maj, RoundConstant, Schedule, Rounds, Compress;
      var m := MessageSchedule();
      ghost var start, w := WordAt(state[..]), Schedule(data[..], 64);
      var a, b, c, d := state[0], state[1], state[2], state[3];
      var e, f, g, h := state[4], state[5], state[6], state[7];
      var i := 0;
      NoRounds(start, w);
      while i < 64
        invariant 0 <= i <= 64 && m[..] == w && start == WordAt(state[..])
        invariant Hash(a, b, c, d, e, f, g, h) == Rounds(start, w, i)
      {
        RoundStep(start, w, i, Hash(a, b, c, d, e, f, g, h));
        assert m[i] == w[i];
        var t1 := Add(Add(Add(Add(h, BigSigma1(e)), Ch(e, f, g)), RoundConstant(i)), m[i]);
        var t2 := Add(BigSigma0(a), Maj(a, b, c));
        h := g;
        g := f;
        f := e;
        e := Add(d, t1);
        d := c;
        c := b;
        b := a;
        a := Add(t1, t2);
        i := i + 1;
      }
      assert start == old(WordAt(state[..])) && Hash(a, b, c, d, e, f, g, h) == Rounds(start, w, 64);
      AddToState(a, b, c, d, e, f, g, h);
      assert data[..] == old(data[..]);
      CompressIs(start, old(data[..]));
    }

    method AddToState(a: bv32, b: bv32, c: bv32, d: bv32, e: bv32, f: bv32, g: bv32, h: bv32)
      requires Shape()
      modifies state
      ensures WordAt(state[..]) == AddHashes(old(WordAt(state[..])), Hash(a, b, c, d, e, f, g, h))
    {
      hide Add;
      state[0] := Add(state[0], a);
      state[1] := Add(state[1], b);
      state[2] := Add(state[2], c);
      state[3] := Add(state[3], d);
      state[4] := Add(state[4], e);
      state[5] := Add(state[5], f);
      state[6] := Add(state[6], g);
      state[7] := Add(state[7], h);
    }

    /** Adds to the two words of the bit counter, carrying by hand. */
    method AddBits(count: nat, ghost bits: nat)
      requires count < 0x1_0000_0000 && Counts(bitlenLow, bitlenHigh, bits)
      modifies this`bitlenLow, this`bitlenHigh
      ensures Counts(bitlenLow, bitlenHigh, bits + count)
    {
      hide Counts;
      CountsMore(bitlenLow, bitlenHigh, bits, count);
      if bitlenLow > 0xFFFF_FFFF - count {
        bitlenHigh := (bitlenHigh + 1) % 0x1_0000_0000;
      }
      bitlenLow := (bitlenLow + count) % 0x1_0000_0000;
    }

    /** Hashes the full block in `data`. */
    method FlushBlock(ghost bits: nat)
      requires Shape() && Counts(bitlenLow, bitlenHigh, bits)
      modifies this`datalen, this`bitlenLow, this`bitlenHigh, state
      ensures datalen == 0 && WordAt(state[..]) == Compress(old(WordAt(state[..])), data[..])
      ensures Counts(bitlenLow, bitlenHigh, bits + 512)
    {
      hide Compress, Counts;
      Transform();
      assert data[..] == old(data[..]);
      AddBits(512, bits);
      datalen := 0;
    }

    method Absorb(b: octet)
      requires Valid()
      modifies this`datalen, this`bitlenLow, this`bitlenHigh, this`message, data, state
      ensures Valid() && message == old(message) + [b]
    {
      hide Compress, HashBlocks, InitialHash, Counts, Front, Rest;
      MessageGrows(message, b);
      ghost var front, block := Front(message), Rest(message) + [b];
      data[datalen] := b;
      datalen := datalen + 1;
      message := message + [b];
      assert data[..datalen] == block;
      if datalen == 64 {
        assert data[..] == block;
        NextBlock(InitialHash(), front, block);
        FlushBlock(8 * |front|);
      }
    }

    method Update(bytes: seq<octet>, len: nat)
      requires Valid() && len <= |bytes|
      modifies this`datalen, this`bitlenLow, this`bitlenHigh, this`message, data, state
      ensures Valid() && message == old(message) + bytes[..len]
    {
      hide Compress, HashBlocks, InitialHash, Counts, Front, Rest;
      var i := 0;
      while i < len
        invariant 0 <= i <= len && Valid() && message == old(message) + bytes[..i]
      {
        Absorb(bytes[i]);
        assert bytes[..i + 1] == bytes[..i] + [bytes[i]];
        i := i + 1;
      }
    }

    method FillZeros(from: nat, end: nat)
      requires Shape() && from <= end <= 64
      modifies data
      ensures data[..from] == old(data[..from]) && data[from..end] == Zeros(end - from)
    {
      var i := from;
      while i < end
        invariant from <= i <= end
        invariant forall k :: 0 <= k < from ==> data[k] == old(data[k])
        invariant forall k :: from <= k < i ==> data[k] == 0
      {
        data[i] := 0;
        i := i + 1;
      }
    }

    method PadInPlace()
      requires Valid() && datalen < 56
      modifies data
      ensures Shape() && WordAt(state[..]) == old(WordAt(state[..]))
      ensures data[..56] == Rest(message) + [0x80] + Zeros(55 - datalen)
    {
      hide HashBlocks, InitialHash, Counts, Front, Rest;
      var i := datalen;
      data[i] := 0x80;
      assert data[..i + 1] == Rest(message) + [0x80];
      FillZeros(i + 1, 56);
      assert data[..56] == data[..i + 1] + data[i + 1..56];
    }

    method PadOverTwoBlocks() returns (ghost block: seq<octet>)
      requires Valid() && datalen >= 56
      modifies data, state
      ensures Shape() && data[..56] == Zeros(56)
      ensures block == Rest(message) + [0x80] + Zeros(63 - datalen)
      ensures |block| == 64 && WordAt(state[..]) == Compress(old(WordAt(state[..])), block)
    {
      hide HashBlocks, InitialHash, Compress, Counts, Front, Rest;
      var i := datalen;
      data[i] := 0x80;
      assert data[..i + 1] == Rest(message) + [0x80];
      FillZeros(i + 1, 64);
      assert data[..] == data[..i + 1] + data[i + 1..64];
      block := data[..];
      Transform();
      assert data[..] == block;
      FillZeros(0, 56);
      assert data[..56] == data[0..56];
    }

    /** Ends the message with a one bit and zeros, up to where the length goes. */
    method PadTail() returns (ghost done: seq<octet>)
      requires Valid()
      modifies data, state
      ensures Shape() && |done| % 64 == 0 && WordAt(state[..]) == HashBlocks(InitialHash(), done)
      ensures done + (data[..56] + LengthField(|message|)) == Pad(message)
    {
      hide Compress, HashBlocks, InitialHash, LengthField, Pad, Counts, Front, Rest;
      ghost var whole, tail := Front(message), Rest(message);
      FrontAndRest(message);
      if datalen < 56 {
        PadInPlace();
        PaddedOnce(whole, tail);
        done := whole;
      } else {
        ghost var block := PadOverTwoBlocks();
        NextBlock(InitialHash(), whole, block);
        PaddedTwice(whole, tail);
        done := whole + block;
      }
    }

    /** Writes the bit counter after the padding, most significant octet first. */
    method PutLength(ghost n: nat)
      requires Shape() && Counts(bitlenLow, bitlenHigh, 8 * n)
      modifies data
      ensures data[..56] == old(data[..56]) && data[56..] == LengthField(n)
    {
      hide Octet, LengthField, Counts;
      LengthOctets(n, bitlenLow, bitlenHigh);
      data[63] := Octet(bitlenLow);
      data[62] := Octet(bitlenLow / 0x100);
      data[61] := Octet(bitlenLow / 0x1_0000);
      data[60] := Octet(bitlenLow / 0x100_0000);
      data[59] := Octet(bitlenHigh);
      data[58] := Octet(bitlenHigh / 0x100);
      data[57] := Octet(bitlenHigh / 0x1_0000);
      data[56] := Octet(bitlenHigh / 0x100_0000);
      assert data[56..] == CounterOctets(bitlenLow, bitlenHigh);
    }

    /** Pads the message and hashes what is left of it. */
    method Close()
      requires Valid()
      modifies this`bitlenLow, this`bitlenHigh, data, state
      ensures Shape() && WordAt(state[..]) == HashBlocks(InitialHash(), Pad(message))
    {
      hide Compress, HashBlocks, InitialHash, LengthField, Pad, Counts, Front, Rest;
      ghost var done := PadTail();
      FrontAndRest(message);
      AddBits(datalen * 8, 8 * |Front(message)|);
      PutLength(|message|);
      assert data[..] == data[..56] + data[56..];
      NextBlock(InitialHash(), done, data[..]);
      Transform();
    }

    /** The digest of the whole message, whatever pieces it came in. */
    method Final(hash: array<octet>)
      requires Valid() && hash.Length >= 32 && hash != data
      modifies this`bitlenLow, this`bitlenHigh, data, state, hash
      ensures hash[..32] == Digest(message)
      ensures forall i :: 32 <= i < hash.Length ==> hash[i] == old(hash[i])
    {
      hide Compress, HashBlocks, InitialHash, Pad, Counts, HashOctets;
      Close();
      WriteHash(hash);
    }

    /** Octet `i` of every state word. */
    method WriteColumn(hash: array<octet>, i: nat)
      requires Shape() && hash.Length >= 32 && i < 4
      modifies hash
      ensures hash[i] == WordOctet(state[0], i) && hash[i + 4] == WordOctet(state[1], i)
      ensures hash[i + 8] == WordOctet(state[2], i) && hash[i + 12] == WordOctet(state[3], i)
      ensures hash[i + 16] == WordOctet(state[4], i) && hash[i + 20] == WordOctet(state[5], i)
      ensures hash[i + 24] == WordOctet(state[6], i) && hash[i + 28] == WordOctet(state[7], i)
      ensures forall k | 0 <= k < hash.Length && k != i && k != i + 4 && k != i + 8 && k != i + 12
                         && k != i + 16 && k != i + 20 && k != i + 24 && k != i + 28 :: hash[k] == old(hash[k])
    {
      hide WordOctet;
      hash[i] := WordOctet(state[0], i);
      hash[i + 4] := WordOctet(state[1], i);
      hash[i + 8] := WordOctet(state[2], i);
      hash[i + 12] := WordOctet(state[3], i);
      hash[i + 16] := WordOctet(state[4], i);
      hash[i + 20] := WordOctet(state[5], i);
      hash[i + 24] := WordOctet(state[6], i);
      hash[i + 28] := WordOctet(state[7], i);
    }

    method WriteHash(hash: array<octet>)
      requires Shape() && hash.Length >= 32
      modifies hash
      ensures hash[..32] == HashOctets(WordAt(state[..]))
      ensures forall i :: 32 <= i < hash.Length ==> hash[i] == old(hash[i])
    {
      hide WordOctet, HashOctets;
      var i: nat := 0;
      ghost var v := state[..];
      while i < 4
        invariant i <= 4 && v == state[..]
        invariant forall k: nat :: k < i ==> Column(hash[..], v, k)
        invariant forall k :: 32 <= k < hash.Length ==> hash[k] == old(hash[k])
      {
        ghost var before := hash[..];
        WriteColumn(hash, i);
        assert Column(hash[..], v, i);
        forall k: nat | k < i
          ensures Column(hash[..], v, k)
        {
          assert Column(before, v, k);
        }
        i := i + 1;
      }
      assert Column(hash[..], v, 0) && Column(hash[..], v, 1) && Column(hash[..], v, 2) && Column(hash[..], v, 3);
      ColumnsInOrder(hash[..], v);
    }
  }

  // ----- the digest of a vector of pieces

  function Concat(pieces: seq<seq<octet>>): seq<octet> {
    if pieces == [] then [] else Concat(pieces[..|pieces| - 1]) + pieces[|pieces| - 1]
  }

  /** The pieces as the vector function passes them on, with their lengths cut to 32 bits. */
  function Pieces(addr: seq<seq<octet>>, len: seq<nat>): (p: seq<seq<octet>>)
    requires |addr| == |len| && forall i :: 0 <= i < |len| ==> len[i] <= |addr[i]|
    ensures |p| == |addr|
  {
    seq(|addr|, i requires 0 <= i < |addr| => addr[i][..len[i] % 0x1_0000_0000])
  }

  /** Hashes the concatenation of the pieces of `addr`. */
  method DigestVector(addr: seq<seq<octet>>, len: seq<nat>, mac: array<octet>)
    requires |addr| == |len| && forall i :: 0 <= i < |len| ==> len[i] <= |addr[i]|
    requires mac.Length >= 32
    modifies mac
    ensures mac[..32] == Digest(Concat(Pieces(addr, len)))
  {
    hide Digest, Compress, HashBlocks, InitialHash, Counts, Front, Rest, WordAt;
    var ctx := new Context();
    var i := 0;
    ghost var pieces := Pieces(addr, len);
    while i < |addr|
      invariant 0 <= i <= |addr| && ctx.Valid() && fresh(ctx) && fresh(ctx.data) && fresh(ctx.state)
      invariant ctx.message == Concat(pieces[..i])
    {
      ctx.Update(addr[i], len[i] % 0x1_0000_0000);
      assert pieces[..i + 1][..i] == pieces[..i];
      i := i + 1;
    }
    assert pieces[..i] == pieces;
    ctx.Final(mac);
  }

  /** The pieces in full. */
  function Whole(addr: seq<seq<octet>>, len: seq<nat>): (p: seq<seq<octet>>)
    requires |addr| == |len| && forall i :: 0 <= i < |len| ==> len[i] <= |addr[i]|
    ensures |p| == |addr|
  {
    seq(|addr|, i requires 0 <= i < |addr| => addr[i][..len[i]])
  }

  predicate AllShort(len: seq<nat>) {
    forall i :: 0 <= i < |len| ==> len[i] < 0x1_0000_0000
  }

  /** Cutting never makes the concatenation longer, and makes it shorter if any piece is cut. */
  lemma {:induction false} CutShortens(addr: seq<seq<octet>>, len: seq<nat>)
    requires |addr| == |len| && forall i :: 0 <= i < |len| ==> len[i] <= |addr[i]|
    ensures |Concat(Pieces(addr, len))| <= |Concat(Whole(addr, len))|
    ensures !AllShort(len) ==> |Concat(Pieces(addr, len))| < |Concat(Whole(addr, len))|
    decreases |addr|
  {
    if addr != [] {
      var n := |addr| - 1;
      var pieces, whole := Pieces(addr, len), Whole(addr, len);
      CutShortens(addr[..n], len[..n]);
      assert pieces[..n] == Pieces(addr[..n], len[..n]) && whole[..n] == Whole(addr[..n], len[..n]);
      assert AllShort(len[..n]) && len[n] < 0x1_0000_0000 ==> AllShort(len);
    }
  }

  /** The vector function hashes the pieces in full exactly when all of them are shorter than 2^32 octets. */
  lemma PiecesExactly(addr: seq<seq<octet>>, len: seq<nat>)
    requires |addr| == |len| && forall i :: 0 <= i < |len| ==> len[i] <= |addr[i]|
    ensures Concat(Pieces(addr, len)) == Concat(Whole(addr, len)) <==> AllShort(len)
  {
    hide Concat;
    if AllShort(len) {
      assert Pieces(addr, len) == Whole(addr, len);
    } else {
      CutShortens(addr, len);
    }
  }
}
