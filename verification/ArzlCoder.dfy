/**
 The adaptive binary range coder of ARZL.

 A `Model` is what decoder and encoder share: the range and the 3240
 probabilities. A `Decision` is one question the decoder asks of the stream
 together with its answer. `Coder` is the decoder's side; `Encode` is the
 interval of code values that an encoder making the same decisions ends with.
 */
module ArzlCoder {
  import opened Machine

  const TABLE_SIZE := 3240
  const TOP := 0x100_0000

  type Cell = i: nat | i < TABLE_SIZE
  type Table = t: seq<byte> | |t| == TABLE_SIZE witness seq(TABLE_SIZE, _ => 0)

  /** How quickly a probability moves: by an eighth or by a sixteenth. */
  datatype Rate = Fast | Slow

  datatype Model = Model(range: word, probs: Table)

  datatype Decision =
    | Modelled(cell: Cell, rate: Rate, bit: Bit)
    | Renorm
    | Halve(bit: Bit)

  function ScaleUp(range: word): (r: word)
    ensures range <= r
  {
    if range < TOP then range * 256 else range
  }

  /** The part of `range` that stands for a one-bit of probability `p`/256. */
  function Split(p: byte, range: word): (bound: word)
    ensures bound <= range
  {
    SplitInRange(p, range / 256);
    p * (range / 256)
  }

  lemma SplitInRange(p: byte, q: nat)
    ensures 0 <= p * q <= 256 * q
  {
  }

  function Adapt(p: byte, rate: Rate, bit: Bit): byte {
    match rate
    case Fast => p - p / 8 + 31 * bit
    case Slow => p - p / 16 + 15 * bit
  }

  /** The range and the probabilities after a decision. */
  function Advance(m: Model, d: Decision): Model {
    match d
    case Renorm => m.(range := ScaleUp(m.range))
    case Halve(_) => m.(range := m.range / 2)
    case Modelled(cell, rate, bit) =>
      var p := m.probs[cell];
      var r := ScaleUp(m.range);
      var bound := Split(p, r);
      Model(if bit == 1 then bound else r - bound, m.probs[cell := Adapt(p, rate, bit)])
  }

  function AdvanceAll(m: Model, ds: seq<Decision>): Model
    decreases |ds|
  {
    if ds == [] then m else AdvanceAll(Advance(m, ds[0]), ds[1..])
  }

  // ----- the decoder's side

  /** `pos` is the index of the next stream byte to be shifted into `code`. */
  datatype Coder = Coder(model: Model, code: word, pos: nat)

  /** Streams are read as if followed by zero bytes. */
  function ByteAt(input: seq<byte>, i: nat): byte {
    if i < |input| then input[i] else 0
  }

  function Refill(c: Coder, input: seq<byte>): Coder {
    if c.model.range < TOP then
      Coder(Advance(c.model, Renorm), (c.code * 256 + ByteAt(input, c.pos)) % 0x1_0000_0000, c.pos + 1)
    else
      c
  }

  function ReadModelled(c: Coder, input: seq<byte>, cell: Cell, rate: Rate): (Coder, Bit) {
    var full := Refill(c, input);
    var bound := Split(full.model.probs[cell], full.model.range);
    var bit: Bit := if full.code < bound then 1 else 0;
    var code := if bit == 1 then full.code else full.code - bound;
    (Coder(Advance(c.model, Modelled(cell, rate, bit)), code, full.pos), bit)
  }

  function ReadHalf(c: Coder): (Coder, Bit) {
    var half := c.model.range / 2;
    var bit: Bit := if c.code < half then 1 else 0;
    (Coder(Advance(c.model, Halve(bit)), if bit == 1 then c.code else c.code - half, c.pos), bit)
  }

  /** Asks the question of decision `d`; says whether the stream gives its answer. */
  function Answer(c: Coder, input: seq<byte>, d: Decision): (Coder, bool) {
    match d
    case Renorm => (Refill(c, input), true)
    case Halve(bit) => var (after, b) := ReadHalf(c); (after, b == bit)
    case Modelled(cell, rate, bit) => var (after, b) := ReadModelled(c, input, cell, rate); (after, b == bit)
  }

  /** The decoder, asked the questions of `ds` in turn, gets exactly their answers. */
  predicate Follows(c: Coder, input: seq<byte>, ds: seq<Decision>)
    decreases |ds|
  {
    ds == [] || (Answer(c, input, ds[0]).1 && Follows(Answer(c, input, ds[0]).0, input, ds[1..]))
  }

  function After(c: Coder, input: seq<byte>, ds: seq<Decision>): Coder
    decreases |ds|
  {
    if ds == [] then c else After(Answer(c, input, ds[0]).0, input, ds[1..])
  }

  lemma {:induction false} FollowsConcat(c: Coder, input: seq<byte>, a: seq<Decision>, b: seq<Decision>)
    ensures Follows(c, input, a + b) <==> Follows(c, input, a) && Follows(After(c, input, a), input, b)
    ensures After(c, input, a + b) == After(After(c, input, a), input, b)
    decreases |a|
  {
    if a == [] {
      assert a + b == b;
    } else {
      assert (a + b)[1..] == a[1..] + b;
      FollowsConcat(Answer(c, input, a[0]).0, input, a[1..], b);
    }
  }

  lemma {:induction false} AdvanceAllConcat(m: Model, a: seq<Decision>, b: seq<Decision>)
    ensures AdvanceAll(m, a + b) == AdvanceAll(AdvanceAll(m, a), b)
    decreases |a|
  {
    if a == [] {
      assert a + b == b;
    } else {
      assert (a + b)[1..] == a[1..] + b;
      AdvanceAllConcat(Advance(m, a[0]), a[1..], b);
    }
  }

  /** Range and probabilities of a decoder depend only on the bits it got. */
  lemma {:induction false} ModelAfter(c: Coder, input: seq<byte>, ds: seq<Decision>)
    requires Follows(c, input, ds)
    ensures After(c, input, ds).model == AdvanceAll(c.model, ds)
    decreases |ds|
  {
    if ds != [] {
      ModelAfter(Answer(c, input, ds[0]).0, input, ds[1..]);
    }
  }

  // ----- the encoder's side

  /**
   Code values `low .. low + width` relative to the interval the encoder
   started from, written with `digits` more base-256 digits than it.
   */
  datatype Interval = Interval(low: nat, width: nat, digits: nat)

  /** The part of the interval below the chosen one. */
  function Skipped(m: Model, d: Decision): nat {
    match d
    case Renorm => 0
    case Halve(bit) => if bit == 1 then 0 else m.range / 2
    case Modelled(cell, _, bit) => if bit == 1 then 0 else Split(m.probs[cell], ScaleUp(m.range))
  }

  function Shifted(m: Model, d: Decision): nat {
    if !d.Halve? && m.range < TOP then 1 else 0
  }

  function Encode(m: Model, ds: seq<Decision>): Interval
    decreases |ds|
  {
    if ds == [] then
      Interval(0, m.range, 0)
    else
      var rest := Encode(Advance(m, ds[0]), ds[1..]);
      Interval(Skipped(m, ds[0]) * Pow256(rest.digits) + rest.low, rest.width, rest.digits + Shifted(m, ds[0]))
  }

  /** The width of the final interval is the final range. */
  lemma {:induction false} WidthIsRange(m: Model, ds: seq<Decision>)
    ensures Encode(m, ds).width == AdvanceAll(m, ds).range
    decreases |ds|
  {
    if ds != [] {
      WidthIsRange(Advance(m, ds[0]), ds[1..]);
    }
  }

  lemma MoveLeft(x: nat, n: nat, k: nat)
    requires k <= 1
    ensures (if k == 1 then x * 256 else x) * Pow256(n) == x * Pow256(n + k)
  {
    if k == 1 {
      assert x * 256 * Pow256(n) == x * (256 * Pow256(n));
    }
  }

  lemma PartOfWhole(skipped: nat, part: nat, whole: nat, p: nat, rest: nat)
    requires skipped + part <= whole && rest <= part * p
    ensures skipped * p + rest <= whole * p
  {
    ProductsOrdered(skipped + part, whole, p);
    assert (skipped + part) * p == skipped * p + part * p;
  }

  /** Intervals nest: what is skipped and what is chosen fit in the range of the moment. */
  lemma {:induction false} IntervalsNest(m: Model, ds: seq<Decision>)
    ensures Encode(m, ds).low + Encode(m, ds).width <= m.range * Pow256(Encode(m, ds).digits)
    decreases |ds|
  {
    if ds != [] {
      var d, k, m' := ds[0], Shifted(m, ds[0]), Advance(m, ds[0]);
      var rest := Encode(m', ds[1..]);
      var whole := if k == 1 then m.range * 256 else m.range;
      IntervalsNest(m', ds[1..]);
      PartOfWhole(Skipped(m, d), m'.range, whole, Pow256(rest.digits), rest.low + rest.width);
      MoveLeft(m.range, rest.digits, k);
    }
  }

  /**
   An encoder as it runs: the lower end of its interval as an unbounded number,
   and how many digits it has been moved left.
   */
  datatype Encoder = Encoder(low: nat, model: Model, digits: nat)

  function Push(e: Encoder, d: Decision): Encoder {
    var low := if Shifted(e.model, d) == 1 then e.low * 256 else e.low;
    Encoder(low + Skipped(e.model, d), Advance(e.model, d), e.digits + Shifted(e.model, d))
  }

  function PushAll(e: Encoder, ds: seq<Decision>): Encoder
    decreases |ds|
  {
    if ds == [] then e else PushAll(Push(e, ds[0]), ds[1..])
  }

  /** Running the encoder forwards ends with the interval that `Encode` describes. */
  lemma {:induction false} PushAllEncodes(e: Encoder, ds: seq<Decision>)
    ensures
      var i := Encode(e.model, ds);
      PushAll(e, ds) == Encoder(e.low * Pow256(i.digits) + i.low, AdvanceAll(e.model, ds), e.digits + i.digits)
    decreases |ds|
  {
    if ds != [] {
      var e', k := Push(e, ds[0]), Shifted(e.model, ds[0]);
      var rest := Encode(e'.model, ds[1..]);
      PushAllEncodes(e', ds[1..]);
      MoveLeft(e.low, rest.digits, k);
      Distribute(if k == 1 then e.low * 256 else e.low, Skipped(e.model, ds[0]), Pow256(rest.digits));
    }
  }

  lemma Distribute(a: nat, b: nat, p: nat)
    ensures (a + b) * p == a * p + b * p
  {
  }

  // ----- decoding inverts encoding

  /** What the decoder still has to say: its code followed by the next `k` stream bytes. */
  function Pending(c: Coder, input: seq<byte>, k: nat): nat
    requires c.pos + k <= |input|
  {
    BigEndian(c.code, input[c.pos..c.pos + k])
  }

  predicate InInterval(x: nat, e: Interval) {
    e.low <= x < e.low + e.width
  }

  /** Shifting one stream byte into the code does not change the pending number. */
  lemma PendingRefill(c: Coder, input: seq<byte>, k: nat)
    requires c.pos + k <= |input| && k >= 1
    requires c.model.range < TOP && c.code < c.model.range
    ensures var full := Refill(c, input);
      full.pos == c.pos + 1 && full.code < full.model.range
      && Pending(full, input, k - 1) == Pending(c, input, k)
  {
    var bytes := input[c.pos..c.pos + k];
    assert bytes[1..] == input[c.pos + 1..c.pos + 1 + (k - 1)];
    assert c.code * 256 + bytes[0] < 0x1_0000_0000;
  }

  /** Where the code lies is decided by where the pending number lies. */
  lemma CodeBelow(c: Coder, input: seq<byte>, k: nat, bound: nat)
    requires c.pos + k <= |input|
    ensures c.code < bound <==> Pending(c, input, k) < bound * Pow256(k)
  {
    var p := Pow256(k);
    BigEndianBounds(c.code, input[c.pos..c.pos + k]);
    if c.code < bound {
      ProductsOrdered(c.code + 1, bound, p);
    } else {
      ProductsOrdered(bound, c.code, p);
    }
  }

  /**
   One decision: if the pending number lies in the interval that starts with
   `d`, the stream answers `d`, and the pending number relative to what was
   skipped is still pending.
   */
  lemma AnswerInverts(c: Coder, input: seq<byte>, d: Decision, n: nat, x: nat)
    requires c.code < c.model.range
    requires c.pos + n + Shifted(c.model, d) <= |input|
    requires Pending(c, input, n + Shifted(c.model, d)) == Skipped(c.model, d) * Pow256(n) + x
    requires x < Advance(c.model, d).range * Pow256(n)
    ensures var (after, same) := Answer(c, input, d);
      same && after.model == Advance(c.model, d) && after.pos == c.pos + Shifted(c.model, d)
      && after.code < after.model.range && Pending(after, input, n) == x
  {
    hide Pow256, BigEndian, Split, Adapt;
    var (after, same) := Answer(c, input, d);
    var full := if d.Halve? then c else Refill(c, input);
    if Shifted(c.model, d) == 1 {
      PendingRefill(c, input, n + 1);
    }
    assert Pending(full, input, n) == Skipped(c.model, d) * Pow256(n) + x;
    if !d.Renorm? {
      var bound := if d.Halve? then c.model.range / 2 else Split(c.model.probs[d.cell], ScaleUp(c.model.range));
      CodeBelow(full, input, n, bound);
      if d.bit == 0 {
        BigEndianShift(full.code, bound, input[full.pos..full.pos + n]);
      }
    }
    CodeBelow(after, input, n, after.model.range);
  }

  /**
   The range coder inverts: from any pending number in the encoder's final
   interval the decoder gets exactly the encoded bits, uses exactly the encoded
   digits, and ends with a code below its range.
   */
  lemma {:induction false} DecodingInvertsEncoding(c: Coder, input: seq<byte>, ds: seq<Decision>)
    requires c.code < c.model.range
    requires c.pos + Encode(c.model, ds).digits <= |input|
    requires InInterval(Pending(c, input, Encode(c.model, ds).digits), Encode(c.model, ds))
    ensures Follows(c, input, ds)
    ensures After(c, input, ds).pos == c.pos + Encode(c.model, ds).digits
    ensures forall i :: 0 <= i <= |ds| ==> After(c, input, ds[..i]).code < After(c, input, ds[..i]).model.range
    decreases |ds|
  {
    if ds == [] {
    } else {
      var rest := Encode(Advance(c.model, ds[0]), ds[1..]);
      var n := rest.digits;
      var x := Pending(c, input, Encode(c.model, ds).digits) - Skipped(c.model, ds[0]) * Pow256(n);
      IntervalsNest(Advance(c.model, ds[0]), ds[1..]);
      AnswerInverts(c, input, ds[0], n, x);
      var after := Answer(c, input, ds[0]).0;
      DecodingInvertsEncoding(after, input, ds[1..]);
      forall i | 0 <= i <= |ds|
        ensures After(c, input, ds[..i]).code < After(c, input, ds[..i]).model.range
      {
        if i > 0 {
          assert ds[..i][1..] == ds[1..][..i - 1];
        }
      }
    }
  }
}
