/**
 How ARZL reads values from its bits: bit trees (literals and distance slots),
 a unary length class, and numbers given by their bits below the leading one
 (lengths and distances). Each reader has a script, the decisions that an
 encoder of a given value makes, and reads that value exactly from the streams
 that follow the script.
 */
module ArzlNumbers {
  import opened Machine
  import opened ArzlCoder
  import opened ArzlLayout

  lemma FollowsSnoc(c: Coder, input: seq<byte>, ds: seq<Decision>, d: Decision)
    ensures Follows(c, input, ds + [d]) <==> Follows(c, input, ds) && Answer(After(c, input, ds), input, d).1
    ensures After(c, input, ds + [d]) == Answer(After(c, input, ds), input, d).0
  {
    FollowsConcat(c, input, ds, [d]);
  }

  // ----- bit trees

  predicate TreeFits(base: int, stride: nat, n: nat) {
    (stride == 1 || stride == 8) && 0 <= base + stride && base + stride * (Pow2(n) - 1) < TABLE_SIZE
  }

  function NodeCell(base: int, stride: nat, n: nat, node: nat): Cell
    requires TreeFits(base, stride, n) && 1 <= node < Pow2(n)
  {
    if stride == 1 then base + node else base + 8 * node
  }

  /** The leaf reached after `n` bits, numbered Pow2(n) and up. */
  function ReadTree(c: Coder, input: seq<byte>, base: int, stride: nat, n: nat): (r: (Coder, nat))
    requires TreeFits(base, stride, n)
    ensures Pow2(n) <= r.1 < 2 * Pow2(n)
  {
    if n == 0 then (c, 1)
    else
      var (c1, node) := ReadTree(c, input, base, stride, n - 1);
      var (c2, bit) := ReadModelled(c1, input, NodeCell(base, stride, n, node), Fast);
      (c2, 2 * node + bit)
  }

  function TreeScript(base: int, stride: nat, n: nat, leaf: nat): seq<Decision>
    requires TreeFits(base, stride, n) && Pow2(n) <= leaf < 2 * Pow2(n)
  {
    if n == 0 then []
    else TreeScript(base, stride, n - 1, leaf / 2) + [Modelled(NodeCell(base, stride, n, leaf / 2), Fast, leaf % 2)]
  }

  lemma NodesBelow(base: int, stride: nat, n: nat, node: nat)
    requires n > 0 && TreeFits(base, stride, n) && Pow2(n - 1) <= node < Pow2(n)
    ensures TreeFits(base, stride, n - 1)
    ensures base + stride * (Pow2(n - 1) - 1) <= base + stride * (Pow2(n) - 1)
    ensures NodeCell(base, stride, n, node) <= base + stride * (Pow2(n) - 1)
  {
  }

  lemma {:induction false} TreeReads(c: Coder, input: seq<byte>, base: int, stride: nat, n: nat, leaf: nat)
    requires TreeFits(base, stride, n) && Pow2(n) <= leaf < 2 * Pow2(n)
    ensures Follows(c, input, TreeScript(base, stride, n, leaf)) <==> ReadTree(c, input, base, stride, n).1 == leaf
    ensures Follows(c, input, TreeScript(base, stride, n, leaf)) ==>
      After(c, input, TreeScript(base, stride, n, leaf)) == ReadTree(c, input, base, stride, n).0
  {
    hide NodeCell, TreeFits, ReadModelled;
    if n > 0 {
      NodesBelow(base, stride, n, leaf / 2);
      var (c1, node) := ReadTree(c, input, base, stride, n - 1);
      var (c2, bit) := ReadModelled(c1, input, NodeCell(base, stride, n, node), Fast);
      assert 2 * node + bit == leaf <==> node == leaf / 2 && bit == leaf % 2;
      TreeReads(c, input, base, stride, n - 1, leaf / 2);
      FollowsSnoc(c, input, TreeScript(base, stride, n - 1, leaf / 2),
                  Modelled(NodeCell(base, stride, n, leaf / 2), Fast, leaf % 2));
    }
  }

  // ----- numbers

  /** Where the next bit of a number comes from. */
  datatype Source = Ask(cell: Cell) | Fill | Plain

  predicate SourcesFit(base: int, n: nat) {
    n >= 1 && 0 <= base && base + (if n <= 3 then 8 * (n - 1) else 24) < TABLE_SIZE
  }

  /** The bits below the leading one: one or two modelled, then plain ones, then up to three modelled. */
  function Sources(base: int, n: nat): seq<Source>
    requires SourcesFit(base, n)
  {
    HeadSources(base, n) + (RawSources(n) + TailSources(base, n))
  }

  function HeadSources(base: int, n: nat): seq<Source>
    requires SourcesFit(base, n)
  {
    if n >= 5 then [Ask(base), Ask(base)] else [Ask(base)]
  }

  function RawSources(n: nat): seq<Source> {
    if n >= 6 then [Fill] + Plains(n - 5) else []
  }

  function Plains(k: nat): seq<Source> {
    seq(k, _ => Plain)
  }

  function TailSources(base: int, n: nat): seq<Source>
    requires SourcesFit(base, n)
  {
    (if n >= 4 then [Ask(base + 24)] else [])
    + (if n >= 2 then [Ask(base + 8)] else [])
    + (if n >= 3 then [Ask(base + 16)] else [])
  }

  /** How many bits of a number the sources give. */
  function BitCount(sources: seq<Source>): nat {
    if sources == [] then 0
    else BitCount(sources[..|sources| - 1]) + if sources[|sources| - 1].Fill? then 0 else 1
  }

  function ReadNumber(c: Coder, input: seq<byte>, sources: seq<Source>): (r: (Coder, nat))
    ensures Pow2(BitCount(sources)) <= r.1 < 2 * Pow2(BitCount(sources))
    decreases |sources|
  {
    if sources == [] then (c, 1)
    else
      var (c1, v) := ReadNumber(c, input, sources[..|sources| - 1]);
      match sources[|sources| - 1]
      case Fill => (Refill(c1, input), v)
      case Plain => var (c2, bit) := ReadHalf(c1); (c2, 2 * v + bit)
      case Ask(cell) => var (c2, bit) := ReadModelled(c1, input, cell, Slow); (c2, 2 * v + bit)
  }

  function NumberScript(sources: seq<Source>, v: nat): seq<Decision>
    decreases |sources|
  {
    if sources == [] then []
    else
      var init := sources[..|sources| - 1];
      match sources[|sources| - 1]
      case Fill => NumberScript(init, v) + [Renorm]
      case Plain => NumberScript(init, v / 2) + [Halve(v % 2)]
      case Ask(cell) => NumberScript(init, v / 2) + [Modelled(cell, Slow, v % 2)]
  }

  lemma {:induction false} NumberReads(c: Coder, input: seq<byte>, sources: seq<Source>, v: nat)
    requires Pow2(BitCount(sources)) <= v < 2 * Pow2(BitCount(sources))
    ensures Follows(c, input, NumberScript(sources, v)) <==> ReadNumber(c, input, sources).1 == v
    ensures Follows(c, input, NumberScript(sources, v)) ==>
      After(c, input, NumberScript(sources, v)) == ReadNumber(c, input, sources).0
    decreases |sources|
  {
    if sources != [] {
      var init := sources[..|sources| - 1];
      match sources[|sources| - 1] {
        case Fill =>
          NumberReads(c, input, init, v);
          FollowsSnoc(c, input, NumberScript(init, v), Renorm);
        case Plain =>
          NumberReads(c, input, init, v / 2);
          FollowsSnoc(c, input, NumberScript(init, v / 2), Halve(v % 2));
        case Ask(cell) =>
          NumberReads(c, input, init, v / 2);
          FollowsSnoc(c, input, NumberScript(init, v / 2), Modelled(cell, Slow, v % 2));
      }
    }
  }

  lemma {:induction false} BitCountConcat(a: seq<Source>, b: seq<Source>)
    ensures BitCount(a + b) == BitCount(a) + BitCount(b)
    decreases |b|
  {
    if b == [] {
      assert a + b == a;
    } else {
      assert (a + b)[..|a + b| - 1] == a + b[..|b| - 1];
      BitCountConcat(a, b[..|b| - 1]);
    }
  }

  lemma {:induction false} PlainCount(k: nat)
    ensures BitCount(Plains(k)) == k
  {
    if k > 0 {
      assert Plains(k)[..k - 1] == Plains(k - 1);
      PlainCount(k - 1);
    }
  }

  predicate AllAsk(sources: seq<Source>) {
    forall i :: 0 <= i < |sources| ==> sources[i].Ask?
  }

  lemma {:induction false} AskCount(sources: seq<Source>)
    requires AllAsk(sources)
    ensures BitCount(sources) == |sources|
    decreases |sources|
  {
    if sources != [] {
      AskCount(sources[..|sources| - 1]);
    }
  }

  lemma NoBits()
    ensures BitCount([]) == 0 && BitCount([Fill]) == 0
  {
    var one: seq<Source> := [Fill];
    assert one[..0] == [];
  }

  lemma RawCount(n: nat)
    ensures BitCount(RawSources(n)) == if n >= 6 then n - 5 else 0
  {
    hide BitCount, Plains;
    NoBits();
    if n >= 6 {
      BitCountConcat([Fill], Plains(n - 5));
      PlainCount(n - 5);
    }
  }

  /** A number of `n` bits below its leading one lies in [2^n, 2^(n+1)). */
  lemma SourcesCount(base: int, n: nat)
    requires SourcesFit(base, n)
    ensures BitCount(Sources(base, n)) == n
  {
    hide BitCount, RawSources;
    AskCount(HeadSources(base, n));
    AskCount(TailSources(base, n));
    RawCount(n);
    BitCountConcat(RawSources(n), TailSources(base, n));
    BitCountConcat(HeadSources(base, n), RawSources(n) + TailSources(base, n));
  }

  // ----- the unary length class

  function ReadClass(c: Coder, input: seq<byte>, history: nat, step: nat): (r: (Coder, nat))
    requires history < 8 && step <= 7
    ensures step <= r.1 <= 7
    decreases 7 - step
  {
    if step == 7 then (c, 7)
    else
      var (c1, bit) := ReadModelled(c, input, ClassCell(history, step), Slow);
      if bit == 0 then (c1, step) else ReadClass(c1, input, history, step + 1)
  }

  function ClassScript(history: nat, step: nat, klass: nat): seq<Decision>
    requires history < 8 && step <= klass <= 7
    decreases 7 - step
  {
    if step == 7 then []
    else if step == klass then [Modelled(ClassCell(history, step), Slow, 0)]
    else [Modelled(ClassCell(history, step), Slow, 1)] + ClassScript(history, step + 1, klass)
  }

  lemma {:induction false} ClassReads(c: Coder, input: seq<byte>, history: nat, step: nat, klass: nat)
    requires history < 8 && step <= klass <= 7
    ensures Follows(c, input, ClassScript(history, step, klass)) <==> ReadClass(c, input, history, step).1 == klass
    ensures Follows(c, input, ClassScript(history, step, klass)) ==>
      After(c, input, ClassScript(history, step, klass)) == ReadClass(c, input, history, step).0
    decreases 7 - step
  {
    if step < klass {
      ClassReads(ReadModelled(c, input, ClassCell(history, step), Slow).0, input, history, step + 1, klass);
    }
  }
}
