/**
 Which contexts a stream's bits are asked in, token by token: what the decoder
 remembers of earlier copies, and of the output, told from the tokens themselves.
 */
module ArzlHistory {
  import opened Machine
  import opened ArzlCoder
  import opened ArzlLayout
  import opened ArzlNumbers
  import opened ArzlFormat
  import opened ArzlReading

  /** The last copy among the first `k` tokens, or -1. */
  function LastCopy(tokens: seq<Token>, k: nat): (j: int)
    requires k <= |tokens|
    ensures -1 <= j < k && (j >= 0 ==> tokens[j].Copy?)
    ensures forall i :: j < i < k ==> tokens[i].Literal?
  {
    if k == 0 then -1 else if tokens[k - 1].Copy? then k - 1 else LastCopy(tokens, k - 1)
  }

  /** Seven after a copy, one less for every literal since, but not below zero; zero if there was no copy. */
  function Context(tokens: seq<Token>, k: nat): (h: nat)
    requires k <= |tokens|
    ensures h < 8
  {
    var j := LastCopy(tokens, k);
    if j < 0 || k - 1 - j >= 7 then 0 else 7 - (k - 1 - j)
  }

  lemma NextContext(tokens: seq<Token>, k: nat)
    requires k < |tokens|
    ensures Context(tokens, k + 1) == HistoryAfter(Context(tokens, k), tokens[k])
  {
  }

  // ----- the script by positions

  lemma {:induction false} ExpandConcat(out: seq<byte>, a: seq<Token>, b: seq<Token>)
    requires WellFormed(out, a + b)
    ensures WellFormed(out, a) && WellFormed(Expand(out, a), b) && Expand(out, a + b) == Expand(Expand(out, a), b)
    ensures |Expand(out, a)| >= |out| + |a|
    decreases |a|
  {
    hide ExpandToken;
    if a == [] {
      assert a + b == b;
    } else {
      assert (a + b)[0] == a[0] && (a + b)[1..] == a[1..] + b;
      ExpandConcat(ExpandToken(out, a[0]), a[1..], b);
    }
  }

  lemma OneToken(out: seq<byte>, t: Token)
    ensures WellFormed(out, [t]) <==> WellFormedToken(|out|, t)
    ensures WellFormed(out, [t]) ==> Expand(out, [t]) == ExpandToken(out, t)
  {
    hide ExpandToken;
    assert [t][1..] == [];
    assert WellFormedToken(|out|, t) ==> WellFormed(ExpandToken(out, t), []);
  }

  /** What the first `k` tokens produce, and the token after them. */
  lemma Prefixes(tokens: seq<Token>, k: nat)
    requires WellFormed([], tokens) && k <= |tokens|
    ensures WellFormed([], tokens[..k]) && WellFormed(Expand([], tokens[..k]), tokens[k..])
    ensures |Expand([], tokens[..k])| >= k
    ensures k < |tokens| ==>
      && WellFormedToken(|Expand([], tokens[..k])|, tokens[k]) && WellFormed([], tokens[..k + 1])
      && Expand([], tokens[..k + 1]) == ExpandToken(Expand([], tokens[..k]), tokens[k])
  {
    hide ExpandToken, WellFormedToken, Expand, WellFormed;
    assert tokens[..k] + tokens[k..] == tokens;
    ExpandConcat([], tokens[..k], tokens[k..]);
    if k < |tokens| {
      assert tokens[..k] + [tokens[k]] == tokens[..k + 1] && tokens[..k + 1] + tokens[k + 1..] == tokens;
      ExpandConcat([], tokens[..k + 1], tokens[k + 1..]);
      ExpandConcat([], tokens[..k], [tokens[k]]);
      OneToken(Expand([], tokens[..k]), tokens[k]);
    }
  }

  /** What comes after `k` tokens. */
  function ReadingAt(tokens: seq<Token>, last: Reading, k: nat): Reading
    requires k <= |tokens|
  {
    if k < |tokens| then Read(tokens[k]) else last
  }

  lemma TokensWrite(tokens: seq<Token>, last: Reading, k: nat)
    requires WellFormed([], tokens) && Writes(last) && k <= |tokens|
    ensures Writes(ReadingAt(tokens, last, k))
  {
    Prefixes(tokens, k);
    if k < |tokens| {
      WellFormedIsWritable(|Expand([], tokens[..k])|, tokens[k]);
    }
  }

  /** Its script, in the context that the tokens before it leave. */
  function Part(header: byte, tokens: seq<Token>, last: Reading, k: nat): seq<Decision>
    requires WellFormed([], tokens) && Writes(last) && 1 <= k <= |tokens|
  {
    Prefixes(tokens, k);
    TokensWrite(tokens, last, k);
    var out := Expand([], tokens[..k]);
    ReadingScript(header % 8, Context(tokens, k), out[|out| - 1], |out|, ReadingAt(tokens, last, k))
  }

  /** The parts from that after `k` tokens on. */
  function Parts(header: byte, tokens: seq<Token>, last: Reading, k: nat): seq<Decision>
    requires WellFormed([], tokens) && Writes(last) && 1 <= k <= |tokens|
    decreases |tokens| - k
  {
    Part(header, tokens, last, k) + if k < |tokens| then Parts(header, tokens, last, k + 1) else []
  }

  lemma RunStep(shift: nat, h: nat, out: seq<byte>, tokens: seq<Token>, last: Reading)
    requires h < 8 && |out| >= 1 && WellFormed(out, tokens) && tokens != [] && Writes(last)
    ensures Writes(Read(tokens[0]))
    ensures RunScript(shift, h, out, tokens, last)
      == ReadingScript(shift, h, out[|out| - 1], |out|, Read(tokens[0]))
         + RunScript(shift, HistoryAfter(h, tokens[0]), ExpandToken(out, tokens[0]), tokens[1..], last)
  {
    hide TokenScript, ExpandToken;
    WellFormedIsWritable(|out|, tokens[0]);
  }

  lemma {:induction false} RunByParts(header: byte, tokens: seq<Token>, last: Reading, k: nat)
    requires WellFormed([], tokens) && Writes(last) && 1 <= k <= |tokens|
    ensures WellFormed([], tokens[..k])
    ensures var out := Expand([], tokens[..k]);
      WellFormed(out, tokens[k..]) && |out| >= 1
      && RunScript(header % 8, Context(tokens, k), out, tokens[k..], last) == Parts(header, tokens, last, k)
    decreases |tokens| - k
  {
    hide WellFormed, Expand, ExpandToken, RunScript, ReadingScript, Context;
    Prefixes(tokens, k);
    var out := Expand([], tokens[..k]);
    if k < |tokens| {
      Prefixes(tokens, k + 1);
      RunByParts(header, tokens, last, k + 1);
      NextContext(tokens, k);
      RunStep(header % 8, Context(tokens, k), out, tokens[k..], last);
      assert tokens[k..][0] == tokens[k] && tokens[k..][1..] == tokens[k + 1..];
    } else {
      assert tokens[k..] == [];
      EmptyRun(header % 8, Context(tokens, k), out, last);
    }
  }

  /** The script of a stream is that of its first literal and of the parts, each in the context of its position. */
  lemma ScriptByParts(header: byte, tokens: seq<Token>, last: Reading)
    requires StartsWithLiteral(tokens) && WellFormed([], tokens) && Writes(last)
    ensures Script(header, tokens, last)
      == LiteralScript(header % 8, 0, 0, tokens[0].b) + Parts(header, tokens, last, 1)
  {
    hide RunScript, Parts, LiteralScript;
    RunByParts(header, tokens, last, 1);
    assert tokens[..1][0] == tokens[0] && tokens[..1][1..] == [];
    assert Expand([], tokens[..1]) == ExpandToken([], tokens[0]);
    assert tokens[1..] == tokens[1..];
    assert Context(tokens, 1) == 0;
  }

  // ----- the cells of a part

  /** Cell tables that are indexed by the context in their last three bits. */
  predicate AsksContext(ds: seq<Decision>, first: nat, end: nat, h: nat) {
    forall i :: 0 <= i < |ds| && ds[i].Modelled? ==> first <= ds[i].cell < end && ds[i].cell % 8 == h
  }

  /** The unary length class, one bit for each step. */
  lemma {:induction false} ClassCells(h: nat, step: nat, klass: nat)
    requires h < 8 && step <= klass <= 7
    ensures |ClassScript(h, step, klass)| == if klass == 7 then 7 - step else klass - step + 1
    ensures forall i :: 0 <= i < |ClassScript(h, step, klass)| ==>
      ClassScript(h, step, klass)[i] == Modelled(2928 + 8 * (step + i) + h, Slow, if step + i < klass then 1 else 0)
    decreases 7 - step
  {
    if step < klass {
      ClassCells(h, step + 1, klass);
    }
  }

  lemma {:induction false} SourceCells(sources: seq<Source>, v: nat, first: nat, end: nat, h: nat)
    requires forall s :: s in sources && s.Ask? ==> first <= s.cell < end && s.cell % 8 == h
    ensures AsksContext(NumberScript(sources, v), first, end, h)
    decreases |sources|
  {
    if sources != [] {
      var init, s := sources[..|sources| - 1], sources[|sources| - 1];
      assert s in sources && forall s' :: s' in init ==> s' in sources;
      SourceCells(init, if s.Fill? then v else v / 2, first, end, h);
    }
  }

  lemma LengthSourceCells(klass: nat, pos: nat, h: nat)
    requires 1 <= klass <= 7 && h < 8
    ensures forall s :: s in LengthSources(klass, pos, h) && s.Ask? ==>
      2984 + 32 * (klass - 1) <= s.cell < 2984 + 32 * klass && s.cell % 8 == h
  {
    hide Sources;
    var align := Align(pos, klass - 1);
    assert align <= 3 && (klass == 2 ==> align <= 2) && (klass >= 3 ==> align == 0);
    CellsOfBase(klass, align, h);
    forall s | s in LengthSources(klass, pos, h) && s.Ask?
      ensures 2984 + 32 * (klass - 1) <= s.cell < 2984 + 32 * klass && s.cell % 8 == h
    {
      SourceKinds(LengthBase(klass, align, h), klass, s);
    }
  }

  lemma SourceKinds(base: int, n: nat, s: Source)
    requires SourcesFit(base, n) && s in Sources(base, n) && s.Ask?
    ensures s.cell == base || (n >= 2 && s.cell == base + 8) || (n >= 3 && s.cell == base + 16)
      || (n >= 4 && s.cell == base + 24)
  {
  }

  lemma CellsOfBase(klass: nat, align: nat, h: nat)
    requires 1 <= klass <= 7 && h < 8 && align <= 3 && (klass == 2 ==> align <= 2) && (klass >= 3 ==> align == 0)
    ensures var base := LengthBase(klass, align, h);
      && base == 2984 + 32 * (klass - 1) + 8 * align + h && base % 8 == h
      && (base + 8) % 8 == h && (base + 16) % 8 == h && (base + 24) % 8 == h
  {
  }

  /** The length that is coded first, if it is a copy, the end mark, or a copy from outside the table. */
  function LengthOf(r: Reading): nat {
    match r
    case Read(t) => if t.Copy? && t.count > 0 then t.count - 1 else 0
    case EndMark => 255
    case OutsideTable(count, _) => if count > 0 then count - 1 else 0
  }

  /**
   The bits of length `n` after a flag: those of its class, in the context `h`,
   and those of its number, which takes an extra decision from class 6 on.
   */
  predicate LengthAsked(part: seq<Decision>, h: nat, n: nat)
    requires 1 <= n <= 255 && h < 8
  {
    var klass := Log2(n);
    var c, m := if klass >= 7 then 7 else klass + 1, if klass >= 6 then klass + 1 else klass;
    && klass <= 7 && 1 + c + m <= |part|
    && (forall i :: 0 <= i < c ==> part[1 + i] == Modelled(2928 + 8 * i + h, Slow, if i < klass then 1 else 0))
    && (klass > 0 ==> AsksContext(part[1 + c..1 + c + m], 2984 + 32 * (klass - 1), 2984 + 32 * klass, h))
  }

  lemma {:induction false} NumberDecisions(sources: seq<Source>, v: nat)
    ensures |NumberScript(sources, v)| == |sources|
    decreases |sources|
  {
    if sources != [] {
      NumberDecisions(sources[..|sources| - 1], if sources[|sources| - 1].Fill? then v else v / 2);
    }
  }

  lemma PiecesOf(flag: Decision, a: seq<Decision>, b: seq<Decision>, rest: seq<Decision>)
    ensures var part := [flag] + (a + b + rest);
      |part| == 1 + |a| + |b| + |rest| && (forall i :: 0 <= i < |a| ==> part[1 + i] == a[i])
      && part[1 + |a|..1 + |a| + |b|] == b
  {
  }

  lemma NumberCells(klass: nat, pos: nat, h: nat, n: nat)
    requires klass <= 7 && h < 8
    ensures var b := NumberScript(LengthSources(klass, pos, h), n);
      |b| == (if klass >= 6 then klass + 1 else klass)
      && (klass > 0 ==> AsksContext(b, 2984 + 32 * (klass - 1), 2984 + 32 * klass, h))
  {
    hide NumberScript, LengthSources, AsksContext;
    NumberDecisions(LengthSources(klass, pos, h), n);
    SourceSizes(klass, pos, h);
    if klass > 0 {
      LengthSourceCells(klass, pos, h);
      SourceCells(LengthSources(klass, pos, h), n, 2984 + 32 * (klass - 1), 2984 + 32 * klass, h);
    }
  }

  lemma LengthScriptCells(h: nat, pos: nat, n: nat, flag: Decision, rest: seq<Decision>)
    requires h < 8 && 1 <= n <= 255
    ensures LengthAsked([flag] + (LengthScript(h, pos, n) + rest), h, n)
  {
    hide Log2, AsksContext, NumberScript, LengthSources, ClassScript;
    KlassOf(n);
    var klass := Log2(n);
    var a, b := ClassScript(h, 0, klass), NumberScript(LengthSources(klass, pos, h), n);
    ClassCells(h, 0, klass);
    NumberCells(klass, pos, h, n);
    PiecesOf(flag, a, b, rest);
  }

  lemma SourceSizes(klass: nat, pos: nat, h: nat)
    requires klass <= 7 && h < 8
    ensures |LengthSources(klass, pos, h)| == if klass >= 6 then klass + 1 else klass
  {
  }

  predicate IsLiteral(r: Reading) {
    r.Read? && r.token.Literal?
  }

  /** A part begins with its flag, and goes on with a length if that is set. */
  predicate PartAsked(part: seq<Decision>, h: nat, r: Reading)
    requires h < 8
  {
    && part != [] && part[0] == Modelled(2920 + h, Slow, if IsLiteral(r) then 0 else 1)
    && (!IsLiteral(r) ==> 1 <= LengthOf(r) <= 255 && LengthAsked(part, h, LengthOf(r)))
  }

  lemma TokenCells(shift: nat, h: nat, previous: byte, pos: nat, t: Token)
    requires h < 8 && Writes(Read(t))
    ensures PartAsked(TokenScript(shift, h, previous, pos, t), h, Read(t))
  {
    hide LengthAsked, LengthScript, LiteralScript, SlotScript, DistanceScript;
    if t.Copy? {
      hide Writable;
      var rest := SlotScript(t.count - 1, Log2(t.distance)) + DistanceScript(t.count - 1, t.distance);
      LengthScriptCells(h, pos, t.count - 1, Modelled(2920 + h, Slow, 1), rest);
    }
  }

  lemma ReadingCells(shift: nat, h: nat, previous: byte, pos: nat, r: Reading)
    requires h < 8 && Writes(r)
    ensures PartAsked(ReadingScript(shift, h, previous, pos, r), h, r)
  {
    hide LengthAsked, LengthScript, SlotScript, TokenScript;
    match r
    case Read(t) => TokenCells(shift, h, previous, pos, t);
    case EndMark =>
      LengthScriptCells(h, pos, 255, Modelled(2920 + h, Slow, 1), []);
      assert LengthScript(h, pos, 255) + [] == LengthScript(h, pos, 255);
    case OutsideTable(count, slot) =>
      LengthScriptCells(h, pos, count - 1, Modelled(2920 + h, Slow, 1), SlotScript(count - 1, slot));
  }

  /**
   Every part begins with its flag in the context of its position, which says
   whether a literal follows; if not, the class and the number of the length are
   asked in the same context.
   */
  lemma ContextsAsked(header: byte, tokens: seq<Token>, last: Reading, k: nat)
    requires WellFormed([], tokens) && Writes(last) && 1 <= k <= |tokens|
    ensures PartAsked(Part(header, tokens, last, k), Context(tokens, k), ReadingAt(tokens, last, k))
  {
    hide PartAsked, Context, ReadingScript, Expand, WellFormed;
    Prefixes(tokens, k);
    var out := Expand([], tokens[..k]);
    TokensWrite(tokens, last, k);
    ReadingCells(header % 8, Context(tokens, k), out[|out| - 1], |out|, ReadingAt(tokens, last, k));
  }
}
