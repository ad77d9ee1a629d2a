/**
 The decoder of a well-formed stream only uses cells that the layout gives a
 role, so each of them has exactly one.
 */
module ArzlRoles {
  import opened Machine
  import opened ArzlCoder
  import opened ArzlLayout
  import opened ArzlNumbers
  import opened ArzlFormat
  import opened ArzlBounds

  ghost predicate HasRole(cell: int) {
    exists r :: ValidRole(r) && CellOf(r) == cell
  }

  ghost predicate AllHaveRoles(ds: seq<Decision>) {
    forall i :: 0 <= i < |ds| && ds[i].Modelled? ==> HasRole(ds[i].cell)
  }

  lemma RoleOf(r: Role)
    requires ValidRole(r)
    ensures HasRole(CellOf(r))
  {
  }

  lemma {:induction false} LiteralRoles(context: nat, n: nat, leaf: nat)
    requires context < 8 && n <= 8 && TreeFits(LiteralTree(context), 1, n) && Pow2(n) <= leaf < 2 * Pow2(n)
    ensures AllHaveRoles(TreeScript(LiteralTree(context), 1, n, leaf))
  {
    if n > 0 {
      PowMonotone(n, 8);
      assert Pow2(8) == 256;
      LiteralRoles(context, n - 1, leaf / 2);
      RoleOf(LiteralNode(context, leaf / 2));
    }
  }

  lemma {:induction false} SlotRoles(klass: nat, short: bool, n: nat, leaf: nat)
    requires if short then klass < 2 && n <= 3 else 1 <= klass < 8 && n <= 5
    requires TreeFits(SlotTree(klass, short), 8, n) && Pow2(n) <= leaf < 2 * Pow2(n)
    ensures AllHaveRoles(TreeScript(SlotTree(klass, short), 8, n, leaf))
  {
    if n > 0 {
      PowMonotone(n, if short then 3 else 5);
      assert Pow2(3) == 8 && Pow2(5) == 32;
      SlotRoles(klass, short, n - 1, leaf / 2);
      RoleOf(SlotNode(klass, short, leaf / 2));
    }
  }

  lemma {:induction false} ClassRoles(history: nat, step: nat, klass: nat)
    requires history < 8 && step <= klass <= 7
    ensures AllHaveRoles(ClassScript(history, step, klass))
    decreases 7 - step
  {
    if step < 7 {
      RoleOf(ClassBit(history, step));
    }
    if step < klass {
      ClassRoles(history, step + 1, klass);
    }
  }

  ghost predicate SourcesHaveRoles(sources: seq<Source>) {
    forall i :: 0 <= i < |sources| && sources[i].Ask? ==> HasRole(sources[i].cell)
  }

  lemma {:induction false} NumberRoles(sources: seq<Source>, v: nat)
    requires SourcesHaveRoles(sources)
    ensures AllHaveRoles(NumberScript(sources, v))
    decreases |sources|
  {
    if sources != [] {
      var init := sources[..|sources| - 1];
      NumberRoles(init, if sources[|sources| - 1].Fill? then v else v / 2);
    }
  }

  /** The cells that the bits of an `n`-bit number may use. */
  ghost predicate NumberCellsHaveRoles(base: int, n: nat) {
    && HasRole(base) && (n >= 2 ==> HasRole(base + 8)) && (n >= 3 ==> HasRole(base + 16))
    && (n >= 4 ==> HasRole(base + 24))
  }

  lemma SourcesRoles(base: int, n: nat)
    requires SourcesFit(base, n) && NumberCellsHaveRoles(base, n)
    ensures SourcesHaveRoles(Sources(base, n))
  {
    hide HasRole;
    assert SourcesHaveRoles(HeadSources(base, n)) && SourcesHaveRoles(RawSources(n));
    assert SourcesHaveRoles(TailSources(base, n));
  }

  lemma LengthCells(klass: nat, align: nat, history: nat)
    requires 1 <= klass <= 7 && history < 8 && ValidNumberCell(klass, align, 0)
    ensures NumberCellsHaveRoles(LengthBase(klass, align, history), klass)
  {
    hide HasRole;
    RoleOf(LengthBit(klass, align, history, 0));
    if klass >= 2 {
      RoleOf(LengthBit(klass, align, history, 1));
    }
    if klass >= 3 {
      RoleOf(LengthBit(klass, align, history, 2));
    }
    if klass >= 4 {
      RoleOf(LengthBit(klass, align, history, 3));
    }
  }

  lemma LengthRoles(klass: nat, pos: nat, history: nat)
    requires klass <= 7 && history < 8
    ensures SourcesHaveRoles(LengthSources(klass, pos, history))
  {
    hide NumberCellsHaveRoles, SourcesHaveRoles, Sources;
    if klass == 0 {
      NoSources();
    } else {
      var align := Align(pos, klass - 1);
      LengthCells(klass, align, history);
      SourcesRoles(LengthBase(klass, align, history), klass);
    }
  }

  lemma NoSources()
    ensures SourcesHaveRoles([])
  {
  }

  lemma DistanceCells(slot: nat, align: nat, klass: nat)
    requires 1 <= slot <= LAST_SLOT && klass <= 7 && ValidNumberCell(slot, align, 0)
    ensures NumberCellsHaveRoles(DistanceBase(slot, align, klass), slot)
  {
    hide HasRole;
    RoleOf(DistanceBit(slot, align, klass, 0));
    if slot >= 2 {
      RoleOf(DistanceBit(slot, align, klass, 1));
    }
    if slot >= 3 {
      RoleOf(DistanceBit(slot, align, klass, 2));
    }
    if slot >= 4 {
      RoleOf(DistanceBit(slot, align, klass, 3));
    }
  }

  lemma DistanceRoles(slot: nat, long: bool, klass: nat)
    requires slot <= LAST_SLOT && klass <= 7
    ensures SourcesHaveRoles(DistanceSources(slot, long, klass))
  {
    hide NumberCellsHaveRoles, SourcesHaveRoles, Sources;
    if slot == 0 {
      NoSources();
    } else {
      var align := Align(if long then 1 else 0, slot - 1);
      DistanceCells(slot, align, klass);
      SourcesRoles(DistanceBase(slot, align, klass), slot);
    }
  }

  lemma LiteralScriptRoles(shift: nat, previous: byte, pos: nat, b: byte)
    ensures AllHaveRoles(LiteralScript(shift, previous, pos, b))
  {
    assert Pow2(8) == 256;
    LiteralRoles(LiteralContext(shift, previous, pos), 8, 256 + b);
  }

  lemma LengthScriptRoles(history: nat, pos: nat, length: nat)
    requires history < 8 && 1 <= length <= 255
    ensures AllHaveRoles(LengthScript(history, pos, length))
  {
    KlassOf(length);
    ClassRoles(history, 0, Log2(length));
    LengthRoles(Log2(length), pos, history);
    NumberRoles(LengthSources(Log2(length), pos, history), length);
  }

  lemma RolesConcat(a: seq<Decision>, b: seq<Decision>)
    requires AllHaveRoles(a) && AllHaveRoles(b)
    ensures AllHaveRoles(a + b)
  {
    hide HasRole;
  }

  lemma FlagRoles(history: nat, flag: Bit)
    requires history < 8
    ensures AllHaveRoles(FlagScript(history, flag))
  {
    hide HasRole;
    RoleOf(Flag(history));
  }

  lemma SlotScriptRoles(length: nat, slot: nat)
    requires 1 <= length <= 255 && slot < Pow2(SlotBits(length))
    ensures AllHaveRoles(SlotScript(length, slot))
  {
    hide HasRole, AllHaveRoles, TreeScript;
    KlassOf(length);
    assert Pow2(3) == 8 && Pow2(5) == 32;
    SlotRoles(Log2(length), length <= 2, SlotBits(length), Pow2(SlotBits(length)) + slot);
  }

  lemma DistanceScriptRoles(length: nat, distance: nat)
    requires Writable(length, distance) && Log2(distance) <= LAST_SLOT
    ensures AllHaveRoles(SlotScript(length, Log2(distance)) + DistanceScript(length, distance))
  {
    hide HasRole, AllHaveRoles, SourcesHaveRoles, SlotScript, DistanceSources, NumberScript, Pow2;
    var slot := Log2(distance);
    KlassOf(length);
    SlotScriptRoles(length, slot);
    DistanceRoles(slot, length > 2, Log2(length));
    NumberRoles(DistanceSources(slot, length > 2, Log2(length)), distance);
    RolesConcat(SlotScript(length, slot), DistanceScript(length, distance));
  }

  lemma TokenRoles(shift: nat, history: nat, previous: byte, pos: nat, t: Token)
    requires history < 8
    requires Writes(Read(t)) && Within(Read(t), Own)
    ensures AllHaveRoles(TokenScript(shift, history, previous, pos, t))
  {
    hide HasRole, AllHaveRoles;
    match t
    case Literal(b) =>
      FlagRoles(history, 0);
      LiteralScriptRoles(shift, previous, pos, b);
      RolesConcat(FlagScript(history, 0), LiteralScript(shift, previous, pos, b));
    case Copy(count, distance) =>
      var first, second := LengthScript(history, pos, count - 1),
                           SlotScript(count - 1, Log2(distance)) + DistanceScript(count - 1, distance);
      FlagRoles(history, 1);
      LengthScriptRoles(history, pos, count - 1);
      DistanceScriptRoles(count - 1, distance);
      RolesConcat(first, second);
      RolesConcat(FlagScript(history, 1), first + second);
  }

  lemma ReadingRoles(shift: nat, history: nat, previous: byte, pos: nat, r: Reading)
    requires history < 8 && Writes(r) && Within(r, Own)
    ensures AllHaveRoles(ReadingScript(shift, history, previous, pos, r))
  {
    hide HasRole, AllHaveRoles, FlagScript, LengthScript, SlotScript, TokenScript;
    match r
    case Read(t) => TokenRoles(shift, history, previous, pos, t);
    case EndMark =>
      FlagRoles(history, 1);
      LengthScriptRoles(history, pos, 255);
      RolesConcat(FlagScript(history, 1), LengthScript(history, pos, 255));
    case OutsideTable(count, slot) =>
      var length := LengthScript(history, pos, count - 1);
      FlagRoles(history, 1);
      LengthScriptRoles(history, pos, count - 1);
      SlotScriptRoles(count - 1, slot);
      RolesConcat(length, SlotScript(count - 1, slot));
      RolesConcat(FlagScript(history, 1), length + SlotScript(count - 1, slot));
  }

  lemma {:induction false} RunRoles(shift: nat, history: nat, out: seq<byte>, tokens: seq<Token>, last: Reading)
    requires history < 8 && |out| >= 1 && WellFormed(out, tokens) && Writes(last)
    requires AllWithin(tokens, Own) && Within(last, Own)
    ensures AllHaveRoles(RunScript(shift, history, out, tokens, last))
    decreases |tokens|
  {
    hide HasRole, AllHaveRoles, ReadingScript, TokenScript, ExpandToken, Within;
    if tokens == [] {
      ReadingRoles(shift, history, out[|out| - 1], |out|, last);
    } else {
      var t := tokens[0];
      WellFormedIsWritable(|out|, t);
      TokenRoles(shift, history, out[|out| - 1], |out|, t);
      RunRoles(shift, HistoryAfter(history, t), ExpandToken(out, t), tokens[1..], last);
      RolesConcat(TokenScript(shift, history, out[|out| - 1], |out|, t),
                  RunScript(shift, HistoryAfter(history, t), ExpandToken(out, t), tokens[1..], last));
    }
  }

  ghost predicate IsTheRole(r: Role, cell: int) {
    ValidRole(r) && CellOf(r) == cell && forall r' :: ValidRole(r') && CellOf(r') == cell ==> r' == r
  }

  /** Every modelled bit of a well-formed stream with slots up to 18 uses the cell of exactly one role. */
  lemma OneRolePerBit(header: byte, tokens: seq<Token>, last: Reading, i: nat)
    requires StartsWithLiteral(tokens) && WellFormed([], tokens) && Writes(last)
    requires AllWithin(tokens, Own) && Within(last, Own)
    requires i < |Script(header, tokens, last)| && Script(header, tokens, last)[i].Modelled?
    ensures exists r :: IsTheRole(r, Script(header, tokens, last)[i].cell)
  {
    LiteralScriptRoles(header % 8, 0, 0, tokens[0].b);
    RunRoles(header % 8, 0, ExpandToken([], tokens[0]), tokens[1..], last);
    var cell := Script(header, tokens, last)[i].cell;
    assert HasRole(cell);
    var r :| ValidRole(r) && CellOf(r) == cell;
    forall r' | ValidRole(r') && CellOf(r') == cell
      ensures r' == r
    {
      CellsDistinct(r, r');
    }
    assert IsTheRole(r, cell);
  }
}
