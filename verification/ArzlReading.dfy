/** A decoder reads exactly the tokens whose script its stream follows. */
module ArzlReading {
  import opened Machine
  import opened ArzlCoder
  import opened ArzlLayout
  import opened ArzlNumbers
  import opened ArzlFormat

  lemma LiteralReads(c: Coder, input: seq<byte>, shift: nat, previous: byte, pos: nat, b: byte)
    ensures Follows(c, input, LiteralScript(shift, previous, pos, b))
      <==> ReadLiteral(c, input, shift, previous, pos).1 == b
    ensures Follows(c, input, LiteralScript(shift, previous, pos, b)) ==>
      After(c, input, LiteralScript(shift, previous, pos, b)) == ReadLiteral(c, input, shift, previous, pos).0
  {
    assert Pow2(8) == 256;
    TreeReads(c, input, LiteralTree(LiteralContext(shift, previous, pos)), 1, 8, 256 + b);
  }

  lemma FlagReads(c: Coder, input: seq<byte>, history: nat, flag: Bit)
    requires history < 8
    ensures Follows(c, input, FlagScript(history, flag)) <==> ReadModelled(c, input, FlagCell(history), Slow).1 == flag
    ensures After(c, input, FlagScript(history, flag)) == ReadModelled(c, input, FlagCell(history), Slow).0
  {
    var d := Modelled(FlagCell(history), Slow, flag);
    assert FlagScript(history, flag) == [d] && [d][1..] == [];
  }

  lemma LengthReads(c: Coder, input: seq<byte>, history: nat, pos: nat, length: nat)
    requires history < 8 && 1 <= length <= 255
    ensures Follows(c, input, LengthScript(history, pos, length)) <==> ReadLength(c, input, history, pos).1 == length
    ensures Follows(c, input, LengthScript(history, pos, length)) ==>
      After(c, input, LengthScript(history, pos, length)) == ReadLength(c, input, history, pos).0
  {
    KlassOf(length);
    var klass := Log2(length);
    var sources := LengthSources(klass, pos, history);
    FollowsConcat(c, input, ClassScript(history, 0, klass), NumberScript(sources, length));
    ClassReads(c, input, history, 0, klass);
    SourceCounts(klass, pos, history, 0, false);
    var (c1, read) := ReadClass(c, input, history, 0);
    SourceCounts(read, pos, history, 0, false);
    if read == klass {
      NumberReads(c1, input, sources, length);
    } else if ReadNumber(c1, input, LengthSources(read, pos, history)).1 == length {
      Log2Unique(length, read);
    }
  }

  lemma SlotReads(c: Coder, input: seq<byte>, length: nat, slot: nat)
    requires 1 <= length <= 255 && slot < Pow2(SlotBits(length))
    requires TreeFits(SlotTree(Log2(length), length <= 2), 8, SlotBits(length))
    ensures Follows(c, input, SlotScript(length, slot))
      <==> ReadTree(c, input, SlotTree(Log2(length), length <= 2), 8, SlotBits(length)).1
           == Pow2(SlotBits(length)) + slot
    ensures Follows(c, input, SlotScript(length, slot)) ==>
      After(c, input, SlotScript(length, slot))
      == ReadTree(c, input, SlotTree(Log2(length), length <= 2), 8, SlotBits(length)).0
  {
    TreeReads(c, input, SlotTree(Log2(length), length <= 2), 8, SlotBits(length), Pow2(SlotBits(length)) + slot);
  }

  lemma DistanceReads(c: Coder, input: seq<byte>, length: nat, distance: nat)
    requires 1 <= length <= 255 && distance >= 1 && Log2(distance) <= LAST_SLOT_IN_MEMORY && Log2(length) <= 7
    ensures Follows(c, input, DistanceScript(length, distance))
      <==> ReadNumber(c, input, DistanceSources(Log2(distance), length > 2, Log2(length))).1 == distance
    ensures Follows(c, input, DistanceScript(length, distance)) ==>
      After(c, input, DistanceScript(length, distance))
      == ReadNumber(c, input, DistanceSources(Log2(distance), length > 2, Log2(length))).0
  {
    SourceCounts(Log2(length), 0, 0, Log2(distance), length > 2);
    NumberReads(c, input, DistanceSources(Log2(distance), length > 2, Log2(length)), distance);
  }

  lemma EndReads(c: Coder, input: seq<byte>, history: nat, pos: nat)
    requires history < 8
    ensures Follows(c, input, LengthScript(history, pos, 255)) <==> ReadCopy(c, input, history, pos).1.EndMark?
    ensures Follows(c, input, LengthScript(history, pos, 255)) ==>
      After(c, input, LengthScript(history, pos, 255)) == ReadCopy(c, input, history, pos).0
  {
    hide ReadLength, LengthScript, ReadSlot, ReadNumber, Follows, After;
    LengthReads(c, input, history, pos, 255);
  }

  lemma RightSlot(c: Coder, input: seq<byte>, length: nat, distance: nat)
    requires Writable(length, distance)
    requires ReadSlot(c, input, length).1 == Log2(distance)
    ensures Follows(ReadSlot(c, input, length).0, input, DistanceScript(length, distance))
      <==> ReadDistance(c, input, length).1 == Read(Copy(length + 1, distance))
    ensures Follows(ReadSlot(c, input, length).0, input, DistanceScript(length, distance)) ==>
      After(ReadSlot(c, input, length).0, input, DistanceScript(length, distance)) == ReadDistance(c, input, length).0
  {
    KlassOf(length);
    DistanceReads(ReadSlot(c, input, length).0, input, length, distance);
  }

  lemma WrongSlot(c: Coder, input: seq<byte>, length: nat, distance: nat)
    requires Writable(length, distance)
    requires ReadSlot(c, input, length).1 != Log2(distance)
    ensures ReadDistance(c, input, length).1 != Read(Copy(length + 1, distance))
  {
    KlassOf(length);
    var (c1, slot) := ReadSlot(c, input, length);
    if slot <= LAST_SLOT_IN_MEMORY {
      SlotMatters(c1, input, length, slot, distance);
    }
  }

  lemma DistanceHalfReads(c: Coder, input: seq<byte>, length: nat, distance: nat)
    requires Writable(length, distance)
    ensures var ds := SlotScript(length, Log2(distance)) + DistanceScript(length, distance);
      (Follows(c, input, ds) <==> ReadDistance(c, input, length).1 == Read(Copy(length + 1, distance)))
      && (Follows(c, input, ds) ==> After(c, input, ds) == ReadDistance(c, input, length).0)
  {
    KlassOf(length);
    assert Pow2(3) == 8 && Pow2(5) == 32;
    FollowsConcat(c, input, SlotScript(length, Log2(distance)), DistanceScript(length, distance));
    SlotReads(c, input, length, Log2(distance));
    if ReadSlot(c, input, length).1 == Log2(distance) {
      RightSlot(c, input, length, distance);
    } else {
      WrongSlot(c, input, length, distance);
    }
  }

  /** A number read with the wrong slot is a different number. */
  lemma SlotMatters(c: Coder, input: seq<byte>, length: nat, read: nat, distance: nat)
    requires 1 <= length < 255 && Log2(length) <= 7
    requires distance >= 1 && read <= LAST_SLOT_IN_MEMORY && read != Log2(distance)
    ensures ReadNumber(c, input, DistanceSources(read, length > 2, Log2(length))).1 != distance
  {
    SourceCounts(Log2(length), 0, 0, read, length > 2);
    if ReadNumber(c, input, DistanceSources(read, length > 2, Log2(length))).1 == distance {
      Log2Unique(distance, read);
    }
  }

  lemma CopyReads(c: Coder, input: seq<byte>, history: nat, pos: nat, length: nat, distance: nat)
    requires history < 8 && Writable(length, distance)
    ensures Follows(c, input, CopyScript(history, pos, length, distance))
      <==> ReadCopy(c, input, history, pos).1 == Read(Copy(length + 1, distance))
    ensures Follows(c, input, CopyScript(history, pos, length, distance)) ==>
      After(c, input, CopyScript(history, pos, length, distance)) == ReadCopy(c, input, history, pos).0
  {
    FollowsConcat(c, input, LengthScript(history, pos, length),
                  SlotScript(length, Log2(distance)) + DistanceScript(length, distance));
    LengthReads(c, input, history, pos, length);
    var (c2, read) := ReadLength(c, input, history, pos);
    if read == length {
      DistanceHalfReads(c2, input, length, distance);
    }
  }

  // ----- whole runs

  /** One token, flag included. */
  lemma TokenReads(c: Coder, input: seq<byte>, shift: nat, history: nat, previous: byte, pos: nat, t: Token)
    requires history < 8 && (t.Copy? ==> t.count >= 1 && Writable(t.count - 1, t.distance))
    ensures Follows(c, input, TokenScript(shift, history, previous, pos, t))
      <==> ReadToken(c, input, shift, history, previous, pos).1 == Read(t)
    ensures Follows(c, input, TokenScript(shift, history, previous, pos, t)) ==>
      After(c, input, TokenScript(shift, history, previous, pos, t))
      == ReadToken(c, input, shift, history, previous, pos).0
  {
    var c1 := ReadModelled(c, input, FlagCell(history), Slow).0;
    match t
    case Literal(b) =>
      FlagReads(c, input, history, 0);
      FollowsConcat(c, input, FlagScript(history, 0), LiteralScript(shift, previous, pos, b));
      LiteralReads(c1, input, shift, previous, pos, b);
    case Copy(count, distance) =>
      FlagReads(c, input, history, 1);
      FollowsConcat(c, input, FlagScript(history, 1), CopyScript(history, pos, count - 1, distance));
      CopyReads(c1, input, history, pos, count - 1, distance);
  }

  lemma EndTokenReads(c: Coder, input: seq<byte>, shift: nat, history: nat, previous: byte, pos: nat)
    requires history < 8
    ensures Follows(c, input, EndScript(history, pos))
      <==> ReadToken(c, input, shift, history, previous, pos).1 == EndMark
    ensures Follows(c, input, EndScript(history, pos)) ==>
      After(c, input, EndScript(history, pos)) == ReadToken(c, input, shift, history, previous, pos).0
  {
    FlagReads(c, input, history, 1);
    FollowsConcat(c, input, FlagScript(history, 1), LengthScript(history, pos, 255));
    EndReads(ReadModelled(c, input, FlagCell(history), Slow).0, input, history, pos);
  }

  /** The slot of a distance outside the table. */
  lemma OutsideReads(c: Coder, input: seq<byte>, history: nat, pos: nat, length: nat, slot: nat)
    requires history < 8 && 1 <= length < 255 && LAST_SLOT_IN_MEMORY < slot < Pow2(SlotBits(length))
    ensures var ds := LengthScript(history, pos, length) + SlotScript(length, slot);
      (Follows(c, input, ds) <==> ReadCopy(c, input, history, pos).1 == OutsideTable(length + 1, slot))
      && (Follows(c, input, ds) ==> After(c, input, ds) == ReadCopy(c, input, history, pos).0)
  {
    hide ReadLength, LengthScript, SlotScript, ReadSlot, ReadNumber, DistanceSources, Follows, After, Log2;
    FollowsConcat(c, input, LengthScript(history, pos, length), SlotScript(length, slot));
    LengthReads(c, input, history, pos, length);
    var (c1, read) := ReadLength(c, input, history, pos);
    if length == read {
      SlotReadsBack(c1, input, length, slot);
    }
  }

  lemma SlotReadsBack(c: Coder, input: seq<byte>, length: nat, slot: nat)
    requires 1 <= length < 255 && slot < Pow2(SlotBits(length))
    ensures Follows(c, input, SlotScript(length, slot)) <==> ReadSlot(c, input, length).1 == slot
    ensures Follows(c, input, SlotScript(length, slot)) ==>
      After(c, input, SlotScript(length, slot)) == ReadSlot(c, input, length).0
  {
    KlassOf(length);
    assert Pow2(3) == 8 && Pow2(5) == 32;
    SlotReads(c, input, length, slot);
  }

  /** What comes next is read exactly when the stream follows its script. */
  lemma ReadingReads(c: Coder, input: seq<byte>, shift: nat, history: nat, previous: byte, pos: nat, r: Reading)
    requires history < 8 && Writes(r)
    ensures Follows(c, input, ReadingScript(shift, history, previous, pos, r))
      <==> ReadToken(c, input, shift, history, previous, pos).1 == r
    ensures Follows(c, input, ReadingScript(shift, history, previous, pos, r)) ==>
      After(c, input, ReadingScript(shift, history, previous, pos, r))
      == ReadToken(c, input, shift, history, previous, pos).0
  {
    hide Follows, After, TokenScript, EndScript, FlagScript, LengthScript, SlotScript;
    hide ReadModelled, ReadCopy, ReadLiteral;
    match r
    case Read(t) => TokenReads(c, input, shift, history, previous, pos, t);
    case EndMark => EndTokenReads(c, input, shift, history, previous, pos);
    case OutsideTable(count, slot) =>
      var rest := LengthScript(history, pos, count - 1) + SlotScript(count - 1, slot);
      FlagReads(c, input, history, 1);
      FollowsConcat(c, input, FlagScript(history, 1), rest);
      OutsideReads(ReadModelled(c, input, FlagCell(history), Slow).0, input, history, pos, count - 1, slot);
  }

  /** A short copy has a three-bit slot, any other a slot in memory. */
  lemma DistanceWritable(c: Coder, input: seq<byte>, length: nat)
    requires 1 <= length < 255
    ensures var reading := ReadDistance(c, input, length).1;
      Writes(reading) && (reading.Read? ==> reading.token.distance < (if length <= 2 then 0x100 else 0x2000_0000))
  {
    KlassOf(length);
    var (c1, slot) := ReadSlot(c, input, length);
    assert Pow2(3) == 8 && Pow2(5) == 32;
    if slot <= LAST_SLOT_IN_MEMORY {
      var sources := DistanceSources(slot, length > 2, Log2(length));
      SourceCounts(Log2(length), 0, 0, slot, length > 2);
      Log2Unique(ReadNumber(c1, input, sources).1, slot);
      SlotBound(slot);
    }
  }

  lemma SlotBound(slot: nat)
    ensures slot < 8 ==> 2 * Pow2(slot) <= 0x100
    ensures slot <= LAST_SLOT_IN_MEMORY ==> 2 * Pow2(slot) <= 0x2000_0000
  {
    assert Pow2(7) == 0x80 && Pow2(14) == 0x4000;
    assert Pow2(21) == 0x20_0000 && Pow2(28) == 0x1000_0000;
    if slot < 8 {
      PowMonotone(slot, 7);
    } else if slot <= LAST_SLOT_IN_MEMORY {
      PowMonotone(slot, 28);
    }
  }

  lemma ReadTokenWritable(c: Coder, input: seq<byte>, shift: nat, history: nat, previous: byte, pos: nat)
    requires history < 8
    ensures var reading := ReadToken(c, input, shift, history, previous, pos).1;
      Writes(reading) && (reading.Read? && InReach(pos, reading.token) ==> WellFormedToken(pos, reading.token))
  {
    hide ReadModelled, ReadLength, ReadLiteral, ReadDistance, Writable;
    var (c1, flag) := ReadModelled(c, input, FlagCell(history), Slow);
    if flag == 1 {
      var (c2, length) := ReadLength(c1, input, history, pos);
      if length < 255 {
        DistanceWritable(c2, input, length);
      }
    }
  }

  lemma {:induction false} ExpandGrows(out: seq<byte>, tokens: seq<Token>)
    requires WellFormed(out, tokens)
    ensures |Expand(out, tokens)| >= |out| + |tokens|
    decreases |tokens|
  {
    if tokens != [] {
      ExpandGrows(ExpandToken(out, tokens[0]), tokens[1..]);
    }
  }

  /** The first token of a run, and the rest. */
  lemma RunScriptSplits(
    c: Coder, input: seq<byte>, shift: nat, history: nat, out: seq<byte>, tokens: seq<Token>, last: Reading)
    requires history < 8 && |out| >= 1 && WellFormed(out, tokens) && tokens != [] && Writes(last)
    ensures var (c', reading) := ReadToken(c, input, shift, history, out[|out| - 1], |out|);
      var rest := RunScript(shift, HistoryAfter(history, tokens[0]), ExpandToken(out, tokens[0]), tokens[1..], last);
      var all := RunScript(shift, history, out, tokens, last);
      (Follows(c, input, all) <==> reading == Read(tokens[0]) && Follows(c', input, rest))
      && (reading == Read(tokens[0]) ==> After(c, input, all) == After(c', input, rest))
  {
    var t := tokens[0];
    WellFormedIsWritable(|out|, t);
    var first := TokenScript(shift, history, out[|out| - 1], |out|, t);
    var rest := RunScript(shift, HistoryAfter(history, t), ExpandToken(out, t), tokens[1..], last);
    assert RunScript(shift, history, out, tokens, last) == first + rest;
    FollowsConcat(c, input, first, rest);
    TokenReads(c, input, shift, history, out[|out| - 1], |out|, t);
  }

  lemma EmptyRun(shift: nat, history: nat, out: seq<byte>, last: Reading)
    requires history < 8 && |out| >= 1 && Writes(last)
    ensures RunScript(shift, history, out, [], last) == ReadingScript(shift, history, out[|out| - 1], |out|, last)
  {
  }

  /** The course of a run whose first token is accepted. */
  lemma CourseSplits(shift: nat, capacity: nat, c: Coder, input: seq<byte>, history: nat, out: seq<byte>, t: Token)
    requires history < 8 && 1 <= |out| <= capacity
    requires ReadToken(c, input, shift, history, out[|out| - 1], |out|).1 == Read(t) && GoesOn(Read(t), |out|, capacity)
    ensures var c' := ReadToken(c, input, shift, history, out[|out| - 1], |out|).0;
      var rest := CourseOf(shift, capacity, c', input, HistoryAfter(history, t), ExpandToken(out, t));
      && CourseOf(shift, capacity, c, input, history, out) == rest.(tokens := [t] + rest.tokens)
      && DecodeRun(shift, capacity, c, input, history, out)
         == DecodeRun(shift, capacity, c', input, HistoryAfter(history, t), ExpandToken(out, t))
  {
    hide ReadToken, ExpandToken;
  }

  /** The course of one that does not go on. */
  lemma CourseStops(shift: nat, capacity: nat, c: Coder, input: seq<byte>, history: nat, out: seq<byte>)
    requires history < 8 && 1 <= |out| <= capacity
    requires !GoesOn(ReadToken(c, input, shift, history, out[|out| - 1], |out|).1, |out|, capacity)
    ensures var (c', reading) := ReadToken(c, input, shift, history, out[|out| - 1], |out|);
      && CourseOf(shift, capacity, c, input, history, out) == Course([], reading, c')
      && DecodeRun(shift, capacity, c, input, history, out) == OutcomeOf(out, reading, c'.pos)
  {
    hide ReadToken, ExpandToken;
  }

  /**
   A stream that follows the script of some tokens that fit, and of something
   that ends the run, takes that course.
   */
  lemma {:induction false} ScriptIsCourse(
    c: Coder, input: seq<byte>, shift: nat, capacity: nat, history: nat, out: seq<byte>, tokens: seq<Token>,
    last: Reading)
    requires history < 8 && |out| >= 1 && WellFormed(out, tokens) && Writes(last)
    requires |out| <= capacity && |Expand(out, tokens)| <= capacity && !GoesOn(last, |Expand(out, tokens)|, capacity)
    requires Follows(c, input, RunScript(shift, history, out, tokens, last))
    ensures CourseOf(shift, capacity, c, input, history, out)
      == Course(tokens, last, After(c, input, RunScript(shift, history, out, tokens, last)))
    decreases |tokens|
  {
    hide ReadToken, TokenScript, ExpandToken, Follows, After, ReadingScript, RunScript, CourseOf, GoesOn;
    if tokens == [] {
      EmptyRun(shift, history, out, last);
      ReadingReads(c, input, shift, history, out[|out| - 1], |out|, last);
      CourseStops(shift, capacity, c, input, history, out);
    } else {
      var t, out' := tokens[0], ExpandToken(out, tokens[0]);
      RunScriptSplits(c, input, shift, history, out, tokens, last);
      ExpandGrows(out', tokens[1..]);
      FirstGoesOn(out, tokens, capacity);
      CourseSplits(shift, capacity, c, input, history, out, t);
      ScriptIsCourse(ReadToken(c, input, shift, history, out[|out| - 1], |out|).0, input, shift, capacity,
                     HistoryAfter(history, t), out', tokens[1..], last);
      assert [t] + tokens[1..] == tokens;
    }
  }

  lemma FirstGoesOn(out: seq<byte>, tokens: seq<Token>, capacity: nat)
    requires tokens != [] && WellFormed(out, tokens) && |Expand(out, tokens)| <= capacity
    ensures GoesOn(Read(tokens[0]), |out|, capacity)
  {
    ExpandGrows(ExpandToken(out, tokens[0]), tokens[1..]);
  }

  /** Every run takes such a course, and its outcome is what the last reading makes of it. */
  lemma {:induction false} CourseIsScript(
    c: Coder, input: seq<byte>, shift: nat, capacity: nat, history: nat, out: seq<byte>)
    requires history < 8 && 1 <= |out| <= capacity
    ensures var course := CourseOf(shift, capacity, c, input, history, out);
      && WellFormed(out, course.tokens) && Writes(course.last)
      && |Expand(out, course.tokens)| <= capacity && !GoesOn(course.last, |Expand(out, course.tokens)|, capacity)
      && Follows(c, input, RunScript(shift, history, out, course.tokens, course.last))
      && DecodeRun(shift, capacity, c, input, history, out)
         == OutcomeOf(Expand(out, course.tokens), course.last, course.end.pos)
    decreases capacity - |out|
  {
    hide ReadToken, TokenScript, ExpandToken, Follows, After, ReadingScript, RunScript;
    hide CourseOf, DecodeRun, WellFormedToken;
    var (c', reading) := ReadToken(c, input, shift, history, out[|out| - 1], |out|);
    ReadTokenWritable(c, input, shift, history, out[|out| - 1], |out|);
    if GoesOn(reading, |out|, capacity) {
      var t := reading.token;
      var rest := CourseOf(shift, capacity, c', input, HistoryAfter(history, t), ExpandToken(out, t));
      CourseSplits(shift, capacity, c, input, history, out, t);
      CourseIsScript(c', input, shift, capacity, HistoryAfter(history, t), ExpandToken(out, t));
      assert ([t] + rest.tokens)[1..] == rest.tokens;
      RunScriptSplits(c, input, shift, history, out, [t] + rest.tokens, rest.last);
    } else {
      CourseStops(shift, capacity, c, input, history, out);
      EmptyRun(shift, history, out, reading);
      ReadingReads(c, input, shift, history, out[|out| - 1], |out|, reading);
    }
  }
}
