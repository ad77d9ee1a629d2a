/**
 The decisions a decoder makes on an arbitrary input: every state it passes
 through, up to the first distance whose slot has no cells of its own.
 */
module ArzlTrace {
  import opened Machine
  import opened ArzlCoder
  import opened ArzlLayout
  import opened ArzlNumbers
  import opened ArzlFormat
  import opened ArzlReading
  import opened ArzlBounds
  import opened ArzlTheorems

  // ----- one token

  /** The slot, and the number unless the slot is above 18. */
  function DistanceTrace(c: Coder, input: seq<byte>, length: nat): seq<Decision>
    requires 1 <= length < 255
  {
    KlassOf(length);
    var (c1, slot) := ReadSlot(c, input, length);
    SlotScript(length, slot)
    + if slot > LAST_SLOT then []
      else
        var sources := DistanceSources(slot, length > 2, Log2(length));
        NumberScript(sources, ReadNumber(c1, input, sources).1)
  }

  function CopyTrace(c: Coder, input: seq<byte>, history: nat, pos: nat): seq<Decision>
    requires history < 8
  {
    var (c1, length) := ReadLength(c, input, history, pos);
    LengthScript(history, pos, length) + if length == 255 then [] else DistanceTrace(c1, input, length)
  }

  function TokenTrace(c: Coder, input: seq<byte>, shift: nat, history: nat, previous: byte, pos: nat): seq<Decision>
    requires history < 8
  {
    var (c1, flag) := ReadModelled(c, input, FlagCell(history), Slow);
    FlagScript(history, flag)
    + if flag == 1 then CopyTrace(c1, input, history, pos)
      else LiteralScript(shift, previous, pos, ReadLiteral(c1, input, shift, previous, pos).1)
  }

  /** What was read has no slot above 18. */
  predicate SlotFits(reading: Reading) {
    match reading
    case Read(t) => t.Copy? && t.distance >= 1 ==> Log2(t.distance) <= LAST_SLOT
    case EndMark => true
    case OutsideTable(_, _) => false
  }

  lemma SlotOfReading(c: Coder, input: seq<byte>, length: nat)
    requires 1 <= length < 255
    ensures SlotFits(ReadDistance(c, input, length).1) <==> ReadSlot(c, input, length).1 <= LAST_SLOT
  {
    KlassOf(length);
    var (c1, slot) := ReadSlot(c, input, length);
    if slot <= LAST_SLOT_IN_MEMORY {
      SourceCounts(Log2(length), 0, 0, slot, length > 2);
      Log2Unique(ReadNumber(c1, input, DistanceSources(slot, length > 2, Log2(length))).1, slot);
    }
  }

  lemma SlotFollowed(c: Coder, input: seq<byte>, length: nat)
    requires 1 <= length < 255
    ensures var (c1, slot) := ReadSlot(c, input, length);
      Follows(c, input, SlotScript(length, slot)) && After(c, input, SlotScript(length, slot)) == c1
  {
    KlassOf(length);
    assert Pow2(3) == 8 && Pow2(5) == 32;
    SlotReads(c, input, length, ReadSlot(c, input, length).1);
  }

  lemma DistanceTraceFollowed(c: Coder, input: seq<byte>, length: nat)
    requires 1 <= length < 255
    ensures Follows(c, input, DistanceTrace(c, input, length))
    ensures SlotFits(ReadDistance(c, input, length).1) ==>
      After(c, input, DistanceTrace(c, input, length)) == ReadDistance(c, input, length).0
  {
    hide ReadSlot, SlotScript, ReadNumber, NumberScript, DistanceSources;
    KlassOf(length);
    SlotOfReading(c, input, length);
    SlotFollowed(c, input, length);
    var (c1, slot) := ReadSlot(c, input, length);
    if slot <= LAST_SLOT {
      var sources := DistanceSources(slot, length > 2, Log2(length));
      var v := ReadNumber(c1, input, sources).1;
      NumberReads(c1, input, sources, v);
      FollowsConcat(c, input, SlotScript(length, slot), NumberScript(sources, v));
    } else {
      assert SlotScript(length, slot) + [] == SlotScript(length, slot);
    }
  }

  lemma CopyTraceFollowed(c: Coder, input: seq<byte>, history: nat, pos: nat)
    requires history < 8
    ensures Follows(c, input, CopyTrace(c, input, history, pos))
    ensures SlotFits(ReadCopy(c, input, history, pos).1) ==>
      After(c, input, CopyTrace(c, input, history, pos)) == ReadCopy(c, input, history, pos).0
  {
    hide ReadLength, LengthScript, ReadDistance, DistanceTrace;
    var (c1, length) := ReadLength(c, input, history, pos);
    var first := LengthScript(history, pos, length);
    LengthReads(c, input, history, pos, length);
    if length < 255 {
      DistanceTraceFollowed(c1, input, length);
      FollowsConcat(c, input, first, DistanceTrace(c1, input, length));
    } else {
      assert first + [] == first;
    }
  }

  lemma TokenTraceFollowed(c: Coder, input: seq<byte>, shift: nat, history: nat, previous: byte, pos: nat)
    requires history < 8
    ensures Follows(c, input, TokenTrace(c, input, shift, history, previous, pos))
    ensures SlotFits(ReadToken(c, input, shift, history, previous, pos).1) ==>
      After(c, input, TokenTrace(c, input, shift, history, previous, pos))
      == ReadToken(c, input, shift, history, previous, pos).0
  {
    hide ReadModelled, ReadCopy, CopyTrace, FlagScript, LiteralScript, ReadLiteral;
    var (c1, flag) := ReadModelled(c, input, FlagCell(history), Slow);
    FlagReads(c, input, history, flag);
    if flag == 1 {
      CopyTraceFollowed(c1, input, history, pos);
      FollowsConcat(c, input, FlagScript(history, flag), CopyTrace(c1, input, history, pos));
    } else {
      var b := ReadLiteral(c1, input, shift, previous, pos).1;
      LiteralReads(c1, input, shift, previous, pos, b);
      FollowsConcat(c, input, FlagScript(history, flag), LiteralScript(shift, previous, pos, b));
    }
  }

  // ----- the bounds

  predicate SafeAndSteady(m: Model, ds: seq<Decision>) {
    Safe(m, ds, FLOOR) && Healthy(AdvanceAll(m, ds), STEADY)
  }

  lemma SteadyConcat(m: Model, a: seq<Decision>, b: seq<Decision>)
    requires SafeAndSteady(m, a) && SafeAndSteady(AdvanceAll(m, a), b)
    ensures SafeAndSteady(m, a + b) && AdvanceAll(m, a + b) == AdvanceAll(AdvanceAll(m, a), b)
  {
    hide Healthy;
    SafeConcat(m, a, b, FLOOR);
  }

  lemma NothingSteady(m: Model)
    requires Healthy(m, STEADY)
    ensures SafeAndSteady(m, [])
  {
  }

  lemma DistanceNumberSafe(m: Model, length: nat, slot: nat, v: nat)
    requires 1 <= length <= 255 && slot <= LAST_SLOT && Log2(length) <= 7 && Healthy(m, STEADY)
    ensures SafeAndSteady(m, NumberScript(DistanceSources(slot, length > 2, Log2(length)), v))
  {
    if slot == 0 {
      NothingSteady(m);
    } else {
      NumberSafe(m, DistanceBase(slot, Align(if length > 2 then 1 else 0, slot - 1), Log2(length)), slot, v, Own);
    }
  }

  lemma DistanceTraceSafe(m: Model, c: Coder, input: seq<byte>, length: nat)
    requires 1 <= length < 255 && Healthy(m, STEADY)
    ensures SafeAndSteady(m, DistanceTrace(c, input, length))
  {
    hide Healthy, Safe, ReadSlot, SlotScript, ReadNumber, NumberScript, DistanceSources;
    KlassOf(length);
    var (c1, slot) := ReadSlot(c, input, length);
    SlotSafe(m, length, slot);
    if slot <= LAST_SLOT {
      var sources := DistanceSources(slot, length > 2, Log2(length));
      var v := ReadNumber(c1, input, sources).1;
      DistanceNumberSafe(AdvanceAll(m, SlotScript(length, slot)), length, slot, v);
      SteadyConcat(m, SlotScript(length, slot), NumberScript(sources, v));
    } else {
      assert SlotScript(length, slot) + [] == SlotScript(length, slot);
    }
  }

  lemma TokenTraceSafe(m: Model, c: Coder, input: seq<byte>, shift: nat, history: nat, previous: byte, pos: nat)
    requires history < 8 && Healthy(m, STEADY)
    ensures SafeAndSteady(m, TokenTrace(c, input, shift, history, previous, pos))
  {
    hide Healthy, Safe, ReadModelled, ReadLength, LengthScript, DistanceTrace, FlagScript, LiteralScript, ReadLiteral;
    var (c1, flag) := ReadModelled(c, input, FlagCell(history), Slow);
    var first := FlagScript(history, flag);
    var m1 := AdvanceAll(m, first);
    FlagSafe(m, history, flag, Own);
    if flag == 1 {
      var (c2, length) := ReadLength(c1, input, history, pos);
      var second := LengthScript(history, pos, length);
      LengthSafe(m1, history, pos, length);
      if length < 255 {
        DistanceTraceSafe(AdvanceAll(m1, second), c2, input, length);
        SteadyConcat(m1, second, DistanceTrace(c2, input, length));
      } else {
        assert second + [] == second;
      }
      SteadyConcat(m, first, CopyTrace(c1, input, history, pos));
    } else {
      var b := ReadLiteral(c1, input, shift, previous, pos).1;
      LiteralSafe(m1, shift, previous, pos, b);
      SteadyConcat(m, first, LiteralScript(shift, previous, pos, b));
    }
  }

  // ----- whole runs

  /** The trace goes on with the run as long as the slots are small. */
  predicate Traces(reading: Reading, produced: nat, capacity: nat) {
    SlotFits(reading) && GoesOn(reading, produced, capacity)
  }

  function RunTrace(shift: nat, capacity: nat, c: Coder, input: seq<byte>, history: nat, out: seq<byte>): seq<Decision>
    requires history < 8 && 1 <= |out| <= capacity
    decreases capacity - |out|
  {
    var (c', reading) := ReadToken(c, input, shift, history, out[|out| - 1], |out|);
    TokenTrace(c, input, shift, history, out[|out| - 1], |out|)
    + if !Traces(reading, |out|, capacity) then []
      else RunTrace(shift, capacity, c', input, HistoryAfter(history, reading.token), ExpandToken(out, reading.token))
  }

  lemma {:induction false} RunTraceFollowed(
    m: Model, shift: nat, capacity: nat, c: Coder, input: seq<byte>, history: nat, out: seq<byte>)
    requires history < 8 && 1 <= |out| <= capacity && Healthy(m, STEADY)
    ensures Follows(c, input, RunTrace(shift, capacity, c, input, history, out))
    ensures SafeAndSteady(m, RunTrace(shift, capacity, c, input, history, out))
    decreases capacity - |out|
  {
    hide Healthy, Safe, ReadToken, TokenTrace, ExpandToken, Follows;
    var (c', reading) := ReadToken(c, input, shift, history, out[|out| - 1], |out|);
    var first := TokenTrace(c, input, shift, history, out[|out| - 1], |out|);
    TokenTraceFollowed(c, input, shift, history, out[|out| - 1], |out|);
    TokenTraceSafe(m, c, input, shift, history, out[|out| - 1], |out|);
    if Traces(reading, |out|, capacity) {
      var history', out' := HistoryAfter(history, reading.token), ExpandToken(out, reading.token);
      RunTraceFollowed(AdvanceAll(m, first), shift, capacity, c', input, history', out');
      var rest := RunTrace(shift, capacity, c', input, history', out');
      FollowsConcat(c, input, first, rest);
      SteadyConcat(m, first, rest);
    } else {
      assert first + [] == first;
    }
  }

  /** All decisions of the decoder on `input`, up to its end or the first slot above 18. */
  function Trace(input: seq<byte>, capacity: nat): seq<Decision>
    requires IsCoded(input) && capacity > 0
  {
    var header := ByteAt(input, 0);
    var (c, b) := ReadLiteral(Start(header, FirstCode(input)), input, header % 8, 0, 0);
    LiteralScript(header % 8, 0, 0, b) + RunTrace(header % 8, capacity, c, input, 0, [b])
  }

  lemma TraceFollowed(input: seq<byte>, capacity: nat)
    requires IsCoded(input) && capacity > 0
    ensures Follows(Start(ByteAt(input, 0), FirstCode(input)), input, Trace(input, capacity))
    ensures SafeAndSteady(StartModel(ByteAt(input, 0)), Trace(input, capacity))
  {
    hide ReadLiteral, LiteralScript, RunTrace, FirstCode;
    var header := ByteAt(input, 0);
    var start := Start(header, FirstCode(input));
    var (c, b) := ReadLiteral(start, input, header % 8, 0, 0);
    var first, m := LiteralScript(header % 8, 0, 0, b), StartModel(header);
    assert Healthy(m, STEADY);
    LiteralReads(start, input, header % 8, 0, 0, b);
    LiteralSafe(m, header % 8, 0, 0, b);
    RunTraceFollowed(AdvanceAll(m, first), header % 8, capacity, c, input, 0, [b]);
    FollowsConcat(start, input, first, RunTrace(header % 8, capacity, c, input, 0, [b]));
    SteadyConcat(m, first, RunTrace(header % 8, capacity, c, input, 0, [b]));
  }

  /**
   On every input, whether it ends well, in a bad distance or for want of space:
   in every state up to the first slot above 18 the probabilities are in bounds
   and the range is at least 2^11.
   */
  lemma EveryStateBounded(input: seq<byte>, capacity: nat, i: nat)
    requires IsCoded(input) && capacity > 0 && i <= |Trace(input, capacity)|
    ensures var start := Start(ByteAt(input, 0), FirstCode(input));
      && Follows(start, input, Trace(input, capacity)[..i])
      && Healthy(After(start, input, Trace(input, capacity)[..i]).model, FLOOR)
  {
    hide Trace, FirstCode, Healthy;
    var start, ds := Start(ByteAt(input, 0), FirstCode(input)), Trace(input, capacity);
    TraceFollowed(input, capacity);
    assert ds == ds[..i] + ds[i..];
    FollowsConcat(start, input, ds[..i], ds[i..]);
    SafeEverywhere(start.model, ds, i, FLOOR);
    ModelAfter(start, input, ds[..i]);
  }

  // ----- the trace misses nothing

  /** No slot above 18 is read before the run ends. */
  predicate SmallSlots(shift: nat, capacity: nat, c: Coder, input: seq<byte>, history: nat, out: seq<byte>)
    requires history < 8 && 1 <= |out| <= capacity
    decreases capacity - |out|
  {
    var (c', reading) := ReadToken(c, input, shift, history, out[|out| - 1], |out|);
    SlotFits(reading)
    && (Traces(reading, |out|, capacity) ==>
          SmallSlots(shift, capacity, c', input, HistoryAfter(history, reading.token), ExpandToken(out, reading.token)))
  }

  /** The trace of a run with small slots ends where the run does, whatever its outcome. */
  lemma {:induction false} RunTraceEnds(
    shift: nat, capacity: nat, c: Coder, input: seq<byte>, history: nat, out: seq<byte>)
    requires history < 8 && 1 <= |out| <= capacity && SmallSlots(shift, capacity, c, input, history, out)
    ensures After(c, input, RunTrace(shift, capacity, c, input, history, out))
      == CourseOf(shift, capacity, c, input, history, out).end
    decreases capacity - |out|
  {
    hide ReadToken, TokenTrace, ExpandToken;
    var (c', reading) := ReadToken(c, input, shift, history, out[|out| - 1], |out|);
    var first := TokenTrace(c, input, shift, history, out[|out| - 1], |out|);
    TokenTraceFollowed(c, input, shift, history, out[|out| - 1], |out|);
    if Traces(reading, |out|, capacity) {
      var history', out' := HistoryAfter(history, reading.token), ExpandToken(out, reading.token);
      RunTraceEnds(shift, capacity, c', input, history', out');
      FollowsConcat(c, input, first, RunTrace(shift, capacity, c', input, history', out'));
    } else {
      assert first + [] == first;
    }
  }

  // ----- every slot

  /** The decisions of a whole run, with slots of any size. */
  ghost function OwnScript(input: seq<byte>, capacity: nat): seq<Decision>
    requires IsCoded(input) && capacity > 0
  {
    DecodedIsScript(input, capacity);
    Script(ByteAt(input, 0), Decoded(input, capacity).tokens, Decoded(input, capacity).last)
  }

  /**
   In every state of every run, whatever its slots and its outcome, the
   probabilities are in bounds and the range is at least 2, so that both answers
   of every decision are possible; and the run stops after the last of them.
   */
  lemma EveryStateAlive(input: seq<byte>, capacity: nat, i: nat)
    requires IsCoded(input) && capacity > 0 && i <= |OwnScript(input, capacity)|
    ensures var start, ds := Start(ByteAt(input, 0), FirstCode(input)), OwnScript(input, capacity);
      && Follows(start, input, ds[..i]) && Healthy(After(start, input, ds[..i]).model, Floor(All))
      && After(start, input, ds) == Decoded(input, capacity).end
  {
    hide Script, FirstCode, Follows, Decoded, Healthy;
    var start, ds := Start(ByteAt(input, 0), FirstCode(input)), OwnScript(input, capacity);
    var course := Decoded(input, capacity);
    DecodedIsScript(input, capacity);
    ScriptDecodes(input, course.tokens, course.last, capacity);
    assert ds == ds[..i] + ds[i..];
    FollowsConcat(start, input, ds[..i], ds[i..]);
    DecoderStateBounded(input, ByteAt(input, 0), FirstCode(input), course.tokens, course.last, i, All);
  }
}
