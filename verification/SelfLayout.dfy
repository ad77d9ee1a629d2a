/** Making room in a SELF file for segments that compress to more than they used to. */
module SelfLayout {
  import opened Machine

  const WORD_LIMIT := 0x1_0000_0000_0000_0000

  datatype Segment = Segment(offset: nat, length: nat) {
    function End(): nat {
      offset + length
    }
  }

  /** How much a segment grows; `compressed` is the new size, if compression succeeded. */
  function Growth(s: Segment, compressed: Option<nat>): nat {
    if compressed.Some? && s.length < compressed.value then compressed.value - s.length else 0
  }

  function TotalGrowth(segments: seq<Segment>, compressed: seq<Option<nat>>): nat
    requires |segments| == |compressed|
    decreases |segments|
  {
    if segments == [] then 0
    else
      var n := |segments| - 1;
      TotalGrowth(segments[..n], compressed[..n]) + Growth(segments[n], compressed[n])
  }

  /** Segment `i` of the new layout: moved by all growth before it, and grown. */
  function Moved(segments: seq<Segment>, compressed: seq<Option<nat>>, i: nat): Segment
    requires |segments| == |compressed| && i < |segments|
  {
    Segment(segments[i].offset + TotalGrowth(segments[..i], compressed[..i]),
            segments[i].length + Growth(segments[i], compressed[i]))
  }

  predicate Ordered(segments: seq<Segment>) {
    forall i, j :: 0 <= i < j < |segments| ==> segments[i].End() <= segments[j].offset
  }

  predicate IsLayout(segments: seq<Segment>, compressed: seq<Option<nat>>, result: seq<Segment>)
    requires |segments| == |compressed|
  {
    |result| == |segments| && forall i :: 0 <= i < |segments| ==> result[i] == Moved(segments, compressed, i)
  }

  lemma GrowthStep(segments: seq<Segment>, compressed: seq<Option<nat>>, i: nat)
    requires |segments| == |compressed| && i < |segments|
    ensures TotalGrowth(segments[..i + 1], compressed[..i + 1])
      == TotalGrowth(segments[..i], compressed[..i]) + Growth(segments[i], compressed[i])
  {
    assert segments[..i + 1][..i] == segments[..i] && compressed[..i + 1][..i] == compressed[..i];
  }

  /** The end of a segment moves by the growth up to and including it. */
  lemma EndMoves(segments: seq<Segment>, compressed: seq<Option<nat>>, result: seq<Segment>, i: nat)
    requires |segments| == |compressed| && i < |segments| && IsLayout(segments, compressed, result)
    ensures result[i].End() == segments[i].End() + TotalGrowth(segments[..i + 1], compressed[..i + 1])
  {
    GrowthStep(segments, compressed, i);
    assert result[i] == Moved(segments, compressed, i);
  }

  /** Gaps between neighbours are exactly preserved, and the last end moves by the sum of the growths. */
  lemma GapsPreserved(segments: seq<Segment>, compressed: seq<Option<nat>>, result: seq<Segment>)
    requires |segments| == |compressed| && IsLayout(segments, compressed, result)
    ensures forall i :: 0 <= i < |segments| - 1 ==>
      result[i + 1].offset - result[i].End() == segments[i + 1].offset - segments[i].End()
    ensures segments != [] ==>
      result[|result| - 1].End() == segments[|segments| - 1].End() + TotalGrowth(segments, compressed)
  {
    forall i | 0 <= i < |segments| - 1
      ensures result[i + 1].offset - result[i].End() == segments[i + 1].offset - segments[i].End()
    {
      EndMoves(segments, compressed, result, i);
      assert result[i + 1] == Moved(segments, compressed, i + 1);
    }
    if segments != [] {
      var n := |segments|;
      EndMoves(segments, compressed, result, n - 1);
      assert segments[..n] == segments && compressed[..n] == compressed;
    }
  }

  lemma {:induction false} OrderedByNeighbours(segments: seq<Segment>, i: nat, j: nat)
    requires i < j < |segments|
    requires forall k :: 0 <= k < |segments| - 1 ==> segments[k].End() <= segments[k + 1].offset
    ensures segments[i].End() <= segments[j].offset
    decreases j - i
  {
    if i + 1 < j {
      OrderedByNeighbours(segments, i, j - 1);
      assert segments[j - 1].End() <= segments[j - 1 + 1].offset;
    } else {
      assert segments[i].End() <= segments[i + 1].offset;
    }
  }

  /** Segments that were in order and disjoint still are. */
  lemma OrderPreserved(segments: seq<Segment>, compressed: seq<Option<nat>>, result: seq<Segment>)
    requires |segments| == |compressed| && IsLayout(segments, compressed, result) && Ordered(segments)
    ensures Ordered(result)
  {
    GapsPreserved(segments, compressed, result);
    forall k | 0 <= k < |result| - 1
      ensures result[k].End() <= result[k + 1].offset
    {
      assert segments[k].End() <= segments[k + 1].offset;
    }
    forall i, j | 0 <= i < j < |result|
      ensures result[i].End() <= result[j].offset
    {
      OrderedByNeighbours(result, i, j);
    }
  }

  /** The larger of the old length and the compressed size. */
  predicate Fits(s: Segment, compressed: Option<nat>, length: nat) {
    match compressed
    case None => length == s.length
    case Some(size) => s.length <= length && size <= length && (length == s.length || length == size)
  }

  /** Every segment fits what it has to hold, the first one stays, and the gaps are as before. */
  predicate Rearranged(segments: seq<Segment>, compressed: seq<Option<nat>>, result: seq<Segment>)
    requires |segments| == |compressed|
  {
    && |result| == |segments|
    && (forall i :: 0 <= i < |result| ==> Fits(segments[i], compressed[i], result[i].length))
    && (segments != [] ==> result[0].offset == segments[0].offset)
    && (forall i :: 0 <= i < |result| - 1 ==> SameGap(segments, result, i))
  }

  predicate SameGap(segments: seq<Segment>, result: seq<Segment>, i: nat)
    requires |result| == |segments| && i + 1 < |segments|
  {
    result[i + 1].offset - result[i].End() == segments[i + 1].offset - segments[i].End()
  }

  lemma {:induction false} RearrangedIsMoved(
    segments: seq<Segment>, compressed: seq<Option<nat>>, result: seq<Segment>, i: nat)
    requires |segments| == |compressed| && Rearranged(segments, compressed, result) && i < |segments|
    ensures result[i] == Moved(segments, compressed, i)
  {
    assert Fits(segments[i], compressed[i], result[i].length);
    if i > 0 {
      RearrangedIsMoved(segments, compressed, result, i - 1);
      GrowthStep(segments, compressed, i - 1);
      assert SameGap(segments, result, i - 1);
    }
  }

  /** The layout is the only rearrangement. */
  lemma LayoutExactly(segments: seq<Segment>, compressed: seq<Option<nat>>, result: seq<Segment>)
    requires |segments| == |compressed|
    ensures IsLayout(segments, compressed, result) <==> Rearranged(segments, compressed, result)
  {
    if IsLayout(segments, compressed, result) {
      GapsPreserved(segments, compressed, result);
      assert segments != [] ==> result[0] == Moved(segments, compressed, 0);
      forall i | 0 <= i < |result| - 1
        ensures SameGap(segments, result, i)
      {
        assert result[i + 1].offset - result[i].End() == segments[i + 1].offset - segments[i].End();
      }
    } else if Rearranged(segments, compressed, result) {
      forall i | 0 <= i < |segments|
        ensures result[i] == Moved(segments, compressed, i)
      {
        RearrangedIsMoved(segments, compressed, result, i);
      }
    }
  }

  function SegmentsOf(offsets: seq<nat>, lengths: seq<nat>): seq<Segment>
    requires |offsets| == |lengths|
  {
    seq(|offsets|, i requires 0 <= i < |offsets| => Segment(offsets[i], lengths[i]))
  }

  lemma {:induction false} GrowthBound(segments: seq<Segment>, compressed: seq<Option<nat>>, i: nat)
    requires |segments| == |compressed| && i <= |segments|
    ensures TotalGrowth(segments[..i], compressed[..i]) <= TotalGrowth(segments, compressed)
    decreases |segments| - i
  {
    if i < |segments| {
      GrowthStep(segments, compressed, i);
      GrowthBound(segments, compressed, i + 1);
    } else {
      assert segments[..i] == segments && compressed[..i] == compressed;
    }
  }

  /** One turn of the loop: moves segment `i`, and grows it if it compressed to more. */
  method MoveSegment(offsets: array<nat>, lengths: array<nat>, i: nat, compressed: Option<nat>, correction: nat)
    returns (correction': nat)
    requires offsets != lengths && i < offsets.Length == lengths.Length
    requires offsets[i] + correction < WORD_LIMIT
    requires correction + Growth(Segment(offsets[i], lengths[i]), compressed) < WORD_LIMIT
    modifies offsets, lengths
    ensures offsets[i] == old(offsets[i]) + correction
    ensures lengths[i] == old(lengths[i]) + Growth(Segment(old(offsets[i]), old(lengths[i])), compressed)
    ensures correction' == correction + Growth(Segment(old(offsets[i]), old(lengths[i])), compressed)
    ensures forall k :: 0 <= k < offsets.Length && k != i ==>
      offsets[k] == old(offsets[k]) && lengths[k] == old(lengths[k])
  {
    correction' := correction;
    offsets[i] := (offsets[i] + correction) % WORD_LIMIT;
    if compressed.Some? && lengths[i] < compressed.value {
      correction' := (correction + (compressed.value - lengths[i])) % WORD_LIMIT;
      lengths[i] := compressed.value;
    }
  }

  /** The loop over the segment table, for files in which no offset overflows 64 bits. */
  method Relayout(offsets: array<nat>, lengths: array<nat>, compressed: seq<Option<nat>>)
    requires offsets != lengths && offsets.Length == lengths.Length == |compressed|
    requires var before := SegmentsOf(offsets[..], lengths[..]);
      forall i :: 0 <= i < |before| ==> before[i].End() + TotalGrowth(before, compressed) < WORD_LIMIT
    modifies offsets, lengths
    ensures Rearranged(old(SegmentsOf(offsets[..], lengths[..])), compressed, SegmentsOf(offsets[..], lengths[..]))
  {
    hide TotalGrowth, Growth, Rearranged;
    ghost var before := SegmentsOf(offsets[..], lengths[..]);
    var correction: nat, i: nat := 0, 0;
    NoGrowthYet(before, compressed);
    while i < offsets.Length
      invariant i <= offsets.Length && correction == TotalGrowth(before[..i], compressed[..i])
      invariant forall k :: 0 <= k < i ==> Segment(offsets[k], lengths[k]) == Moved(before, compressed, k)
      invariant forall k :: i <= k < offsets.Length ==> Segment(offsets[k], lengths[k]) == before[k]
    {
      GrowthBound(before, compressed, i);
      GrowthStep(before, compressed, i);
      GrowthBound(before, compressed, i + 1);
      assert Segment(offsets[i], lengths[i]) == before[i];
      assert before[i].End() + TotalGrowth(before, compressed) < WORD_LIMIT;
      correction := MoveSegment(offsets, lengths, i, compressed[i], correction);
      i := i + 1;
    }
    LayoutExactly(before, compressed, SegmentsOf(offsets[..], lengths[..]));
  }

  lemma NoGrowthYet(segments: seq<Segment>, compressed: seq<Option<nat>>)
    requires |segments| == |compressed|
    ensures TotalGrowth(segments[..0], compressed[..0]) == 0
  {
  }
}
