/** The main results about ARZL decompression. */
module ArzlTheorems {
  import opened Machine
  import opened ArzlCoder
  import opened ArzlFormat
  import opened ArzlReading
  import opened ArzlBounds

  // ----- every token sequence can be encoded, and decodes to its expansion

  /** Some tokens, and what comes after them. */
  predicate Scripted(tokens: seq<Token>, last: Reading) {
    StartsWithLiteral(tokens) && WellFormed([], tokens) && Writes(last)
  }

  function Encoding(header: byte, tokens: seq<Token>, last: Reading): Interval
    requires Scripted(tokens, last)
  {
    Encode(StartModel(header), Script(header, tokens, last))
  }

  /** The stream that writes the code value `x`. */
  function Stream(header: byte, tokens: seq<Token>, last: Reading, x: nat): seq<byte>
    requires Scripted(tokens, last)
  {
    [header] + Digits(x, 4 + Encoding(header, tokens, last).digits)
  }

  lemma {:induction false} PowAdd(a: nat, b: nat)
    ensures Pow256(a + b) == Pow256(a) * Pow256(b)
  {
    if a > 0 {
      PowAdd(a - 1, b);
    }
  }

  /**
   Every script ends with a non-empty interval of code values, all of which four
   bytes and the counted digits can hold.
   */
  lemma EncodingExists(header: byte, tokens: seq<Token>, last: Reading)
    requires Scripted(tokens, last)
    ensures var e := Encoding(header, tokens, last);
      e.width >= Rest(All) && e.low + e.width <= 0xFFFF_FFFF * Pow256(e.digits) < Pow256(4 + e.digits)
  {
    hide Script, Safe, InitialProbability;
    var m, ds := StartModel(header), Script(header, tokens, last);
    var n := Encode(m, ds).digits;
    WellFormedWithin([], tokens);
    ScriptSafe(header, tokens, last, All);
    WidthIsRange(m, ds);
    IntervalsNest(m, ds);
    PowAdd(4, n);
    assert Pow256(4) == 0x1_0000_0000;
    assert 0x1_0000_0000 * Pow256(n) == 0xFFFF_FFFF * Pow256(n) + Pow256(n);
  }

  /** The first four digits of a stream become the code, the others stay pending. */
  lemma StreamPending(header: byte, x: nat, n: nat, tail: seq<byte>)
    requires x < 0xFFFF_FFFF * Pow256(n)
    ensures var input := [header] + Digits(x, 4 + n) + tail;
      var c := Start(header, FirstCode(input));
      c.code < c.model.range && c.pos + n <= |input| && Pending(c, input, n) == x
  {
    var digits := Digits(x, 4 + n);
    var input := [header] + digits + tail;
    var first, rest := digits[..4], digits[4..];
    PowAdd(4, n);
    assert Pow256(4) == 0x1_0000_0000;
    ProductsOrdered(0xFFFF_FFFF, 0x1_0000_0000, Pow256(n));
    DigitsRoundTrip(x, 4 + n);
    assert digits == first + rest;
    BigEndianConcat(0, first, rest);
    assert [ByteAt(input, 1), ByteAt(input, 2), ByteAt(input, 3), ByteAt(input, 4)] == first;
    assert input[5..5 + n] == rest;
    var c := Start(header, FirstCode(input));
    assert c.code == BigEndian(0, first);
    CodeBelow(c, input, n, 0xFFFF_FFFF);
  }

  /** A stream that encodes a script follows it, to its last byte, whatever comes after it. */
  lemma StreamFollows(header: byte, tokens: seq<Token>, last: Reading, x: nat, tail: seq<byte>)
    requires Scripted(tokens, last) && InInterval(x, Encoding(header, tokens, last))
    ensures var stream := Stream(header, tokens, last, x);
      var start := Start(header, FirstCode(stream + tail));
      && Follows(start, stream + tail, Script(header, tokens, last))
      && After(start, stream + tail, Script(header, tokens, last)).pos == |stream|
  {
    hide Script, Encode, Follows, After;
    EncodingExists(header, tokens, last);
    StreamPending(header, x, Encoding(header, tokens, last).digits, tail);
    var input := Stream(header, tokens, last, x) + tail;
    DecodingInvertsEncoding(Start(header, FirstCode(input)), input, Script(header, tokens, last));
  }

  lemma FirstLiteral(input: seq<byte>, header: byte, tokens: seq<Token>, last: Reading)
    requires Scripted(tokens, last)
    ensures var c := Start(header, FirstCode(input));
      var (c1, b) := ReadLiteral(c, input, header % 8, 0, 0);
      var rest := RunScript(header % 8, 0, ExpandToken([], tokens[0]), tokens[1..], last);
      (Follows(c, input, Script(header, tokens, last)) <==> b == tokens[0].b && Follows(c1, input, rest))
      && (b == tokens[0].b ==> After(c, input, Script(header, tokens, last)) == After(c1, input, rest))
  {
    var c := Start(header, FirstCode(input));
    LiteralReads(c, input, header % 8, 0, 0, tokens[0].b);
    FollowsConcat(c, input, LiteralScript(header % 8, 0, 0, tokens[0].b),
                  RunScript(header % 8, 0, ExpandToken([], tokens[0]), tokens[1..], last));
  }

  // ----- the course of a stream, and its outcome

  /** The tokens accepted from a stream, what is read then, and the decoder after it. */
  function Decoded(input: seq<byte>, capacity: nat): Course
    requires IsCoded(input) && capacity > 0
  {
    var header := ByteAt(input, 0);
    var (c, b) := ReadLiteral(Start(header, FirstCode(input)), input, header % 8, 0, 0);
    var course := CourseOf(header % 8, capacity, c, input, 0, [b]);
    course.(tokens := [Literal(b)] + course.tokens)
  }

  /** The tokens fit into the buffer, and what comes after them ends the run. */
  predicate Ends(tokens: seq<Token>, last: Reading, capacity: nat)
    requires Scripted(tokens, last)
  {
    |Expand([], tokens)| <= capacity && !GoesOn(last, |Expand([], tokens)|, capacity)
  }

  ghost predicate FollowsScript(input: seq<byte>, tokens: seq<Token>, last: Reading) {
    Scripted(tokens, last)
    && Follows(Start(ByteAt(input, 0), FirstCode(input)), input, Script(ByteAt(input, 0), tokens, last))
  }

  /** The stream goes through tokens that fit and then to something that ends the run. */
  ghost predicate Takes(input: seq<byte>, capacity: nat, tokens: seq<Token>, last: Reading) {
    FollowsScript(input, tokens, last) && Ends(tokens, last, capacity)
  }

  /** A stream that follows such a script takes that course, and its outcome is what the last reading makes of it. */
  lemma ScriptDecodes(input: seq<byte>, tokens: seq<Token>, last: Reading, capacity: nat)
    requires IsCoded(input) && FollowsScript(input, tokens, last) && Ends(tokens, last, capacity)
    ensures capacity > 0
    ensures var end := After(Start(ByteAt(input, 0), FirstCode(input)), input, Script(ByteAt(input, 0), tokens, last));
      && Decoded(input, capacity) == Course(tokens, last, end)
      && Decompress(input, capacity) == OutcomeOf(Expand([], tokens), last, end.pos)
  {
    hide ReadLiteral, Script, RunScript, Follows, After, CourseOf, DecodeRun, GoesOn, FirstCode, WellFormedToken;
    var header := ByteAt(input, 0);
    var (c, b) := ReadLiteral(Start(header, FirstCode(input)), input, header % 8, 0, 0);
    FirstLiteral(input, header, tokens, last);
    assert ExpandToken([], tokens[0]) == [tokens[0].b];
    ExpandGrows([tokens[0].b], tokens[1..]);
    ScriptIsCourse(c, input, header % 8, capacity, 0, [b], tokens[1..], last);
    CourseIsScript(c, input, header % 8, capacity, 0, [b]);
    assert [tokens[0]] + tokens[1..] == tokens;
  }

  /** Every stream follows the script of its own course. */
  lemma DecodedIsScript(input: seq<byte>, capacity: nat)
    requires IsCoded(input) && capacity > 0
    ensures var course := Decoded(input, capacity);
      && FollowsScript(input, course.tokens, course.last) && Ends(course.tokens, course.last, capacity)
  {
    hide ReadLiteral, Script, RunScript, Follows, After, CourseOf, DecodeRun, GoesOn, FirstCode, WellFormedToken;
    var header := ByteAt(input, 0);
    var (c, b) := ReadLiteral(Start(header, FirstCode(input)), input, header % 8, 0, 0);
    var rest := CourseOf(header % 8, capacity, c, input, 0, [b]);
    CourseIsScript(c, input, header % 8, capacity, 0, [b]);
    var tokens := [Literal(b)] + rest.tokens;
    assert tokens[1..] == rest.tokens && ExpandToken([], tokens[0]) == [b];
    LiteralFirst(tokens, b);
    FirstLiteral(input, header, tokens, rest.last);
  }

  lemma LiteralFirst(tokens: seq<Token>, b: byte)
    requires tokens != [] && tokens[0] == Literal(b) && WellFormed([b], tokens[1..])
    ensures StartsWithLiteral(tokens) && WellFormed([], tokens) && Expand([], tokens) == Expand([b], tokens[1..])
  {
    assert ExpandToken([], tokens[0]) == [b];
  }

  /**
   Every stream has exactly one course: it accepts tokens and then reads what ends
   the run exactly when it follows their script, and that decides the outcome,
   success or not.
   */
  lemma OutcomeExactly(input: seq<byte>, capacity: nat, tokens: seq<Token>, last: Reading)
    requires IsCoded(input) && capacity > 0
    ensures Decoded(input, capacity).tokens == tokens && Decoded(input, capacity).last == last
      <==> Takes(input, capacity, tokens, last)
    ensures Takes(input, capacity, tokens, last) ==>
      Decompress(input, capacity) == OutcomeOf(Expand([], tokens), last, Decoded(input, capacity).end.pos)
  {
    hide Decoded, Decompress, Follows, Script, WellFormed, Expand;
    DecodedIsScript(input, capacity);
    if Takes(input, capacity, tokens, last) {
      ScriptDecodes(input, tokens, last, capacity);
    }
  }

  /** For every course there are streams that take it, and for each the decoder reports its outcome and end. */
  lemma CourseRoundTrip(
    header: byte, tokens: seq<Token>, last: Reading, x: nat, tail: seq<byte>, capacity: nat)
    requires header < 0x80 && Scripted(tokens, last) && Ends(tokens, last, capacity)
    requires InInterval(x, Encoding(header, tokens, last))
    ensures var stream := Stream(header, tokens, last, x);
      IsCoded(stream + tail) && FollowsScript(stream + tail, tokens, last)
      && Decompress(stream + tail, capacity) == OutcomeOf(Expand([], tokens), last, |stream|)
  {
    hide Decompress, Script, Encode, Follows, After, FirstCode;
    var input := Stream(header, tokens, last, x) + tail;
    assert ByteAt(input, 0) == header;
    StreamFollows(header, tokens, last, x, tail);
    ScriptDecodes(input, tokens, last, capacity);
  }

  /**
   Token round trip: for every sequence of tokens and every code value in its
   interval, the decoder returns the expansion of the tokens, given room for it,
   and reports the end of the stream, whatever follows it.
   */
  lemma TokenRoundTrip(header: byte, tokens: seq<Token>, x: nat, tail: seq<byte>, capacity: nat)
    requires header < 0x80 && StartsWithLiteral(tokens) && WellFormed([], tokens)
    requires InInterval(x, Encoding(header, tokens, EndMark))
    requires |Expand([], tokens)| <= capacity
    ensures var stream := Stream(header, tokens, EndMark, x);
      Decompress(stream + tail, capacity) == Done(Expand([], tokens), |stream|)
  {
    hide Decompress, Script, Encode, Stream;
    CourseRoundTrip(header, tokens, EndMark, x, tail, capacity);
  }

  /** There is a stream for every course. */
  lemma StreamExists(header: byte, tokens: seq<Token>, last: Reading, capacity: nat) returns (stream: seq<byte>)
    requires header < 0x80 && Scripted(tokens, last) && Ends(tokens, last, capacity)
    ensures IsCoded(stream) && ByteAt(stream, 0) == header && FollowsScript(stream, tokens, last)
    ensures Decompress(stream, capacity) == OutcomeOf(Expand([], tokens), last, |stream|)
  {
    hide Decompress, Script, Encode, FollowsScript, Follows;
    EncodingExists(header, tokens, last);
    var x := Encoding(header, tokens, last).low;
    stream := Stream(header, tokens, last, x);
    assert stream + [] == stream;
    CourseRoundTrip(header, tokens, last, x, [], capacity);
  }

  // ----- each outcome

  /**
   The decoder succeeds exactly when the stream follows the script of well-formed
   tokens whose expansion fits, up to the end mark; those are then the tokens it
   decodes, and it returns their expansion.
   */
  lemma DecodesExactlyScripts(input: seq<byte>, capacity: nat, tokens: seq<Token>)
    requires IsCoded(input) && capacity > 0
    ensures Decompress(input, capacity).Done? && Decoded(input, capacity).tokens == tokens
      <==> FollowsScript(input, tokens, EndMark) && |Expand([], tokens)| <= capacity
    ensures Decompress(input, capacity).Done? && Decoded(input, capacity).tokens == tokens ==>
      Decompress(input, capacity).out == Expand([], tokens)
  {
    hide Decoded, Decompress, Follows, Script, WellFormed, Expand;
    var course := Decoded(input, capacity);
    OutcomeExactly(input, capacity, course.tokens, course.last);
    if FollowsScript(input, tokens, EndMark) {
      OutcomeExactly(input, capacity, tokens, EndMark);
    }
  }

  /** A copy that reaches back beyond the first byte. */
  predicate TooFar(tokens: seq<Token>, t: Token)
    requires Scripted(tokens, Read(t))
  {
    t.Copy? && t.distance > |Expand([], tokens)|
  }

  /** The stream goes on, after tokens that fit, with a copy whose distance is too large. */
  ghost predicate ReachesTooFar(input: seq<byte>, capacity: nat, tokens: seq<Token>, t: Token) {
    FollowsScript(input, tokens, Read(t)) && |Expand([], tokens)| <= capacity && TooFar(tokens, t)
  }

  /** The decoder reports a bad distance exactly for such streams. */
  lemma BadDistanceExactly(input: seq<byte>, capacity: nat)
    requires IsCoded(input)
    ensures Decompress(input, capacity).BadDistance? <==>
      exists tokens, t :: ReachesTooFar(input, capacity, tokens, t)
  {
    hide Decoded, DecodeRun, ReadLiteral, Follows, Script, WellFormed, Expand, Writable;
    if capacity > 0 {
      var course := Decoded(input, capacity);
      OutcomeExactly(input, capacity, course.tokens, course.last);
      if Decompress(input, capacity).BadDistance? {
        WritesDistance(course.last);
        assert ReachesTooFar(input, capacity, course.tokens, course.last.token);
      }
    }
    forall tokens, t | ReachesTooFar(input, capacity, tokens, t)
      ensures Decompress(input, capacity).BadDistance?
    {
      Nonempty(tokens);
      OutcomeExactly(input, capacity, tokens, Read(t));
    }
  }

  lemma WritesDistance(r: Reading)
    requires Writes(r)
    ensures r.Read? && r.token.Copy? ==> r.token.distance >= 1
  {
  }

  lemma Nonempty(tokens: seq<Token>)
    requires StartsWithLiteral(tokens) && WellFormed([], tokens)
    ensures |Expand([], tokens)| >= 1
  {
    ExpandGrows([], tokens);
  }

  /** There are such streams for every beginning and every copy that is too far for it. */
  lemma BadDistanceHappens(header: byte, tokens: seq<Token>, t: Token, capacity: nat) returns (stream: seq<byte>)
    requires header < 0x80 && Scripted(tokens, Read(t)) && |Expand([], tokens)| <= capacity && TooFar(tokens, t)
    ensures IsCoded(stream) && Decompress(stream, capacity).BadDistance?
  {
    hide Decompress, FollowsScript;
    stream := StreamExists(header, tokens, Read(t), capacity);
  }

  /** The shortest: one byte, and a copy from the byte before it. */
  lemma BadDistanceStream(capacity: nat) returns (stream: seq<byte>)
    requires capacity > 0
    ensures IsCoded(stream) && Decompress(stream, capacity).BadDistance?
  {
    hide Decompress;
    assert Log2(2) == 1 && Pow2(3) == 8;
    assert Expand([], [Literal(0)]) == [0];
    stream := BadDistanceHappens(0, [Literal(0)], Copy(2, 2), capacity);
  }

  // ----- which contents can be encoded

  function Literals(data: seq<byte>): seq<Token> {
    seq(|data|, i requires 0 <= i < |data| => Literal(data[i]))
  }

  lemma {:induction false} LiteralsExpand(out: seq<byte>, data: seq<byte>)
    ensures WellFormed(out, Literals(data)) && Expand(out, Literals(data)) == out + data
    decreases |data|
  {
    if data == [] {
      assert out + data == out;
    } else {
      assert Literals(data)[1..] == Literals(data[1..]);
      assert out + data == out + [data[0]] + data[1..];
      LiteralsExpand(out + [data[0]], data[1..]);
    }
  }

  /** Every non-empty content has a stream that decodes to it into a buffer of exactly its size. */
  lemma ContentEncodable(header: byte, data: seq<byte>) returns (stream: seq<byte>)
    requires header < 0x80 && data != []
    ensures IsCoded(stream) && ByteAt(stream, 0) == header
    ensures Decompress(stream, |data|) == Done(data, |stream|)
  {
    var tokens := Literals(data);
    LiteralsExpand([], data);
    assert [] + data == data;
    stream := StreamExists(header, tokens, EndMark, |data|);
  }

  /** No coded stream decodes to the empty content: even an end mark comes after a literal. */
  lemma CodedIsNotEmpty(input: seq<byte>, capacity: nat)
    requires IsCoded(input)
    ensures Decompress(input, capacity).Done? ==> 1 <= |Decompress(input, capacity).out| <= capacity
  {
    if capacity > 0 {
      var header := ByteAt(input, 0);
      var (c, b) := ReadLiteral(Start(header, FirstCode(input)), input, header % 8, 0, 0);
      RunFits(c, input, header % 8, capacity, 0, [b]);
    }
  }

  lemma StoredRoundTrip(data: seq<byte>)
    requires |data| < 0x1_0000_0000
    ensures var stream := [0x80] + Digits(|data|, 4) + data;
      !IsCoded(stream) && DecompressStream(stream, |data|) == Done(data, |stream|)
  {
    var ds := Digits(|data|, 4);
    var stream := [0x80] + ds + data;
    assert Pow256(4) == 0x1_0000_0000;
    DigitsRoundTrip(|data|, 4);
    assert ds == [ByteAt(stream, 1), ByteAt(stream, 2), ByteAt(stream, 3), ByteAt(stream, 4)];
    assert StoredBytes(stream, |data|) == data;
  }

  /** Every content has a stream; only the empty one needs a stored block. */
  lemma EveryContentEncodable(data: seq<byte>) returns (stream: seq<byte>)
    ensures DecompressStream(stream, |data|) == Done(data, |stream|)
    ensures IsCoded(stream) <==> data != []
  {
    if data == [] {
      stream := [0x80] + Digits(0, 4) + data;
      StoredRoundTrip(data);
    } else {
      stream := ContentEncodable(0, data);
    }
  }

  /**
   A copy continues its source: each new byte repeats the one `distance` before
   it, also where that one is itself new. This determines the copy.
   */
  lemma {:induction false} CopyRepeats(out: seq<byte>, count: nat, distance: nat, r: seq<byte>)
    requires 1 <= distance <= |out|
    ensures r == CopyBytes(out, count, distance)
      <==> |r| == |out| + count && r[..|out|] == out && forall i :: |out| <= i < |r| ==> r[i] == r[i - distance]
    decreases count
  {
    if count > 0 {
      var next := out + [out[|out| - distance]];
      CopyRepeats(next, count - 1, distance, r);
      if |r| == |out| + count {
        assert r[..|out| + 1] == r[..|out|] + [r[|out|]];
      }
      if |r| == |out| + count && r[..|out|] == out {
        assert r[|out| - distance] == out[|out| - distance];
      }
    }
  }

  // ----- the capacity of the buffer

  lemma {:induction false} RunFits(c: Coder, input: seq<byte>, shift: nat, capacity: nat, history: nat, out: seq<byte>)
    requires history < 8 && 1 <= |out| <= capacity
    ensures DecodeRun(shift, capacity, c, input, history, out).Done? ==>
      |out| <= |DecodeRun(shift, capacity, c, input, history, out).out| <= capacity
    decreases capacity - |out|
  {
    var (c', reading) := ReadToken(c, input, shift, history, out[|out| - 1], |out|);
    if reading.Read? && InReach(|out|, reading.token) && |out| + SizeOf(reading.token) <= capacity {
      RunFits(c', input, shift, capacity, HistoryAfter(history, reading.token), ExpandToken(out, reading.token));
    }
  }

  lemma {:induction false} RunCapacity(
    c: Coder, input: seq<byte>, shift: nat, small: nat, large: nat, history: nat, out: seq<byte>)
    requires history < 8 && 1 <= |out| <= small <= large
    ensures DecodeRun(shift, large, c, input, history, out).Done? ==>
      DecodeRun(shift, small, c, input, history, out)
      == (if |DecodeRun(shift, large, c, input, history, out).out| <= small
          then DecodeRun(shift, large, c, input, history, out) else NoSpace)
    ensures !DecodeRun(shift, small, c, input, history, out).NoSpace? ==>
      DecodeRun(shift, small, c, input, history, out) == DecodeRun(shift, large, c, input, history, out)
    decreases small - |out|
  {
    var (c', reading) := ReadToken(c, input, shift, history, out[|out| - 1], |out|);
    if reading.Read? && InReach(|out|, reading.token) {
      var t := reading.token;
      if |out| + SizeOf(t) <= small {
        RunCapacity(c', input, shift, small, large, HistoryAfter(history, t), ExpandToken(out, t));
      } else if |out| + SizeOf(t) <= large {
        RunFits(c', input, shift, large, HistoryAfter(history, t), ExpandToken(out, t));
      }
    }
  }

  /**
   A larger buffer never changes an answer, and a buffer that is too small for a
   successful one is reported as such.
   */
  lemma CapacityIndependence(input: seq<byte>, small: nat, large: nat)
    requires IsCoded(input) && small <= large
    ensures !Decompress(input, small).NoSpace? ==> Decompress(input, small) == Decompress(input, large)
    ensures Decompress(input, large).Done? ==>
      Decompress(input, small) == if |Decompress(input, large).out| <= small then Decompress(input, large) else NoSpace
  {
    if small > 0 {
      var header := ByteAt(input, 0);
      var (c, b) := ReadLiteral(Start(header, FirstCode(input)), input, header % 8, 0, 0);
      RunCapacity(c, input, header % 8, small, large, 0, [b]);
      RunFits(c, input, header % 8, small, 0, [b]);
    } else if large > 0 {
      var header := ByteAt(input, 0);
      var (c, b) := ReadLiteral(Start(header, FirstCode(input)), input, header % 8, 0, 0);
      RunFits(c, input, header % 8, large, 0, [b]);
    }
  }

  /** The same for streams of both kinds. */
  lemma StreamCapacity(input: seq<byte>, small: nat, large: nat)
    requires small <= large
    ensures !DecompressStream(input, small).NoSpace? ==>
      DecompressStream(input, small) == DecompressStream(input, large)
    ensures DecompressStream(input, large).Done? ==>
      DecompressStream(input, small)
      == if |DecompressStream(input, large).out| <= small then DecompressStream(input, large) else NoSpace
  {
    if IsCoded(input) {
      CapacityIndependence(input, small, large);
    }
  }
}
