/** Unpacking an ARZL file: decompression into a growing buffer, then the post-pass. */
module Unarzl {
  import opened Machine
  import opened ArzlFormat
  import opened ArzlTheorems
  import opened ArzlDecoder
  import opened ArzlPostPass

  const SLACK := 3

  /** The stream of a file starts after its four-byte magic. */
  function StreamOf(file: seq<byte>): seq<byte>
    requires |file| >= 4
  {
    file[4..]
  }

  /** What the decompressor returns, as a 32-bit number: a length or an error code. */
  function Returned(status: Status): (code: int)
    requires !status.OutOfTable?
  {
    if status.Failed? then status.code else status.length
  }

  /** A 32-bit number as the post-pass takes it, signed. */
  function Signed(code: int): int {
    if code >= 0x8000_0000 then code - 0x1_0000_0000 else code
  }

  /** The capacity of the `turns`-th attempt, doubled in 32-bit arithmetic each time. */
  function Capacity(size: word, turns: nat): word {
    if turns == 0 then size else (Capacity(size, turns - 1) * 2) % 0x1_0000_0000
  }

  /** The attempt returns something other than the code for want of space, so the loop ends after it. */
  predicate Stops(stream: seq<byte>, capacity: nat) {
    match DecompressStream(stream, capacity)
    case Done(out, _) => |out| != 0x8056_0201
    case NoSpace => false
    case BadDistance => true
    case Undefined => false
  }

  /**
   Doubles the buffer until an attempt returns something other than the code for
   want of space, and rewrites the result in place; `turns` is a number of
   attempts, not necessarily the least, after which the loop ends. The result, three
   bytes after it included, is what version 2 of the post-pass makes of the content
   of the stream. The error code for a bad distance is taken for a length, and for it, as
   for contents of 2^31 bytes and more, the pass makes a single turn.
   */
  method Unpack(file: seq<byte>, size: word, ghost turns: nat) returns (buffer: array<byte>, length: nat)
    requires |file| >= 4 && turns >= 1 && Stops(StreamOf(file), Capacity(size, turns))
    ensures match DecompressStream(StreamOf(file), Capacity(size, turns))
      case Done(out, _) =>
        length == |out| && Unpacked(buffer[..], out)
      case _ => length == 0x8056_0200
  {
    hide DecompressStream, ArzlPostPass.Run, Unpacked;
    ghost var answer := DecompressStream(StreamOf(file), Capacity(size, turns));
    ghost var turn := 1;
    var capacity: word := (size * 2) % 0x1_0000_0000;
    var status;
    var stream := file[4..];
    buffer, status := Attempt(stream, capacity, Capacity(size, turns));
    while Returned(status) == OUT_OF_SPACE
      invariant fresh(buffer) && buffer.Length == capacity + SLACK
      invariant 1 <= turn <= turns && capacity == Capacity(size, turn)
      invariant Answers(answer, status, buffer[..capacity])
        || (status == Failed(OUT_OF_SPACE) && capacity != Capacity(size, turns))
      decreases turns - turn
    {
      turn := turn + 1;
      capacity := (capacity * 2) % 0x1_0000_0000;
      buffer, status := Attempt(stream, capacity, Capacity(size, turns));
    }
    length := Returned(status);
    ghost var before := buffer[..];
    assert buffer[..capacity] == before[..capacity];
    Deobfuscate(buffer, Signed(length), 2);
    if answer.Done? {
      assert before[..length] == before[..capacity][..length];
      PassUnpacks(before, buffer[..], answer.out);
    }
  }

  /** The buffer is what version 2 makes of one that begins with `out`, in as many bytes as the pass goes over. */
  ghost predicate Unpacked(buffer: seq<byte>, out: seq<byte>) {
    var n := PassLength(Signed(|out|)) + SLACK;
    && |out| <= |buffer| && n <= |buffer|
    && (var before := Undone(buffer, n);
        |before| == |buffer| && before[..|out|] == out && before[n..] == buffer[n..]
        && MadeFrom(2, before[..n], buffer[..n], 0))
  }

  lemma PassUnpacks(before: seq<byte>, after: seq<byte>, out: seq<byte>)
    requires var n := PassLength(Signed(|out|)) + SLACK;
      |out| <= |before| == |after| && n <= |before| && before[..|out|] == out
      && after[..n] == ArzlPostPass.Run(PassOf(2), before[..n], 0)
      && forall i :: n <= i < |before| ==> after[i] == before[i]
    ensures Unpacked(after, out)
  {
    hide ArzlPostPass.Run, Undone, MadeFrom, PassOf;
    var n := PassLength(Signed(|out|)) + SLACK;
    UndoesPass(before, after, n);
    assert before[n..] == after[n..];
  }

  /** The answer, in a buffer that has room for a turn of the pass if the answer is not empty. */
  ghost predicate Answers(answer: Outcome, status: Status, bytes: seq<byte>) {
    Reported(answer, status, bytes) && (answer.BadDistance? ==> bytes != [])
  }

  /** One attempt, which gives the answer or runs out of space. */
  method Attempt(stream: seq<byte>, capacity: nat, ghost enough: nat) returns (buffer: array<byte>, status: Status)
    requires Stops(stream, enough)
    ensures fresh(buffer) && buffer.Length == capacity + SLACK
    ensures Answers(DecompressStream(stream, enough), status, buffer[..capacity])
      || (status == Failed(OUT_OF_SPACE) && capacity != enough)
  {
    hide ArzlFormat.Decompress;
    EnoughIsEnough(stream, capacity, enough);
    NeedsRoom(stream, capacity);
    buffer := new byte[capacity + SLACK];
    status := DecompressInto(buffer, capacity, stream);
  }

  lemma NeedsRoom(stream: seq<byte>, capacity: nat)
    ensures DecompressStream(stream, capacity).BadDistance? ==> capacity > 0
  {
  }

  /** The buffer with the post-pass undone on its first `n` bytes. */
  function Undone(buffer: seq<byte>, n: nat): seq<byte>
    requires n <= |buffer|
  {
    ArzlPostPass.Run(Opposite(PassOf(2)), buffer[..n], 0) + buffer[n..]
  }

  lemma UndoesPass(before: seq<byte>, after: seq<byte>, n: nat)
    requires n <= |before| == |after| && after[..n] == ArzlPostPass.Run(PassOf(2), before[..n], 0)
    requires forall i :: n <= i < |before| ==> after[i] == before[i]
    ensures Undone(after, n) == before && MadeFrom(2, before[..n], after[..n], 0)
  {
    hide ArzlPostPass.Run, PassOf, MadeFrom;
    RunMakes(2, before[..n], 0);
    PassInverts(PassOf(2), before[..n], 0);
    assert after[n..] == before[n..];
  }

  /** An attempt gives the answer of the large buffer or runs out of space in a smaller one. */
  lemma EnoughIsEnough(stream: seq<byte>, capacity: nat, enough: nat)
    requires !DecompressStream(stream, enough).NoSpace?
    ensures DecompressStream(stream, capacity) == DecompressStream(stream, enough)
      || (DecompressStream(stream, capacity).NoSpace? && capacity < enough)
  {
    if capacity < enough {
      StreamCapacity(stream, capacity, enough);
    } else {
      StreamCapacity(stream, enough, capacity);
    }
  }

  // ----- when the loop ends

  /** A large enough buffer gives an answer, and the content has fewer than 2^31 bytes. */
  predicate Settled(outcome: Outcome) {
    outcome.BadDistance? || (outcome.Done? && |outcome.out| < 0x8000_0000)
  }

  /** The loop ends, from any size but 0 below 2^31, on every stream that a buffer of at most 2^31 bytes settles. */
  lemma EndsFromAnySize(stream: seq<byte>, size: word, enough: nat) returns (turns: nat)
    requires 0 < size < 0x8000_0000 && enough <= 0x8000_0000 && Settled(DecompressStream(stream, enough))
    ensures turns >= 1 && Stops(stream, Capacity(size, turns))
  {
    hide DecompressStream;
    assert Capacity(size, 0) == size && Capacity(size, 1) == 2 * size;
    turns := EndsFrom(stream, size, enough, 1);
  }

  lemma {:induction false} EndsFrom(stream: seq<byte>, size: word, enough: nat, from: nat) returns (turns: nat)
    requires from >= 1 && Capacity(size, from) > 0
    requires enough <= 0x8000_0000 && Settled(DecompressStream(stream, enough))
    ensures turns >= 1 && Stops(stream, Capacity(size, turns))
    decreases 0x1_0000_0000 - Capacity(size, from)
  {
    hide DecompressStream;
    if Capacity(size, from) >= enough {
      StreamCapacity(stream, enough, Capacity(size, from));
      turns := from;
    } else {
      assert Capacity(size, from + 1) == 2 * Capacity(size, from);
      turns := EndsFrom(stream, size, enough, from + 1);
    }
  }

  lemma {:induction false} ZeroStays(turns: nat)
    ensures Capacity(0, turns) == 0
  {
    if turns > 0 {
      ZeroStays(turns - 1);
    }
  }

  /** From size 0 every attempt has an empty buffer, and the loop ends only for an empty stored block. */
  lemma EndsFromZero(stream: seq<byte>, turns: nat)
    ensures Stops(stream, Capacity(0, turns)) <==> !IsCoded(stream) && FirstCode(stream) == 0
  {
    ZeroStays(turns);
  }
}
