/**
 The pass over decompressed ARM code that turns absolute branch targets and
 rearranged MOVT immediates back into Thumb instructions, or the other way.

 Instructions are pairs of little-endian halfwords. The masks of the original
 select whole fields of the halfwords, which are written here as quotients and
 remainders; `ArzlMasks` relates them to the masks.
 */
module ArzlPostPass {
  import opened Machine

  type half = x: int | 0 <= x < 0x1_0000

  /** Whether offsets are added or subtracted, and whether MOVT immediates are rearranged. */
  datatype Pass = Pass(add: bool, movt: bool)

  function PassOf(version: int): Pass {
    if version == 2 then Pass(false, true)
    else if version == 1 then Pass(true, false)
    else Pass(false, false)
  }

  function Opposite(p: Pass): Pass {
    p.(add := !p.add)
  }

  function HalfAt(s: seq<byte>, i: nat): half
    requires i + 1 < |s|
  {
    s[i] + 0x100 * (s[i + 1] as int)
  }

  function HalfBytes(h: half): seq<byte> {
    [h % 0x100, h / 0x100]
  }

  /** The two halves of a Thumb BL. */
  predicate IsBranch(h0: half, h1: half) {
    h0 / 0x800 == 0x1E && h1 / 0x800 == 0x1F
  }

  predicate IsMovt(h0: half, h1: half) {
    h0 / 0x800 == 0x1E && (h0 % 0x400) / 0x10 == 0x2C && h1 < 0x8000
  }

  /** The second half may be the first half of an instruction itself. */
  predicate MayStartNext(h1: half) {
    h1 / 0x800 == 0x1E
  }

  function BranchTarget(h0: half, h1: half): nat {
    (h0 % 0x800) * 0x800 + h1 % 0x800
  }

  /** A branch with its 22-bit target moved by the offset of the next instruction, in halfwords. */
  function MoveBranch(p: Pass, h0: half, h1: half, next: nat): (half, half) {
    var target := (BranchTarget(h0, h1) + (if p.add then next / 2 else -(next / 2))) % 0x40_0000;
    (0xF000 + target / 0x800, 0xF800 + target % 0x800)
  }

  /** A MOVT with its condition-like nibble and its first immediate nibble exchanged. */
  function SwapNibbles(h0: half, h1: half): (half, half) {
    var n0, n1 := h0 % 0x10, (h1 / 0x100) % 0x10;
    (h0 - n0 + n1, h1 - 0x100 * n1 + 0x100 * n0)
  }

  predicate Rewrites(p: Pass, h0: half, h1: half) {
    IsBranch(h0, h1) || (p.movt && IsMovt(h0, h1))
  }

  function Rewrite(p: Pass, h0: half, h1: half, next: nat): (half, half)
    requires Rewrites(p, h0, h1)
  {
    if IsBranch(h0, h1) then MoveBranch(p, h0, h1, next) else SwapNibbles(h0, h1)
  }

  /** The pass over the bytes from position `pos` on; the last three are never the start of an instruction. */
  function Run(p: Pass, s: seq<byte>, pos: nat): (r: seq<byte>)
    ensures |r| == |s|
    decreases |s|
  {
    if |s| < 4 then s
    else
      var h0, h1 := HalfAt(s, 0), HalfAt(s, 2);
      if Rewrites(p, h0, h1) then
        var (r0, r1) := Rewrite(p, h0, h1, pos + 4);
        HalfBytes(r0) + HalfBytes(r1) + Run(p, s[4..], pos + 4)
      else if MayStartNext(h1) then
        s[..2] + Run(p, s[2..], pos + 2)
      else
        s[..4] + Run(p, s[4..], pos + 4)
  }

  // ----- rewriting one instruction

  lemma ModAddSub(x: nat, k: int, m: nat)
    requires x < m
    ensures ((x + k) % m - k) % m == x
  {
    var q := (x + k) / m;
    assert (x + k) % m - k == x + (-q) * m;
    ModOfMultiple(x, -q, m);
  }

  lemma BranchInverts(p: Pass, h0: half, h1: half, next: nat)
    requires IsBranch(h0, h1)
    ensures var (r0, r1) := MoveBranch(p, h0, h1, next);
      IsBranch(r0, r1) && MoveBranch(Opposite(p), r0, r1, next) == (h0, h1)
  {
    var (r0, r1) := MoveBranch(p, h0, h1, next);
    var t, k := BranchTarget(h0, h1), if p.add then next / 2 else -(next / 2);
    var moved := (t + k) % 0x40_0000;
    TargetFields(moved);
    TargetFields(t);
    ModAddSub(t, k, 0x40_0000);
    assert BranchTarget(r0, r1) == moved;
    assert h0 == 0xF000 + t / 0x800 && h1 == 0xF800 + t % 0x800;
  }

  /** A 22-bit target and the two eleven-bit fields that hold it. */
  lemma TargetFields(t: nat)
    requires t < 0x40_0000
    ensures t / 0x800 < 0x800 && (t / 0x800) * 0x800 + t % 0x800 == t
    ensures (0xF000 + t / 0x800) % 0x800 == t / 0x800 && (0xF000 + t / 0x800) / 0x800 == 0x1E
    ensures (0xF800 + t % 0x800) % 0x800 == t % 0x800 && (0xF800 + t % 0x800) / 0x800 == 0x1F
  {
  }

  lemma LowNibble(a: nat, n: nat)
    requires n < 0x10
    ensures (0x10 * a + n) % 0x10 == n && (0x10 * a + n) / 0x10 == a
    ensures (0x10 * a + n) / 0x800 == a / 0x80 && ((0x10 * a + n) % 0x400) / 0x10 == a % 0x40
  {
    var x, q, r, q', r' := 0x10 * a + n, a / 0x80, a % 0x80, a / 0x40, a % 0x40;
    assert x == 0x800 * q + (0x10 * r + n) && 0x10 * r + n < 0x800;
    assert x == 0x400 * q' + (0x10 * r' + n) && 0x10 * r' + n < 0x400;
    assert x % 0x400 == 0x10 * r' + n;
  }

  lemma ThirdNibble(b: nat, n: nat, c: nat)
    requires n < 0x10 && c < 0x100
    ensures ((0x1000 * b + 0x100 * n + c) / 0x100) % 0x10 == n
  {
    assert (0x1000 * b + 0x100 * n + c) / 0x100 == 0x10 * b + n;
  }

  lemma NibblesInvert(h0: half, h1: half)
    requires IsMovt(h0, h1)
    ensures var (r0, r1) := SwapNibbles(h0, h1); IsMovt(r0, r1) && SwapNibbles(r0, r1) == (h0, h1)
    ensures SwapNibbles(h0, h1).0 / 0x800 == h0 / 0x800
  {
    var n0, n1 := h0 % 0x10, (h1 / 0x100) % 0x10;
    var a, b, c := h0 / 0x10, h1 / 0x1000, h1 % 0x100;
    LowNibble(a, n0);
    LowNibble(a, n1);
    assert h1 == 0x1000 * b + 0x100 * n1 + c;
    ThirdNibble(b, n0, c);
  }

  /** A rewritten instruction is of the same kind, and the opposite pass restores it. */
  lemma RewriteInverts(p: Pass, h0: half, h1: half, next: nat)
    requires Rewrites(p, h0, h1)
    ensures var (r0, r1) := Rewrite(p, h0, h1, next);
      Rewrites(Opposite(p), r0, r1) && Rewrite(Opposite(p), r0, r1, next) == (h0, h1)
      && r0 / 0x800 == h0 / 0x800
  {
    if IsBranch(h0, h1) {
      BranchInverts(p, h0, h1, next);
    } else {
      NibblesInvert(h0, h1);
    }
  }

  // ----- the whole pass

  lemma HalvesAt(r0: half, r1: half, rest: seq<byte>)
    ensures var r := HalfBytes(r0) + HalfBytes(r1) + rest;
      HalfAt(r, 0) == r0 && HalfAt(r, 2) == r1 && r[4..] == rest
  {
  }

  lemma BytesOfHalf(s: seq<byte>, i: nat)
    requires i + 1 < |s|
    ensures HalfBytes(HalfAt(s, i)) == s[i..i + 2]
  {
  }

  /** What decides the stride at an earlier position is not changed by rewriting here. */
  lemma FirstHalfKind(p: Pass, s: seq<byte>, pos: nat)
    requires |s| >= 2
    ensures HalfAt(Run(p, s, pos), 0) / 0x800 == HalfAt(s, 0) / 0x800
  {
    if |s| >= 4 {
      var h0, h1 := HalfAt(s, 0), HalfAt(s, 2);
      if Rewrites(p, h0, h1) {
        var (r0, r1) := Rewrite(p, h0, h1, pos + 4);
        RewriteInverts(p, h0, h1, pos + 4);
        HalvesAt(r0, r1, Run(p, s[4..], pos + 4));
      }
    }
  }

  /**
   The opposite pass undoes the pass on every buffer. It visits the same
   positions: rewriting never changes whether a halfword starts an instruction.
   */
  lemma {:induction false} PassInverts(p: Pass, s: seq<byte>, pos: nat)
    ensures Run(Opposite(p), Run(p, s, pos), pos) == s
    decreases |s|
  {
    if |s| >= 4 {
      var h0, h1 := HalfAt(s, 0), HalfAt(s, 2);
      var r := Run(p, s, pos);
      if Rewrites(p, h0, h1) {
        var (r0, r1) := Rewrite(p, h0, h1, pos + 4);
        RewriteInverts(p, h0, h1, pos + 4);
        HalvesAt(r0, r1, Run(p, s[4..], pos + 4));
        PassInverts(p, s[4..], pos + 4);
        BytesOfHalf(s, 0);
        BytesOfHalf(s, 2);
        assert s == s[0..2] + s[2..4] + s[4..];
      } else if MayStartNext(h1) {
        var rest := Run(p, s[2..], pos + 2);
        FirstHalfKind(p, s[2..], pos + 2);
        PassInverts(p, s[2..], pos + 2);
        assert HalfAt(r, 0) == h0 && HalfAt(r, 2) == HalfAt(rest, 0);
        assert r[2..] == rest && r[..2] == s[..2];
        assert s == s[..2] + s[2..];
      } else {
        var rest := Run(p, s[4..], pos + 4);
        PassInverts(p, s[4..], pos + 4);
        assert HalfAt(r, 0) == h0 && HalfAt(r, 2) == h1;
        assert r[4..] == rest && r[..4] == s[..4];
        assert s == s[..4] + s[4..];
      }
    }
  }

  /** Versions 0 and 1 undo each other; version 2 has a two-sided inverse. */
  lemma VersionsInvert(s: seq<byte>)
    ensures Run(PassOf(0), Run(PassOf(1), s, 0), 0) == s
    ensures Run(PassOf(1), Run(PassOf(0), s, 0), 0) == s
    ensures Run(PassOf(2), Run(Opposite(PassOf(2)), s, 0), 0) == s
    ensures Run(Opposite(PassOf(2)), Run(PassOf(2), s, 0), 0) == s
  {
    PassInverts(PassOf(0), s, 0);
    PassInverts(PassOf(1), s, 0);
    PassInverts(PassOf(2), s, 0);
    PassInverts(Opposite(PassOf(2)), s, 0);
  }

  // ----- what each version does, word by word

  /** How far the pass goes on from a word with this second half. */
  function Stride(h1: half): nat {
    if MayStartNext(h1) then 2 else 4
  }

  /** The pass looks at the word at `k`. */
  predicate Visited(s: seq<byte>, k: nat)
    decreases |s|
  {
    |s| >= 4 && (k == 0 || (k >= Stride(HalfAt(s, 2)) && Visited(s[Stride(HalfAt(s, 2))..], k - Stride(HalfAt(s, 2)))))
  }

  lemma {:induction false} VisitedInside(s: seq<byte>, k: nat)
    requires Visited(s, k)
    ensures k + 4 <= |s|
    decreases |s|
  {
    if k > 0 {
      VisitedInside(s[Stride(HalfAt(s, 2))..], k - Stride(HalfAt(s, 2)));
    }
  }

  /**
   The word `r0 r1` is what the version makes of `h0 h1` when the next word is at
   `next`. Version 1 adds the offset, in halfwords, to the target of a branch;
   versions 2 and 0, for which any other number stands too, take it off again.
   Version 2 exchanges the two nibbles of a MOVT.
   */
  predicate Made(version: int, next: nat, h0: half, h1: half, r0: half, r1: half) {
    if IsBranch(h0, h1) then
      IsBranch(r0, r1)
      && if version == 1 then BranchTarget(r0, r1) == (BranchTarget(h0, h1) + next / 2) % 0x40_0000
         else (BranchTarget(r0, r1) + next / 2) % 0x40_0000 == BranchTarget(h0, h1)
    else if version == 2 && IsMovt(h0, h1) then
      && r0 / 0x10 == h0 / 0x10 && r0 % 0x10 == (h1 / 0x100) % 0x10
      && r1 / 0x1000 == h1 / 0x1000 && (r1 / 0x100) % 0x10 == h0 % 0x10 && r1 % 0x100 == h1 % 0x100
    else
      r0 == h0 && (!MayStartNext(h1) ==> r1 == h1)
  }

  predicate MadeAt(version: int, s: seq<byte>, r: seq<byte>, pos: nat, k: nat)
    requires k + 4 <= |s| == |r|
  {
    Made(version, pos + k + 4, HalfAt(s, k), HalfAt(s, k + 2), HalfAt(r, k), HalfAt(r, k + 2))
  }

  /** Byte `i` belongs to no word that the pass looks at, other than one it goes on from after two bytes. */
  ghost predicate Passed(s: seq<byte>, i: nat) {
    forall k: nat :: Visited(s, k) && k + 4 <= |s| ==> !(k <= i < k + Stride(HalfAt(s, k + 2)))
  }

  /** The buffer `r` is what the version makes of `s`, of which the first byte is at `pos`. */
  ghost predicate MadeFrom(version: int, s: seq<byte>, r: seq<byte>, pos: nat) {
    && |r| == |s|
    && (forall k: nat :: Visited(s, k) && k + 4 <= |s| ==> MadeAt(version, s, r, pos, k))
    && (forall i :: 0 <= i < |s| && Passed(s, i) ==> r[i] == s[i])
  }

  lemma BranchMade(version: int, h0: half, h1: half, next: nat)
    requires IsBranch(h0, h1)
    ensures var (r0, r1) := MoveBranch(PassOf(version), h0, h1, next); Made(version, next, h0, h1, r0, r1)
  {
    var p := PassOf(version);
    var (r0, r1) := MoveBranch(p, h0, h1, next);
    var t, k := BranchTarget(h0, h1), if p.add then next / 2 else -(next / 2);
    var moved := (t + k) % 0x40_0000;
    TargetFields(moved);
    ModAddSub(t, k, 0x40_0000);
    assert BranchTarget(r0, r1) == moved;
  }

  lemma NibblesMade(h0: half, h1: half)
    ensures var (r0, r1) := SwapNibbles(h0, h1);
      && r0 / 0x10 == h0 / 0x10 && r0 % 0x10 == (h1 / 0x100) % 0x10
      && r1 / 0x1000 == h1 / 0x1000 && (r1 / 0x100) % 0x10 == h0 % 0x10 && r1 % 0x100 == h1 % 0x100
  {
    var n0, n1 := h0 % 0x10, (h1 / 0x100) % 0x10;
    var a, b, c := h0 / 0x10, h1 / 0x1000, h1 % 0x100;
    LowNibble(a, n1);
    assert h1 == 0x1000 * b + 0x100 * n1 + c;
    ThirdNibble(b, n0, c);
  }

  lemma WordMade(version: int, h0: half, h1: half, next: nat)
    ensures var p := PassOf(version);
      Rewrites(p, h0, h1) ==>
        var (r0, r1) := Rewrite(p, h0, h1, next); Made(version, next, h0, h1, r0, r1) && !MayStartNext(h1)
    ensures !Rewrites(PassOf(version), h0, h1) ==>
      Made(version, next, h0, h1, h0, h1)
      && forall r1: half :: MayStartNext(h1) ==> Made(version, next, h0, h1, h0, r1)
  {
    hide MoveBranch, SwapNibbles, BranchTarget;
    if IsBranch(h0, h1) {
      BranchMade(version, h0, h1, next);
    } else {
      NibblesMade(h0, h1);
    }
  }

  lemma FirstMade(version: int, s: seq<byte>, pos: nat)
    requires |s| >= 4
    ensures MadeAt(version, s, Run(PassOf(version), s, pos), pos, 0)
    ensures var n := Stride(HalfAt(s, 2)); Run(PassOf(version), s, pos)[n..] == Run(PassOf(version), s[n..], pos + n)
  {
    hide Made, Rewrites, Rewrite, PassOf;
    var p, h0, h1 := PassOf(version), HalfAt(s, 0), HalfAt(s, 2);
    var r := Run(p, s, pos);
    WordMade(version, h0, h1, pos + 4);
    if Rewrites(p, h0, h1) {
      var (r0, r1) := Rewrite(p, h0, h1, pos + 4);
      HalvesAt(r0, r1, Run(p, s[4..], pos + 4));
    } else if MayStartNext(h1) {
      assert r == s[..2] + Run(p, s[2..], pos + 2);
      assert HalfAt(r, 0) == h0 && r[2..] == Run(p, s[2..], pos + 2);
    } else {
      assert r == s[..4] + Run(p, s[4..], pos + 4);
      assert HalfAt(r, 0) == h0 && HalfAt(r, 2) == h1 && r[4..] == Run(p, s[4..], pos + 4);
    }
  }

  lemma HalfAfter(s: seq<byte>, n: nat, i: nat)
    requires n + i + 1 < |s|
    ensures HalfAt(s[n..], i) == HalfAt(s, n + i)
  {
  }

  lemma NextMade(version: int, s: seq<byte>, r: seq<byte>, pos: nat, n: nat, k: nat)
    requires |s| == |r| && n <= k && k + 4 <= |s| && MadeAt(version, s[n..], r[n..], pos + n, k - n)
    ensures MadeAt(version, s, r, pos, k)
  {
    hide Made;
    HalfAfter(s, n, k - n);
    HalfAfter(s, n, k - n + 2);
    HalfAfter(r, n, k - n);
    HalfAfter(r, n, k - n + 2);
  }

  lemma PassedAfter(s: seq<byte>, i: nat)
    requires |s| >= 4 && Passed(s, i)
    ensures var n := Stride(HalfAt(s, 2)); n <= i && Passed(s[n..], i - n)
  {
    hide HalfAt;
    var n := Stride(HalfAt(s, 2));
    assert Visited(s, 0);
    forall k: nat | Visited(s[n..], k) && k + 4 <= |s[n..]|
      ensures !(k <= i - n < k + Stride(HalfAt(s[n..], k + 2)))
    {
      assert Visited(s, k + n);
      assert HalfAt(s[n..], k + 2) == HalfAt(s, k + n + 2) by {
        HalfAfter(s, n, k + 2);
      }
    }
  }

  /** The pass does what its version is for, and only that. */
  lemma {:induction false} RunMakes(version: int, s: seq<byte>, pos: nat)
    ensures MadeFrom(version, s, Run(PassOf(version), s, pos), pos)
    decreases |s|
  {
    hide PassOf, Run, Passed, MadeAt, HalfAt;
    var r := Run(PassOf(version), s, pos);
    if |s| >= 4 {
      var n := Stride(HalfAt(s, 2));
      FirstMade(version, s, pos);
      RunMakes(version, s[n..], pos + n);
      forall k: nat | Visited(s, k) && k + 4 <= |s|
        ensures MadeAt(version, s, r, pos, k)
      {
        if k > 0 {
          NextMade(version, s, r, pos, n, k);
        }
      }
      forall i | 0 <= i < |s| && Passed(s, i)
        ensures r[i] == s[i]
      {
        PassedAfter(s, i);
        assert r[i] == r[n..][i - n] && s[i] == s[n..][i - n];
      }
    } else {
      RestIsShort(PassOf(version), s, pos);
    }
  }

  lemma SameResidue(t: nat, t': nat, k: int, m: nat)
    requires t < m && t' < m && (t + k) % m == (t' + k) % m
    ensures t == t'
  {
    ModAddSub(t, k, m);
    ModAddSub(t', k, m);
  }

  lemma BranchFields(h0: half, h1: half)
    requires IsBranch(h0, h1)
    ensures var t := BranchTarget(h0, h1); t < 0x40_0000 && h0 == 0xF000 + t / 0x800 && h1 == 0xF800 + t % 0x800
  {
  }

  lemma HalfParts(r: half)
    ensures r == 0x10 * (r / 0x10) + r % 0x10
    ensures r == 0x1000 * (r / 0x1000) + 0x100 * ((r / 0x100) % 0x10) + r % 0x100
  {
    var q := r / 0x100;
    assert q / 0x10 == r / 0x1000 && q == 0x10 * (q / 0x10) + q % 0x10;
  }

  lemma NibblesDetermined(r0: half, r1: half, q0: half, q1: half)
    requires r0 / 0x10 == q0 / 0x10 && r0 % 0x10 == q0 % 0x10
    requires r1 / 0x1000 == q1 / 0x1000 && (r1 / 0x100) % 0x10 == (q1 / 0x100) % 0x10 && r1 % 0x100 == q1 % 0x100
    ensures r0 == q0 && r1 == q1
  {
    HalfParts(r0);
    HalfParts(q0);
    HalfParts(r1);
    HalfParts(q1);
  }

  lemma BranchDetermined(version: int, next: nat, h0: half, h1: half, r0: half, r1: half, q0: half, q1: half)
    requires Made(version, next, h0, h1, r0, r1) && Made(version, next, h0, h1, q0, q1) && IsBranch(h0, h1)
    ensures r0 == q0 && r1 == q1
  {
    hide IsBranch, BranchTarget;
    BranchFields(r0, r1);
    BranchFields(q0, q1);
    if version != 1 {
      SameResidue(BranchTarget(r0, r1), BranchTarget(q0, q1), next / 2, 0x40_0000);
    }
  }

  lemma WordDetermined(version: int, next: nat, h0: half, h1: half, r0: half, r1: half, q0: half, q1: half)
    requires Made(version, next, h0, h1, r0, r1) && Made(version, next, h0, h1, q0, q1)
    ensures r0 == q0 && (!MayStartNext(h1) ==> r1 == q1)
  {
    hide IsBranch, BranchTarget, IsMovt, MayStartNext;
    if IsBranch(h0, h1) {
      BranchDetermined(version, next, h0, h1, r0, r1, q0, q1);
    } else if version == 2 && IsMovt(h0, h1) {
      NibblesDetermined(r0, r1, q0, q1);
    }
  }

  lemma BytesFromHalves(r: seq<byte>, q: seq<byte>, i: nat)
    requires i + 1 < |r| == |q| && HalfAt(r, i) == HalfAt(q, i)
    ensures r[i] == q[i] && r[i + 1] == q[i + 1]
  {
  }

  /** Nothing else would do: the version's results are determined by what it is for. */
  lemma OneResult(version: int, s: seq<byte>, r: seq<byte>, q: seq<byte>, pos: nat)
    requires MadeFrom(version, s, r, pos) && MadeFrom(version, s, q, pos)
    ensures r == q
  {
    hide HalfAt, Made, MayStartNext;
    forall i: nat | i < |s|
      ensures r[i] == q[i]
    {
      if !Passed(s, i) {
        var k: nat :| Visited(s, k) && k + 4 <= |s| && k <= i < k + Stride(HalfAt(s, k + 2));
        assert MadeAt(version, s, r, pos, k) && MadeAt(version, s, q, pos, k);
        WordDetermined(version, pos + k + 4, HalfAt(s, k), HalfAt(s, k + 2),
                       HalfAt(r, k), HalfAt(r, k + 2), HalfAt(q, k), HalfAt(q, k + 2));
        BytesFromHalves(r, q, k);
        if i >= k + 2 {
          BytesFromHalves(r, q, k + 2);
        }
      }
    }
  }

  // ----- the pass in place

  method PutHalves(buffer: array<byte>, pos: nat, r0: half, r1: half)
    requires pos + 4 <= buffer.Length
    modifies buffer
    ensures buffer[..pos + 4] == old(buffer[..pos]) + (HalfBytes(r0) + HalfBytes(r1))
    ensures forall i :: pos + 4 <= i < buffer.Length ==> buffer[i] == old(buffer[i])
  {
    buffer[pos] := r0 % 0x100;
    buffer[pos + 1] := r0 / 0x100;
    buffer[pos + 2] := r1 % 0x100;
    buffer[pos + 3] := r1 / 0x100;
  }

  /** The cases of a turn. */
  lemma RunTurn(p: Pass, s: seq<byte>, pos: nat, h0: half, h1: half)
    requires |s| >= 4 && h0 == HalfAt(s, 0) && h1 == HalfAt(s, 2)
    ensures Rewrites(p, h0, h1) ==>
      var (r0, r1) := Rewrite(p, h0, h1, pos + 4);
      Run(p, s, pos) == HalfBytes(r0) + HalfBytes(r1) + Run(p, s[4..], pos + 4)
    ensures !Rewrites(p, h0, h1) ==>
      Run(p, s, pos) ==
      if MayStartNext(h1) then s[..2] + Run(p, s[2..], pos + 2) else s[..4] + Run(p, s[4..], pos + 4)
  {
    hide Rewrites, Rewrite, MayStartNext, HalfAt;
  }

  /** One turn of the loop: rewrites at most the word at `pos` and moves on. */
  method Turn(p: Pass, buffer: array<byte>, pos: nat, ghost end: nat) returns (pos': nat)
    requires pos + 4 <= end <= buffer.Length
    modifies buffer
    ensures pos < pos' <= end
    ensures buffer[..pos'] + Run(p, buffer[pos'..end], pos') == old(buffer[..pos]) + Run(p, old(buffer[pos..end]), pos)
    ensures forall i :: end <= i < buffer.Length ==> buffer[i] == old(buffer[i])
  {
    hide Rewrites, Rewrite, MayStartNext, Run;
    ghost var before, rest := buffer[..pos], buffer[pos..end];
    var h0: half := buffer[pos] + 0x100 * (buffer[pos + 1] as int);
    var h1: half := buffer[pos + 2] + 0x100 * (buffer[pos + 3] as int);
    assert h0 == HalfAt(rest, 0) && h1 == HalfAt(rest, 2);
    hide HalfAt, HalfBytes;
    RunTurn(p, rest, pos, h0, h1);
    if Rewrites(p, h0, h1) {
      var (r0, r1) := Rewrite(p, h0, h1, pos + 4);
      PutHalves(buffer, pos, r0, r1);
      pos' := pos + 4;
      assert buffer[pos'..end] == rest[4..];
    } else if MayStartNext(h1) {
      pos' := pos + 2;
      assert buffer[pos'..end] == rest[2..] && buffer[..pos'] == before + rest[..2];
    } else {
      pos' := pos + 4;
      assert buffer[pos'..end] == rest[4..] && buffer[..pos'] == before + rest[..4];
    }
  }

  /** The loop makes a first turn even for a negative length, and none for an empty buffer. */
  function PassLength(len: int): nat {
    if len < 0 then 1 else len
  }

  /** Rewrites `buffer` in place; three bytes after `len` may be read and written. */
  method Deobfuscate(buffer: array<byte>, len: int, version: int)
    requires PassLength(len) + 3 <= buffer.Length
    modifies buffer
    ensures buffer[..PassLength(len) + 3] == Run(PassOf(version), old(buffer[..PassLength(len) + 3]), 0)
    ensures MadeFrom(version, old(buffer[..PassLength(len) + 3]), buffer[..PassLength(len) + 3], 0)
    ensures forall i :: PassLength(len) + 3 <= i < buffer.Length ==> buffer[i] == old(buffer[i])
  {
    hide Run, PassOf, MadeFrom;
    RunMakes(version, buffer[..PassLength(len) + 3], 0);
    var p, pos: nat := PassOf(version), 0;
    ghost var end := PassLength(len) + 3;
    ghost var target := Run(p, buffer[..end], 0);
    assert buffer[0..end] == buffer[..end] && buffer[..0] == [] && [] + target == target;
    while pos < PassLength(len)
      invariant pos <= end
      invariant buffer[..pos] + Run(p, buffer[pos..end], pos) == target
      invariant forall i :: end <= i < buffer.Length ==> buffer[i] == old(buffer[i])
      decreases end - pos
    {
      pos := Turn(p, buffer, pos, end);
    }
    RestIsShort(p, buffer[pos..end], pos);
    assert buffer[..end] == buffer[..pos] + buffer[pos..end];
  }

  lemma RestIsShort(p: Pass, s: seq<byte>, pos: nat)
    requires |s| < 4
    ensures Run(p, s, pos) == s
  {
  }
}
