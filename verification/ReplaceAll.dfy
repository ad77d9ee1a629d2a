/** Two ways of replacing every occurrence of one string in another by a third. */
module ReplaceAll {
  import opened Machine

  // ----- what replacing means

  predicate MatchAt(s: string, search: string, i: nat) {
    i + |search| <= |s| && s[i..i + |search|] == search
  }

  /** The first match at or after `from`. */
  function Find(s: string, search: string, from: nat): (r: Option<nat>)
    ensures r.Some? ==> from <= r.value && MatchAt(s, search, r.value)
    ensures r.Some? ==> forall i :: from <= i < r.value ==> !MatchAt(s, search, i)
    ensures r.None? ==> forall i :: from <= i ==> !MatchAt(s, search, i)
    decreases |s| - from
  {
    if from + |search| > |s| then None
    else if MatchAt(s, search, from) then Some(from)
    else Find(s, search, from + 1)
  }

  /** The parts of `s` between matches, taken from the left and not overlapping. */
  function Pieces(s: string, search: string): (pieces: seq<string>)
    requires search != ""
    ensures |pieces| >= 1
    decreases |s|
  {
    match Find(s, search, 0)
    case None => [s]
    case Some(i) => [s[..i]] + Pieces(s[i + |search|..], search)
  }

  function Join(pieces: seq<string>, separator: string): string
    requires |pieces| >= 1
    decreases |pieces|
  {
    if |pieces| == 1 then pieces[0] else pieces[0] + separator + Join(pieces[1..], separator)
  }

  /** Leftmost, non-overlapping replacement. */
  function Replaced(s: string, search: string, replacement: string): string
    requires search != ""
  {
    Join(Pieces(s, search), replacement)
  }

  /** Nothing before the end of the piece matches, even across its border with the separator. */
  predicate Leftmost(piece: string, search: string) {
    forall i :: 0 <= i < |piece| ==> !MatchAt(piece + search, search, i)
  }

  predicate NoMatch(s: string, search: string) {
    forall i :: 0 <= i < |s| ==> !MatchAt(s, search, i)
  }

  predicate IsSplit(pieces: seq<string>, s: string, search: string)
    requires search != ""
  {
    && |pieces| >= 1 && Join(pieces, search) == s
    && (forall k :: 0 <= k < |pieces| - 1 ==> Leftmost(pieces[k], search))
    && NoMatch(pieces[|pieces| - 1], search)
  }

  lemma MatchInPrefix(s: string, search: string, i: nat, t: string)
    requires i + |search| <= |t| <= |s| && s[..|t|] == t
    ensures MatchAt(s, search, i) <==> MatchAt(t, search, i)
  {
    var a, b := s[i..i + |search|], t[i..i + |search|];
    forall k | 0 <= k < |search|
      ensures a[k] == b[k]
    {
      assert a[k] == s[i + k] && b[k] == t[i + k] && s[..|t|][i + k] == s[i + k];
    }
    assert a == b;
  }

  /** The first match of a string that starts with a leftmost piece and a separator. */
  lemma FindAfterPiece(piece: string, search: string, rest: string)
    requires search != "" && Leftmost(piece, search)
    ensures Find(piece + search + rest, search, 0) == Some(|piece|)
  {
    var s, t := piece + search + rest, piece + search;
    assert s[..|t|] == t;
    assert MatchAt(t, search, |piece|);
    MatchInPrefix(s, search, |piece|, t);
    forall i | 0 <= i < |piece|
      ensures !MatchAt(s, search, i)
    {
      MatchInPrefix(s, search, i, t);
    }
  }

  /** There is exactly one way of splitting from the left, and `Pieces` finds it. */
  lemma PiecesUnique(pieces: seq<string>, s: string, search: string)
    requires search != ""
    ensures IsSplit(pieces, s, search) <==> pieces == Pieces(s, search)
  {
    if IsSplit(pieces, s, search) {
      SplitIsPieces(pieces, s, search);
    }
    PiecesSplit(s, search);
  }

  lemma {:induction false} SplitIsPieces(pieces: seq<string>, s: string, search: string)
    requires search != "" && IsSplit(pieces, s, search)
    ensures pieces == Pieces(s, search)
    decreases |pieces|
  {
    if |pieces| > 1 {
      var rest := Join(pieces[1..], search);
      FindAfterPiece(pieces[0], search, rest);
      assert s[..|pieces[0]|] == pieces[0] && s[|pieces[0]| + |search|..] == rest;
      SplitIsPieces(pieces[1..], rest, search);
    }
  }

  lemma {:induction false} PiecesSplit(s: string, search: string)
    requires search != ""
    ensures IsSplit(Pieces(s, search), s, search)
    decreases |s|
  {
    hide MatchAt, IsSplit;
    match Find(s, search, 0)
    case None =>
      NoPieces(s, search);
    case Some(i) =>
      MatchFits(s, search, i);
      var rest := s[i + |search|..];
      PiecesSplit(rest, search);
      FirstPieceLeftmost(s, search, i);
      assert s == s[..i] + search + rest;
      FirstAndRest(s[..i], Pieces(rest, search), rest, search);
  }

  lemma NoPieces(s: string, search: string)
    requires search != "" && Find(s, search, 0).None?
    ensures IsSplit([s], s, search)
  {
    hide Find, MatchAt;
  }

  lemma FirstPieceLeftmost(s: string, search: string, i: nat)
    requires Find(s, search, 0) == Some(i)
    ensures Leftmost(s[..i], search)
  {
    hide Find, MatchAt;
    MatchFits(s, search, i);
    var t := s[..i] + search;
    forall j | 0 <= j < i
      ensures !MatchAt(t, search, j)
    {
      MatchInPrefix(s, search, j, t);
    }
  }

  lemma MatchFits(s: string, search: string, i: nat)
    requires MatchAt(s, search, i)
    ensures i + |search| <= |s| && s[..i + |search|] == s[..i] + search
  {
  }

  lemma FirstAndRest(first: string, pieces: seq<string>, rest: string, search: string)
    requires search != "" && Leftmost(first, search) && IsSplit(pieces, rest, search)
    ensures IsSplit([first] + pieces, first + search + rest, search)
  {
    hide Leftmost, NoMatch;
    var all := [first] + pieces;
    assert all[1..] == pieces && all[|all| - 1] == pieces[|pieces| - 1];
  }

  // ----- the version that counts, allocates and copies

  lemma FindShift(s: string, search: string, from: nat)
    requires from <= |s|
    ensures Find(s, search, from)
      == match Find(s[from..], search, 0) case None => None case Some(i) => Some(i + from)
  {
    hide Find, MatchAt;
    var r, t := Find(s, search, from), Find(s[from..], search, 0);
    if t.Some? {
      MatchShift(s, search, from, t.value);
    }
    if r.Some? {
      MatchShift(s, search, from, r.value - from);
      if t.Some? && r.value < t.value + from {
        assert false;
      }
      if t.Some? && r.value > t.value + from {
        assert false;
      }
    }
  }

  lemma FindInside(s: string, search: string, from: nat)
    ensures Find(s, search, from).Some? ==> from <= Find(s, search, from).value <= |s| - |search|
  {
    hide Find;
  }

  lemma MatchShift(s: string, search: string, from: nat, i: nat)
    requires from <= |s|
    ensures MatchAt(s[from..], search, i) <==> MatchAt(s, search, i + from)
  {
    if i + from + |search| <= |s| {
      assert s[from..][i..i + |search|] == s[i + from..i + from + |search|];
    }
  }

  function Matches(s: string, search: string): nat
    requires search != ""
  {
    |Pieces(s, search)| - 1
  }

  lemma {:induction false} JoinLength(pieces: seq<string>, a: string, b: string)
    requires |pieces| >= 1
    ensures |Join(pieces, b)| == |Join(pieces, a)| + (|b| - |a|) * (|pieces| - 1)
    decreases |pieces|
  {
    if |pieces| > 1 {
      JoinLength(pieces[1..], a, b);
      assert (|b| - |a|) * (|pieces| - 1) == (|b| - |a|) * (|pieces| - 2) + (|b| - |a|);
    }
  }

  /** Replacing from a position on: up to the next match, the replacement, and then the rest. */
  lemma ReplacedFrom(s: string, search: string, replacement: string, from: nat)
    requires search != "" && from <= |s|
    ensures match Find(s, search, from)
      case None => Matches(s[from..], search) == 0 && Replaced(s[from..], search, replacement) == s[from..]
      case Some(i) =>
        var rest := s[i + |search|..];
        Matches(s[from..], search) == Matches(rest, search) + 1
        && Replaced(s[from..], search, replacement) == s[from..i] + replacement + Replaced(rest, search, replacement)
  {
    hide Find;
    FindShift(s, search, from);
    match Find(s, search, from)
    case None =>
    case Some(i) =>
      var tail := s[from..];
      assert tail[i - from + |search|..] == s[i + |search|..] && tail[..i - from] == s[from..i];
      var rest := Pieces(s[i + |search|..], search);
      assert Pieces(tail, search) == [s[from..i]] + rest;
      assert ([s[from..i]] + rest)[1..] == rest;
  }

  /** Writes `src` and a terminator. */
  method CopyString(dst: array<char>, at: nat, src: string)
    requires at + |src| < dst.Length
    modifies dst
    ensures dst[..at + |src| + 1] == old(dst[..at]) + src + ['\0']
  {
    CopyChars(dst, at, src);
    dst[at + |src|] := '\0';
  }

  method CopyChars(dst: array<char>, at: nat, src: string)
    requires at + |src| <= dst.Length
    modifies dst
    ensures dst[..at + |src|] == old(dst[..at]) + src
  {
    var i := 0;
    while i < |src|
      invariant 0 <= i <= |src| && dst[..at + i] == old(dst[..at]) + src[..i]
    {
      dst[at + i] := src[i];
      i := i + 1;
    }
    assert src[..i] == src;
  }

  method CountMatches(s: string, search: string) returns (count: nat)
    requires search != ""
    ensures count == Matches(s, search)
  {
    hide Pieces, Matches, Find, MatchAt, Replaced;
    var ins: nat := 0;
    count := 0;
    assert s[0..] == s;
    ReplacedFrom(s, search, "", ins);
    var next := Find(s, search, ins);
    while next.Some?
      invariant ins <= |s| && next == Find(s, search, ins)
      invariant count + Matches(s[ins..], search) == Matches(s, search)
      decreases |s| - ins
    {
      ReplacedFrom(s, search, "", ins);
      FindInside(s, search, ins);
      ins := next.value + |search|;
      count := count + 1;
      next := Find(s, search, ins);
    }
    ReplacedFrom(s, search, "", ins);
  }

  lemma ResultSize(s: string, search: string, replacement: string)
    requires search != ""
    ensures |Replaced(s, search, replacement)| == |s| + (|replacement| - |search|) * Matches(s, search)
  {
    PiecesSplit(s, search);
    JoinLength(Pieces(s, search), search, replacement);
  }

  /** Copies pieces and replacements for `count` matches, and then the remainder with its terminator. */
  method CopyReplaced(s: string, search: string, replacement: string, count: nat, buffer: array<char>)
    requires search != "" && count == Matches(s, search)
    requires buffer.Length == |Replaced(s, search, replacement)| + 1
    modifies buffer
    ensures buffer[..] == Replaced(s, search, replacement) + ['\0']
  {
    hide Pieces, Matches, Replaced, Find, MatchAt;
    ghost var total := Replaced(s, search, replacement);
    var from: nat, tmp: nat, left := 0, 0, count;
    assert s[0..] == s;
    while left != 0
      invariant from <= |s| && tmp <= |total| && left == Matches(s[from..], search)
      invariant buffer[..tmp] + Replaced(s[from..], search, replacement) == total
      decreases left
    {
      ReplacedFrom(s, search, replacement, from);
      FindInside(s, search, from);
      ghost var written := buffer[..tmp];
      var ins := Find(s, search, from).value;
      ghost var rest := Replaced(s[ins + |search|..], search, replacement);
      assert |total| == tmp + (ins - from) + |replacement| + |rest|;
      CopyChars(buffer, tmp, s[from..ins]);
      tmp := tmp + (ins - from);
      CopyString(buffer, tmp, replacement);
      tmp := tmp + |replacement|;
      assert buffer[..tmp] == written + s[from..ins] + replacement;
      from := ins + |search|;
      left := left - 1;
    }
    ReplacedFrom(s, search, replacement, from);
    CopyString(buffer, tmp, s[from..]);
  }

  /**
   The result with its terminator, in an array of exactly the size computed
   before copying; nothing for a missing string or an empty search string.
   */
  method StrReplace(orig: Option<string>, rep: Option<string>, with: Option<string>)
    returns (result: Option<array<char>>)
    ensures result.None? <==> orig.None? || rep.None? || rep.value == ""
    ensures result.Some? ==>
      result.value[..] == Replaced(orig.value, rep.value, if with.Some? then with.value else "") + ['\0']
  {
    if orig.None? || rep.None? || rep.value == "" {
      return None;
    }
    hide Pieces, Matches, Replaced;
    var s, search, replacement := orig.value, rep.value, if with.Some? then with.value else "";
    var count := CountMatches(s, search);
    ResultSize(s, search, replacement);
    var buffer := new char[|s| + (|replacement| - |search|) * count + 1];
    CopyReplaced(s, search, replacement, count, buffer);
    return Some(buffer);
  }

  // ----- the version that edits in place

  /** One turn of the loop replaces the next match and leaves the result to come unchanged. */
  lemma EditKeepsResult(s: string, search: string, replacement: string, pos: nat)
    requires search != "" && pos <= |s| && Find(s, search, pos).Some?
    ensures var i := Find(s, search, pos).value;
      var s' := s[..i] + replacement + s[i + |search|..];
      s'[..i + |replacement|] + Replaced(s'[i + |replacement|..], search, replacement)
      == s[..pos] + Replaced(s[pos..], search, replacement)
  {
    hide Find, Replaced, Matches;
    ReplacedFrom(s, search, replacement, pos);
    var i := Find(s, search, pos).value;
    var s', rest := s[..i] + replacement + s[i + |search|..], s[i + |search|..];
    assert s'[i + |replacement|..] == rest;
    assert s'[..i + |replacement|] == s[..pos] + s[pos..i] + replacement;
  }

  class Text {
    var subject: string

    constructor (s: string)
      ensures subject == s
    {
      subject := s;
    }

    method ReplaceAllInPlace(search: string, replacement: string)
      requires search != ""
      modifies this
      ensures subject == Replaced(old(subject), search, replacement)
    {
      hide Pieces, Matches, Replaced, Find, MatchAt;
      var pos: nat := 0;
      ghost var total := Replaced(subject, search, replacement);
      assert subject[0..] == subject;
      var next := Find(subject, search, pos);
      while next.Some?
        invariant pos <= |subject| && next == Find(subject, search, pos)
        invariant subject[..pos] + Replaced(subject[pos..], search, replacement) == total
        decreases |subject| - pos
      {
        FindInside(subject, search, pos);
        EditKeepsResult(subject, search, replacement, pos);
        subject := subject[..next.value] + replacement + subject[next.value + |search|..];
        pos := next.value + |replacement|;
        next := Find(subject, search, pos);
      }
      ReplacedFrom(subject, search, replacement, pos);
      assert subject == subject[..pos] + subject[pos..];
    }
  }
}
