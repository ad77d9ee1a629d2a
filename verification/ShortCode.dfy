/** Short codes for system errors, and the search that gets the error back from its short code. */
module ShortCode {
  import opened Machine

  type short = x: int | 0 <= x < 0x1_0000

  datatype Group = Group(low: short, count: short, name: string)

  /** `header` is what the table's first bytes read as text: the facility of codes that no group covers. */
  datatype Table = Table(header: string, groups: seq<Group>, limit: short, base: short, errors: seq<word>)

  const BUFFER := 16

  // ----- printing

  function DigitChar(d: nat): char
    requires d < 10
  {
    '0' + d as char
  }

  function Decimal(n: nat): (s: string)
    ensures s != ""
  {
    if n < 10 then [DigitChar(n)] else Decimal(n / 10) + [DigitChar(n % 10)]
  }

  function HexChar(d: nat): char
    requires d < 16
  {
    if d < 10 then '0' + d as char else 'a' + (d - 10) as char
  }

  /** The low `k` hexadecimal digits, with leading zeros. */
  function Hex(n: nat, k: nat): (s: string)
    ensures |s| == k
  {
    if k == 0 then "" else Hex(n / 16, k - 1) + [HexChar(n % 16)]
  }

  /** What fits into the output buffer with its terminator. */
  function Truncated(s: string): (r: string)
    ensures r <= s && |r| <= 15 && (|r| < 15 ==> r == s)
  {
    if |s| < BUFFER then s else s[..BUFFER - 1]
  }

  // ----- short codes

  function FirstIndex(errors: seq<word>, code: word): (r: Option<nat>)
    ensures r.Some? ==> r.value < |errors| && errors[r.value] == code && code !in errors[..r.value]
    ensures r.None? ==> code !in errors
  {
    FirstIndexFrom(errors, code, 0)
  }

  function FirstIndexFrom(errors: seq<word>, code: word, from: nat): (r: Option<nat>)
    requires from <= |errors|
    ensures r.Some? ==> from <= r.value < |errors| && errors[r.value] == code
    ensures r.Some? ==> forall i :: from <= i < r.value ==> errors[i] != code
    ensures r.None? ==> forall i :: from <= i < |errors| ==> errors[i] != code
    decreases |errors| - from
  {
    if from == |errors| then None
    else if errors[from] == code then Some(from)
    else FirstIndexFrom(errors, code, from + 1)
  }

  function FacilityNumber(code: word): nat {
    (code / 0x1_0000) % 0x1000
  }

  function GroupName(groups: seq<Group>, number: nat, otherwise: string): string {
    if groups == [] then otherwise
    else if groups[0].low <= number < groups[0].low + groups[0].count then groups[0].name
    else GroupName(groups[1..], number, otherwise)
  }

  function Facility(t: Table, code: word): string {
    var number := FacilityNumber(code);
    if 0x200 <= number <= 0x2FF then "NS" else GroupName(t.groups, number, t.header)
  }

  function DigitSum(n: nat): nat {
    if n < 10 then n else DigitSum(n / 10) + n % 10
  }

  /** Facility, number and check digit. */
  function Code(t: Table, code: word, index: nat): string {
    var number := t.base + index;
    Facility(t, code) + "-" + Decimal(number) + "-" + [DigitChar(DigitSum(number) % 10)]
  }

  /**
   The text for an error code. `junk` is the word printed for an entry past the
   table's limit, for which the original passes no argument: it may be any word,
   and another one in every call.
   */
  function Resolve(t: Table, code: word, junk: word): string {
    match FirstIndex(t.errors, code)
    case None => "E-" + Hex(code, 8)
    case Some(i) => if i == 0 || i <= t.limit then Truncated(Code(t, code, i)) else "*-" + Hex(junk, 8)
  }

  // ----- what the parts of a text mean

  /** Bits 16 to 27 of a code. */
  lemma FacilityBits(top: nat, facility: nat, low: nat)
    requires top < 0x10 && facility < 0x1000 && low < 0x1_0000
    ensures FacilityNumber(0x1000_0000 * top + 0x1_0000 * facility + low) == facility
  {
    var code := 0x1000_0000 * top + 0x1_0000 * facility + low;
    DivOfSum(0x1000 * top + facility, 0x1_0000, low);
    assert code == (0x1000 * top + facility) * 0x1_0000 + low;
    ModOfMultiple(facility, top, 0x1000);
  }

  predicate Contains(g: Group, number: nat) {
    g.low <= number < g.low + g.count
  }

  predicate FirstToContain(groups: seq<Group>, number: nat, i: nat)
    requires i < |groups|
  {
    Contains(groups[i], number) && forall k :: 0 <= k < i ==> !Contains(groups[k], number)
  }

  /** The name is that of the first group with the number, and `otherwise` if there is none. */
  lemma {:induction false} GroupNameFirst(groups: seq<Group>, number: nat, otherwise: string)
    ensures (forall i :: 0 <= i < |groups| ==> !Contains(groups[i], number)) ==>
      GroupName(groups, number, otherwise) == otherwise
    ensures forall i :: 0 <= i < |groups| && FirstToContain(groups, number, i) ==>
      GroupName(groups, number, otherwise) == groups[i].name
  {
    if groups != [] {
      GroupNameFirst(groups[1..], number, otherwise);
      assert forall k :: 0 <= k < |groups| - 1 ==> groups[1..][k] == groups[k + 1];
      if !Contains(groups[0], number) {
        forall i | 0 <= i < |groups| && FirstToContain(groups, number, i)
          ensures GroupName(groups, number, otherwise) == groups[i].name
        {
          assert groups[1..][i - 1] == groups[i];
          assert FirstToContain(groups[1..], number, i - 1);
        }
      }
    }
  }

  function DigitValue(c: char): nat {
    if '0' <= c <= '9' then (c - '0') as nat else if 'a' <= c <= 'f' then 10 + (c - 'a') as nat else 0
  }

  /** The number that a text stands for in some base. */
  function ValueIn(s: string, radix: nat): nat {
    if s == "" then 0 else radix * ValueIn(s[..|s| - 1], radix) + DigitValue(s[|s| - 1])
  }

  function SumOfDigits(s: string): nat {
    if s == "" then 0 else SumOfDigits(s[..|s| - 1]) + DigitValue(s[|s| - 1])
  }

  lemma {:induction false} DecimalReads(n: nat)
    ensures ValueIn(Decimal(n), 10) == n && SumOfDigits(Decimal(n)) == DigitSum(n)
    ensures Decimal(n)[0] == '0' ==> n == 0
  {
    var s := Decimal(n);
    assert s[|s| - 1] == DigitChar(n % 10);
    if n >= 10 {
      assert s[..|s| - 1] == Decimal(n / 10);
      DecimalReads(n / 10);
    } else {
      assert s[..|s| - 1] == "";
    }
  }

  lemma {:induction false} HexReads(n: nat, k: nat)
    requires n < Pow16(k)
    ensures ValueIn(Hex(n, k), 16) == n
  {
    if k > 0 {
      var s := Hex(n, k);
      assert s[..k - 1] == Hex(n / 16, k - 1) && s[k - 1] == HexChar(n % 16);
      HexReads(n / 16, k - 1);
    }
  }

  /** A short code read back: the facility, the number in decimal without leading zeros, and its digit sum. */
  lemma CodeParts(t: Table, code: word, index: nat)
    ensures var s, n := Code(t, code, index), |Facility(t, code)|;
      && |s| >= n + 4 && s[..n] == Facility(t, code) && s[n] == '-' && s[|s| - 2] == '-' && IsDigit(s[|s| - 1])
      && (var d := s[n + 1..|s| - 2];
          AllDigits(d) && ValueIn(d, 10) == t.base + index && (d[0] == '0' ==> t.base + index == 0)
          && DigitValue(s[|s| - 1]) == SumOfDigits(d) % 10)
  {
    hide Facility, Decimal, DigitSum, ValueIn, SumOfDigits;
    var s, n, d := Code(t, code, index), |Facility(t, code)|, Decimal(t.base + index);
    DecimalDigits(t.base + index);
    DecimalReads(t.base + index);
    assert s[n + 1..|s| - 2] == d;
    assert s[..n] == Facility(t, code);
  }

  // ----- reading a short code from the right

  predicate IsDigit(c: char) {
    '0' <= c <= '9'
  }

  predicate AllDigits(s: string) {
    forall i :: 0 <= i < |s| ==> IsDigit(s[i])
  }

  lemma {:induction false} DecimalDigits(n: nat)
    ensures AllDigits(Decimal(n))
  {
    if n >= 10 {
      DecimalDigits(n / 10);
    }
  }

  lemma DigitCharInjective(d: nat, e: nat)
    requires d < 10 && e < 10 && DigitChar(d) == DigitChar(e)
    ensures d == e
  {
  }

  lemma {:induction false} DecimalInjective(m: nat, n: nat)
    requires Decimal(m) == Decimal(n)
    ensures m == n
    decreases m + n
  {
    var s, t := Decimal(m), Decimal(n);
    assert s[|s| - 1] == DigitChar(m % 10) && t[|t| - 1] == DigitChar(n % 10);
    DigitCharInjective(m % 10, n % 10);
    if m >= 10 && n >= 10 {
      assert s[..|s| - 1] == Decimal(m / 10) && t[..|t| - 1] == Decimal(n / 10);
      DecimalInjective(m / 10, n / 10);
    }
  }

  /** Two texts that end in a dash, digits, a dash and a digit agree on the digits between the last two dashes. */
  lemma LastNumber(f: string, d: string, c: char, f': string, d': string, c': char)
    requires AllDigits(d) && AllDigits(d')
    requires f + "-" + d + "-" + [c] == f' + "-" + d' + "-" + [c']
    ensures d == d'
  {
    var s := f + "-" + d + "-" + [c];
    var n := |s|;
    assert s[|f|] == '-' && s[|f'|] == '-';
    assert s[|f| + 1..n - 2] == d && s[|f'| + 1..n - 2] == d';
    assert forall i :: |f| < i < n - 2 ==> s[i] == d[i - |f| - 1];
    assert forall i :: |f'| < i < n - 2 ==> s[i] == d'[i - |f'| - 1];
  }

  lemma CodeDeterminesIndex(t: Table, x: word, i: nat, y: word, j: nat)
    requires Code(t, x, i) == Code(t, y, j)
    ensures i == j
  {
    DecimalDigits(t.base + i);
    DecimalDigits(t.base + j);
    LastNumber(Facility(t, x), Decimal(t.base + i), DigitChar(DigitSum(t.base + i) % 10),
               Facility(t, y), Decimal(t.base + j), DigitChar(DigitSum(t.base + j) % 10));
    DecimalInjective(t.base + i, t.base + j);
  }

  // ----- the search

  /** The first table entry whose text is `target`; `junks[i]` is what the call for entry `i` prints past the limit. */
  function Search(t: Table, target: string, junks: seq<word>, from: nat): (r: Option<nat>)
    requires from <= |t.errors| == |junks|
    ensures r.Some? ==> from <= r.value < |t.errors|
    decreases |t.errors| - from
  {
    if from == |t.errors| then None
    else if Resolve(t, t.errors[from], junks[from]) == target then Some(from)
    else Search(t, target, junks, from + 1)
  }

  lemma {:induction false} SearchIsFirst(t: Table, target: string, junks: seq<word>, from: nat)
    requires from <= |t.errors| == |junks|
    ensures match Search(t, target, junks, from)
      case None => forall i :: from <= i < |t.errors| ==> Resolve(t, t.errors[i], junks[i]) != target
      case Some(j) =>
        && from <= j < |t.errors| && Resolve(t, t.errors[j], junks[j]) == target
        && forall i :: from <= i < j ==> Resolve(t, t.errors[i], junks[i]) != target
    decreases |t.errors| - from
  {
    hide Resolve;
    if from < |t.errors| && Resolve(t, t.errors[from], junks[from]) != target {
      SearchIsFirst(t, target, junks, from + 1);
    }
  }

  /** The index that the resolver finds for the code of entry `i`. */
  function IndexOf(t: Table, i: nat): (k: nat)
    requires i < |t.errors|
    ensures k <= i && t.errors[k] == t.errors[i]
    ensures forall h :: 0 <= h < k ==> t.errors[h] != t.errors[i]
  {
    FirstIndex(t.errors, t.errors[i]).value
  }

  predicate WithinLimit(t: Table, i: nat)
    requires i < |t.errors|
  {
    IndexOf(t, i) == 0 || IndexOf(t, i) <= t.limit
  }

  function CodeOf(t: Table, i: nat): string
    requires i < |t.errors|
  {
    Code(t, t.errors[i], IndexOf(t, i))
  }

  /** One of the two short codes is overlong, and cut to the buffer they read alike. */
  predicate Clash(t: Table, i: nat, j: nat)
    requires i < |t.errors| && j < |t.errors|
  {
    && WithinLimit(t, i) && (|CodeOf(t, i)| >= BUFFER || |CodeOf(t, j)| >= BUFFER)
    && Truncated(CodeOf(t, i)) == Truncated(CodeOf(t, j))
  }

  function StarText(junk: word): (s: string)
    ensures |s| == 10
  {
    "*-" + Hex(junk, 8)
  }

  lemma TextOf(t: Table, i: nat, junk: word)
    requires i < |t.errors|
    ensures Resolve(t, t.errors[i], junk) == if WithinLimit(t, i) then Truncated(CodeOf(t, i)) else StarText(junk)
  {
    hide Code, Hex, Truncated;
  }

  lemma {:induction false} HexDigits(n: nat, k: nat)
    ensures '-' !in Hex(n, k)
  {
    if k > 0 {
      HexDigits(n / 16, k - 1);
    }
  }

  function Pow16(k: nat): nat {
    if k == 0 then 1 else 16 * Pow16(k - 1)
  }

  lemma {:induction false} HexInjective(m: nat, n: nat, k: nat)
    requires m < Pow16(k) && n < Pow16(k) && Hex(m, k) == Hex(n, k)
    ensures m == n
    decreases k
  {
    if k > 0 {
      var s, t := Hex(m, k), Hex(n, k);
      assert s[..k - 1] == Hex(m / 16, k - 1) && t[..k - 1] == Hex(n / 16, k - 1);
      assert s[k - 1] == HexChar(m % 16) && t[k - 1] == HexChar(n % 16);
      HexCharInjective(m % 16, n % 16);
      HexInjective(m / 16, n / 16, k - 1);
    }
  }

  lemma HexCharInjective(d: nat, e: nat)
    requires d < 16 && e < 16 && HexChar(d) == HexChar(e)
    ensures d == e
  {
  }

  lemma StarTextInjective(v: word, w: word)
    requires StarText(v) == StarText(w)
    ensures v == w
  {
    hide Hex;
    assert StarText(v)[2..] == Hex(v, 8) && StarText(w)[2..] == Hex(w, 8);
    assert Pow16(8) == 0x1_0000_0000;
    HexInjective(v, w, 8);
  }

  /** A short code has a dash before its last character, the text past the limit only at its start. */
  lemma CodeIsNoStarText(t: Table, i: nat, junk: word)
    requires i < |t.errors| && WithinLimit(t, i)
    ensures Truncated(CodeOf(t, i)) != StarText(junk)
  {
    hide Hex, Facility, Decimal, DigitSum;
    var s := CodeOf(t, i);
    assert |s| >= 2 && s[|s| - 2] == '-';
    HexDigits(junk, 8);
    assert StarText(junk)[8] == Hex(junk, 8)[6];
  }

  /** What a call for entry `i` prints is the text of entry `j` if the codes are the same, or if they clash. */
  lemma SameText(t: Table, i: nat, junk: word, j: nat)
    requires i < |t.errors| && j < |t.errors| && WithinLimit(t, j)
    ensures Resolve(t, t.errors[i], junk) == Truncated(CodeOf(t, j)) <==> t.errors[i] == t.errors[j] || Clash(t, i, j)
  {
    hide Code, Hex, FirstIndex, Resolve;
    TextOf(t, i, junk);
    if WithinLimit(t, i) {
      if CodeOf(t, i) == CodeOf(t, j) {
        CodeDeterminesIndex(t, t.errors[i], IndexOf(t, i), t.errors[j], IndexOf(t, j));
      }
    } else {
      CodeIsNoStarText(t, j, junk);
    }
  }

  /**
   Brute force inverts the resolver: searching for the text of an entry within the
   limit gives back its error code, whatever is printed for entries past the limit,
   exactly when no earlier entry clashes with it.
   */
  lemma SearchInvertsExactly(t: Table, j: nat, junks: seq<word>)
    requires j < |t.errors| == |junks| && WithinLimit(t, j)
    ensures var r := Search(t, Resolve(t, t.errors[j], junks[j]), junks, 0);
      r.Some? && (t.errors[r.value] == t.errors[j] <==> forall i :: 0 <= i < IndexOf(t, j) ==> !Clash(t, i, j))
  {
    hide Search, Resolve, CodeOf, WithinLimit, Truncated;
    var k := IndexOf(t, j);
    SameText(t, j, junks[j], j);
    SameText(t, k, junks[k], j);
    SearchIsFirst(t, Resolve(t, t.errors[j], junks[j]), junks, 0);
    var r := Search(t, Resolve(t, t.errors[j], junks[j]), junks, 0);
    assert r.Some? && r.value <= k;
    SameText(t, r.value, junks[r.value], j);
    forall i | 0 <= i < r.value
      ensures !Clash(t, i, j)
    {
      SameText(t, i, junks[i], j);
    }
  }

  // ----- a table with a clash

  const LONG_NAME := "ABCDEFGHIJ-10"
  const SHORT_NAME := "ABCDEFGHIJ"

  /** Entry 1 belongs to the facility with the long name, entry 10 to the other. */
  function ClashingTable(): Table {
    Table("", [Group(1, 1, LONG_NAME), Group(2, 1, SHORT_NAME)], 10, 0,
          [0, 0x1_0000, 2, 3, 4, 5, 6, 7, 8, 9, 0x2_0000])
  }

  lemma ClashingFacilities()
    ensures Facility(ClashingTable(), 0x1_0000) == LONG_NAME && Facility(ClashingTable(), 0x2_0000) == SHORT_NAME
  {
    var groups := ClashingTable().groups;
    assert FacilityNumber(0x1_0000) == 1 && FacilityNumber(0x2_0000) == 2;
    assert groups[1..][0] == Group(2, 1, SHORT_NAME);
  }

  lemma ClashingIndices()
    ensures IndexOf(ClashingTable(), 1) == 1 && IndexOf(ClashingTable(), 10) == 10
  {
    hide FirstIndex;
  }

  lemma ClashingCodes()
    ensures CodeOf(ClashingTable(), 1) == LONG_NAME + "-1-1" && CodeOf(ClashingTable(), 10) == SHORT_NAME + "-10-1"
  {
    hide Facility, IndexOf;
    ClashingFacilities();
    ClashingIndices();
    assert Decimal(1) == "1" && Decimal(10) == "10" && DigitSum(1) == 1 && DigitSum(10) == 1;
  }

  /** Clashes do happen: in this table the search for the code of entry 10 answers with another error. */
  lemma ClashHappens(junks: seq<word>)
    requires |junks| == 11
    ensures var t := ClashingTable();
      && WithinLimit(t, 10) && |CodeOf(t, 10)| < BUFFER && Clash(t, 1, 10)
      && (var r := Search(t, Resolve(t, t.errors[10], junks[10]), junks, 0);
          r.Some? && t.errors[r.value] != t.errors[10])
  {
    hide CodeOf, Search, Resolve, Code;
    var t := ClashingTable();
    ClashingCodes();
    assert (LONG_NAME + "-1-1")[..BUFFER - 1] == SHORT_NAME + "-10-1";
    ClashingIndices();
    SearchInvertsExactly(t, 10, junks);
  }

  /** So it does for every table whose short codes fit the buffer. */
  lemma SearchInverts(t: Table, j: nat, junks: seq<word>)
    requires j < |t.errors| == |junks| && WithinLimit(t, j)
    requires forall i :: 0 <= i <= j && WithinLimit(t, i) ==> |CodeOf(t, i)| < BUFFER
    ensures var r := Search(t, Resolve(t, t.errors[j], junks[j]), junks, 0);
      r.Some? && t.errors[r.value] == t.errors[j]
  {
    SearchInvertsExactly(t, j, junks);
  }

  /**
   The text printed past the limit shows a word that has nothing to do with the
   code. Searching for it answers with the first entry past the limit whose own
   call happens to print that word, and with no other.
   */
  lemma PastLimitSearch(t: Table, junk: word, junks: seq<word>, j: nat)
    requires j < |t.errors| == |junks|
    ensures Search(t, StarText(junk), junks, 0) == Some(j) <==>
      !WithinLimit(t, j) && junks[j] == junk && forall i :: 0 <= i < j ==> WithinLimit(t, i) || junks[i] != junk
  {
    hide Search, Resolve, CodeOf, WithinLimit, StarText;
    SearchIsFirst(t, StarText(junk), junks, 0);
    forall i | 0 <= i < |t.errors|
      ensures Resolve(t, t.errors[i], junks[i]) == StarText(junk) <==> !WithinLimit(t, i) && junks[i] == junk
    {
      StarTextOnly(t, i, junks[i], junk);
    }
  }

  lemma StarTextOnly(t: Table, i: nat, printed: word, junk: word)
    requires i < |t.errors|
    ensures Resolve(t, t.errors[i], printed) == StarText(junk) <==> !WithinLimit(t, i) && printed == junk
  {
    hide Resolve, CodeOf, StarText;
    TextOf(t, i, printed);
    if WithinLimit(t, i) {
      CodeIsNoStarText(t, i, junk);
    } else if StarText(printed) == StarText(junk) {
      StarTextInjective(printed, junk);
    }
  }

  // ----- the program's loops

  method FindIndex(errors: seq<word>, code: word) returns (r: Option<nat>)
    ensures r == FirstIndex(errors, code)
  {
    if |errors| == 0 {
      return None;
    }
    if errors[0] == code {
      return Some(0);
    }
    var i := 1;
    while i < |errors|
      invariant 1 <= i <= |errors| && FirstIndex(errors, code) == FirstIndexFrom(errors, code, i)
    {
      if errors[i] == code {
        return Some(i);
      }
      i := i + 1;
    }
    return None;
  }

  method SumDigits(n: nat) returns (sum: nat)
    ensures sum == DigitSum(n)
  {
    var divider := n;
    sum := 0;
    while divider != 0
      invariant sum + DigitSum(divider) == DigitSum(n)
    {
      sum := sum + divider % 10;
      divider := divider / 10;
    }
  }

  method FindGroup(t: Table, number: nat) returns (facility: string)
    ensures facility == GroupName(t.groups, number, t.header)
  {
    var i := 0;
    while i < |t.groups|
      invariant 0 <= i <= |t.groups|
      invariant GroupName(t.groups, number, t.header) == GroupName(t.groups[i..], number, t.header)
    {
      if t.groups[i].low <= number < t.groups[i].low + t.groups[i].count {
        return t.groups[i].name;
      }
      assert t.groups[i..][1..] == t.groups[i + 1..];
      i := i + 1;
    }
    return t.header;
  }

  method ErrorCodeToString(t: Table, code: word, junk: word) returns (text: string)
    ensures text == Resolve(t, code, junk)
  {
    var found := FindIndex(t.errors, code);
    if found.None? {
      return "E-" + Hex(code, 8);
    }
    var i := found.value;
    if i != 0 && t.limit < i {
      return "*-" + Hex(junk, 8);
    }
    var facility;
    var number := (code / 0x1_0000) % 0x1000;
    if 0x200 <= number <= 0x2FF {
      facility := "NS";
    } else {
      facility := FindGroup(t, number);
    }
    var sum := SumDigits(t.base + i);
    text := Truncated(facility + "-" + Decimal(t.base + i) + "-" + [DigitChar(sum % 10)]);
  }

  method BruteForce(t: Table, target: string, junks: seq<word>) returns (r: Option<word>)
    requires |junks| == |t.errors|
    ensures r == match Search(t, target, junks, 0) case None => None case Some(j) => Some(t.errors[j])
  {
    hide Resolve;
    var i := 0;
    while i < |t.errors|
      invariant 0 <= i <= |t.errors| && Search(t, target, junks, 0) == Search(t, target, junks, i)
    {
      var text := ErrorCodeToString(t, t.errors[i], junks[i]);
      if text == target {
        return Some(t.errors[i]);
      }
      i := i + 1;
    }
    return None;
  }

  // ----- known texts

  function SampleTable(): Table {
    Table("HEADER", [Group(1, 2, "C1"), Group(2, 1, "C2"), Group(0x205, 1, "C3")], 3, 98,
          [0x8001_0001, 0x8002_0001, 0x8205_0003, 0xF003_0000, 0x8001_0002])
  }

  lemma SampleIndices()
    ensures var e := SampleTable().errors;
      FirstIndex(e, 0x8001_0001) == Some(0) && FirstIndex(e, 0x8002_0001) == Some(1)
      && FirstIndex(e, 0x8205_0003) == Some(2) && FirstIndex(e, 0xF003_0000) == Some(3)
      && FirstIndex(e, 0x8001_0002) == Some(4) && FirstIndex(e, 0x1234_ABCD) == None
  {
  }

  lemma SampleFacilities()
    ensures Facility(SampleTable(), 0x8001_0001) == "C1" && Facility(SampleTable(), 0x8002_0001) == "C1"
    ensures Facility(SampleTable(), 0x8205_0003) == "NS" && Facility(SampleTable(), 0xF003_0000) == "HEADER"
  {
    hide GroupName;
    var t := SampleTable();
    FacilityBits(8, 1, 1);
    FacilityBits(8, 2, 1);
    FacilityBits(8, 0x205, 3);
    FacilityBits(15, 3, 0);
    GroupNameFirst(t.groups, 1, t.header);
    GroupNameFirst(t.groups, 2, t.header);
    GroupNameFirst(t.groups, 3, t.header);
    assert Contains(t.groups[0], 1) && Contains(t.groups[0], 2);
  }

  lemma SampleNumbers()
    ensures Decimal(98) == "98" && Decimal(99) == "99" && Decimal(100) == "100" && Decimal(101) == "101"
    ensures DigitSum(98) == 17 && DigitSum(99) == 18 && DigitSum(100) == 1 && DigitSum(101) == 2
  {
  }

  lemma HexStep(n: nat, k: nat, s: string, d: nat)
    requires d < 16 && Hex(n, k) == s
    ensures Hex(16 * n + d, k + 1) == s + [HexChar(d)]
  {
  }

  lemma FourDigits()
    ensures Hex(0, 4) == "0000" && Hex(0x1234, 4) == "1234"
  {
  }

  lemma SampleWord()
    ensures Hex(0xBEEF, 8) == "0000beef"
  {
    hide Hex;
    FourDigits();
    HexStep(0, 4, "0000", 11);
    HexStep(0xB, 5, "0000b", 14);
    HexStep(0xBE, 6, "0000be", 14);
    HexStep(0xBEE, 7, "0000bee", 15);
  }

  lemma SampleCode()
    ensures Hex(0x1234_ABCD, 8) == "1234abcd"
  {
    hide Hex;
    FourDigits();
    HexStep(0x1234, 4, "1234", 10);
    HexStep(0x1234A, 5, "1234a", 11);
    HexStep(0x1234AB, 6, "1234ab", 12);
    HexStep(0x1234ABC, 7, "1234abc", 13);
  }

  /** One text of every kind. */
  lemma KnownTexts(junk: word)
    ensures var t := SampleTable();
      && Resolve(t, 0x8001_0001, junk) == "C1-98-7" && Resolve(t, 0x8002_0001, junk) == "C1-99-8"
      && Resolve(t, 0x8205_0003, junk) == "NS-100-1" && Resolve(t, 0xF003_0000, junk) == "HEADER-101-2"
      && Resolve(t, 0x8001_0002, 0xBEEF) == "*-0000beef" && Resolve(t, 0x1234_ABCD, junk) == "E-1234abcd"
  {
    hide FirstIndex, Facility, Decimal, DigitSum, Hex, HexChar;
    SampleIndices();
    SampleFacilities();
    SampleNumbers();
    SampleWord();
    SampleCode();
  }
}
