/** SHA-256 as FIPS 180-4 defines it. */
module Sha256Spec {
  import opened Machine
  import opened Sha256Functions

  /** Addition modulo 2^32. */
  function Add(x: bv32, y: bv32): bv32 {
    x + y
  }

  // ----- sections 4.2.2 and 5.3.3: constants

  const ROUND_CONSTANTS: seq<seq<bv32>> := [
    [0x428a2f98, 0x71374491, 0xb5c0fbcf, 0xe9b5dba5, 0x3956c25b, 0x59f111f1, 0x923f82a4, 0xab1c5ed5],
    [0xd807aa98, 0x12835b01, 0x243185be, 0x550c7dc3, 0x72be5d74, 0x80deb1fe, 0x9bdc06a7, 0xc19bf174],
    [0xe49b69c1, 0xefbe4786, 0x0fc19dc6, 0x240ca1cc, 0x2de92c6f, 0x4a7484aa, 0x5cb0a9dc, 0x76f988da],
    [0x983e5152, 0xa831c66d, 0xb00327c8, 0xbf597fc7, 0xc6e00bf3, 0xd5a79147, 0x06ca6351, 0x14292967],
    [0x27b70a85, 0x2e1b2138, 0x4d2c6dfc, 0x53380d13, 0x650a7354, 0x766a0abb, 0x81c2c92e, 0x92722c85],
    [0xa2bfe8a1, 0xa81a664b, 0xc24b8b70, 0xc76c51a3, 0xd192e819, 0xd6990624, 0xf40e3585, 0x106aa070],
    [0x19a4c116, 0x1e376c08, 0x2748774c, 0x34b0bcb5, 0x391c0cb3, 0x4ed8aa4a, 0x5b9cca4f, 0x682e6ff3],
    [0x748f82ee, 0x78a5636f, 0x84c87814, 0x8cc70208, 0x90befffa, 0xa4506ceb, 0xbef9a3f7, 0xc67178f2]
  ]

  const FIRST_PRIMES: seq<seq<int>> := [
    [2, 3, 5, 7, 11, 13, 17, 19],
    [23, 29, 31, 37, 41, 43, 47, 53],
    [59, 61, 67, 71, 73, 79, 83, 89],
    [97, 101, 103, 107, 109, 113, 127, 131],
    [137, 139, 149, 151, 157, 163, 167, 173],
    [179, 181, 191, 193, 197, 199, 211, 223],
    [227, 229, 233, 239, 241, 251, 257, 263],
    [269, 271, 277, 281, 283, 293, 307, 311]
  ]

  function RoundConstant(t: nat): bv32
    requires t < 64
  {
    ROUND_CONSTANTS[t / 8][t % 8]
  }

  function Prime(t: nat): int
    requires t < 64
  {
    FIRST_PRIMES[t / 8][t % 8]
  }

  // ----- the first 64 primes

  predicate IsPrime(p: int) {
    p >= 2 && forall d :: 2 <= d < p ==> p % d != 0
  }

  /** No prime below 18, other than `p`, divides `p`. */
  predicate Sieved(p: int) {
    && (p == 2 || p % 2 != 0) && (p == 3 || p % 3 != 0) && (p == 5 || p % 5 != 0) && (p == 7 || p % 7 != 0)
    && (p == 11 || p % 11 != 0) && (p == 13 || p % 13 != 0) && (p == 17 || p % 17 != 0)
  }

  lemma FactorDivides(d: nat, q: nat)
    requires d >= 2 && q >= 1
    ensures (d * q) % q == 0 && q < d * q
  {
    ModOfMultiple(0, d, q);
    ProductsOrdered(2, d, q);
  }

  lemma FactorOfFactor(p: nat, d: nat, f: nat)
    requires d >= 1 && f >= 1 && p % d == 0 && d % f == 0
    ensures p % f == 0
  {
    var j, k := p / d, d / f;
    assert p == d * j && d == f * k;
    assert p == 0 + (k * j) * f;
    ModOfMultiple(0, k * j, f);
  }

  predicate SievePrime(f: nat) {
    f == 2 || f == 3 || f == 5 || f == 7 || f == 11 || f == 13 || f == 17
  }

  function PrimeFactor(d: nat): (f: nat)
    requires 2 <= d <= 17
    ensures SievePrime(f) && 2 <= f <= d && d % f == 0
  {
    if d % 2 == 0 then 2 else if d % 3 == 0 then 3 else if d % 5 == 0 then 5 else assert SievePrime(d); d
  }

  lemma SievedAt(p: nat, f: nat)
    requires Sieved(p) && SievePrime(f) && p != f
    ensures p % f != 0
  {
  }

  lemma NoFactorBelow18(p: nat, d: nat)
    requires Sieved(p) && 2 <= d < p && d <= 17
    ensures p % d != 0
  {
    hide Sieved, SievePrime, PrimeFactor;
    SievedAt(p, PrimeFactor(d));
    if p % d == 0 {
      FactorOfFactor(p, d, PrimeFactor(d));
    }
  }

  /** Below 18 * 18, a factor or its cofactor is below 18. */
  lemma NoFactor(p: nat, d: nat)
    requires Sieved(p) && p < 324 && 2 <= d < p
    ensures p % d != 0
  {
    hide Sieved;
    if d <= 17 {
      NoFactorBelow18(p, d);
    } else if p % d == 0 {
      var q := p / d;
      assert p == d * q;
      if q >= 18 {
        ProductsOrdered(18, d, q);
      }
      FactorDivides(d, q);
      NoFactorBelow18(p, q);
    }
  }

  lemma SievedIsPrime(p: int)
    requires 2 <= p < 324
    ensures IsPrime(p) <==> Sieved(p)
  {
    if Sieved(p) {
      forall d | 2 <= d < p
        ensures p % d != 0
      {
        NoFactor(p, d);
      }
    }
  }

  /** The next sieved number after an odd one. */
  function NextSieved(n: nat): nat
    decreases 324 - n
  {
    if n >= 322 || Sieved(n + 2) then n + 2 else NextSieved(n + 2)
  }

  lemma EvenNotSieved(m: nat)
    requires m > 2 && m % 2 == 0
    ensures !Sieved(m)
  {
  }

  lemma {:induction false} NextSievedIsNext(n: nat)
    requires n >= 3 && n % 2 == 1 && NextSieved(n) < 324
    ensures n < NextSieved(n) && Sieved(NextSieved(n))
    ensures forall m :: n < m < NextSieved(n) ==> !Sieved(m)
    decreases 324 - n
  {
    hide Sieved;
    EvenNotSieved(n + 1);
    if n < 322 && !Sieved(n + 2) {
      NextSievedIsNext(n + 2);
      forall m | n < m < NextSieved(n)
        ensures !Sieved(m)
      {
        assert m == n + 1 || m == n + 2 || m > n + 2;
      }
    }
  }

  /** The list goes on with the next sieved number, after 2 and 3. */
  predicate Next(t: nat)
    requires t < 64
  {
    if t < 2 then Prime(t) == t + 2
    else 3 <= Prime(t - 1) && Prime(t - 1) % 2 == 1 && NextSieved(Prime(t - 1)) == Prime(t) < 324
  }

  /** The list has every prime from 2 on, and nothing else. */
  predicate ListsNextPrime(t: nat)
    requires t < 64
  {
    var before := if t == 0 then 1 else Prime(t - 1);
    before < Prime(t) && IsPrime(Prime(t)) && forall n :: before < n < Prime(t) ==> !IsPrime(n)
  }

  lemma NextIsPrime(t: nat)
    requires t < 64 && Next(t)
    ensures ListsNextPrime(t)
  {
    hide Sieved, NextSieved, IsPrime;
    if t < 2 {
      TwoAndThree();
    } else {
      NextSievedIsNext(Prime(t - 1));
      SievedIsPrime(Prime(t));
      forall n | Prime(t - 1) < n < Prime(t)
        ensures !IsPrime(n)
      {
        SievedIsPrime(n);
      }
    }
  }

  lemma TwoAndThree()
    ensures IsPrime(2) && IsPrime(3)
  {
  }

  function Cube(x: int): int {
    x * x * x
  }

  function CubeRootFloor(p: int): int {
    if p < 8 then 1 else if p < 27 then 2 else if p < 64 then 3 else if p < 125 then 4 else if p < 216 then 5 else 6
  }

  /** The constant holds the first 32 bits of the fractional part of a prime's cube root. */
  predicate IsCubeRoot(t: nat)
    requires t < 64
  {
    var k, whole := RoundConstant(t) as int, CubeRootFloor(Prime(t)) * 0x1_0000_0000;
    && 0 <= k < 0x1_0000_0000
    && Cube(whole + k) <= Prime(t) * Cube(0x1_0000_0000) < Cube(whole + k + 1)
  }

  predicate Right(t: nat)
    requires t < 64
  {
    IsCubeRoot(t) && Next(t)
  }

  lemma Sieve0()
    ensures NextSieved(3) == 5 && NextSieved(5) == 7 && NextSieved(7) == 11 && NextSieved(11) == 13
    ensures NextSieved(13) == 17 && NextSieved(17) == 19
  {
  }

  lemma Sieve1()
    ensures NextSieved(19) == 23 && NextSieved(23) == 29 && NextSieved(29) == 31 && NextSieved(31) == 37
    ensures NextSieved(37) == 41 && NextSieved(41) == 43 && NextSieved(43) == 47 && NextSieved(47) == 53
  {
  }

  lemma Sieve2()
    ensures NextSieved(53) == 59 && NextSieved(59) == 61 && NextSieved(61) == 67 && NextSieved(67) == 71
    ensures NextSieved(71) == 73 && NextSieved(73) == 79 && NextSieved(79) == 83 && NextSieved(83) == 89
  {
  }

  lemma Sieve3()
    ensures NextSieved(89) == 97 && NextSieved(97) == 101 && NextSieved(101) == 103 && NextSieved(103) == 107
    ensures NextSieved(107) == 109 && NextSieved(109) == 113 && NextSieved(121) == 127 && NextSieved(113) == 127
    ensures NextSieved(127) == 131
  {
  }

  lemma Sieve4()
    ensures NextSieved(131) == 137 && NextSieved(137) == 139 && NextSieved(143) == 149 && NextSieved(139) == 149
    ensures NextSieved(149) == 151 && NextSieved(151) == 157 && NextSieved(157) == 163 && NextSieved(163) == 167
    ensures NextSieved(167) == 173
  {
  }

  lemma Sieve5()
    ensures NextSieved(173) == 179 && NextSieved(179) == 181 && NextSieved(185) == 191 && NextSieved(181) == 191
    ensures NextSieved(191) == 193 && NextSieved(193) == 197 && NextSieved(197) == 199 && NextSieved(205) == 211
    ensures NextSieved(199) == 211 && NextSieved(217) == 223 && NextSieved(211) == 223
  {
  }

  lemma Sieve6()
    ensures NextSieved(223) == 227 && NextSieved(227) == 229 && NextSieved(229) == 233 && NextSieved(233) == 239
    ensures NextSieved(239) == 241 && NextSieved(245) == 251 && NextSieved(241) == 251 && NextSieved(251) == 257
    ensures NextSieved(257) == 263
  {
  }

  lemma Sieve7()
    ensures NextSieved(263) == 269 && NextSieved(269) == 271 && NextSieved(271) == 277 && NextSieved(277) == 281
    ensures NextSieved(281) == 283 && NextSieved(287) == 293 && NextSieved(283) == 293 && NextSieved(301) == 307
    ensures NextSieved(293) == 307 && NextSieved(307) == 311
  {
  }

  lemma Row0()
    ensures Right(0) && Right(1) && Right(2) && Right(3)
  {
    hide NextSieved, Sieved;
    Sieve0();
  }

  lemma Row1()
    ensures Right(4) && Right(5) && Right(6) && Right(7)
  {
    hide NextSieved, Sieved;
    Sieve0();
  }

  lemma Row2()
    ensures Right(8) && Right(9) && Right(10) && Right(11)
  {
    hide NextSieved, Sieved;
    Sieve1();
  }

  lemma Row3()
    ensures Right(12) && Right(13) && Right(14) && Right(15)
  {
    hide NextSieved, Sieved;
    Sieve1();
  }

  lemma Row4()
    ensures Right(16) && Right(17) && Right(18) && Right(19)
  {
    hide NextSieved, Sieved;
    Sieve2();
  }

  lemma Row5()
    ensures Right(20) && Right(21) && Right(22) && Right(23)
  {
    hide NextSieved, Sieved;
    Sieve2();
  }

  lemma Row6()
    ensures Right(24) && Right(25) && Right(26) && Right(27)
  {
    hide NextSieved, Sieved;
    Sieve3();
  }

  lemma Row7()
    ensures Right(28) && Right(29) && Right(30) && Right(31)
  {
    hide NextSieved, Sieved;
    Sieve3();
  }

  lemma Row8()
    ensures Right(32) && Right(33) && Right(34) && Right(35)
  {
    hide NextSieved, Sieved;
    Sieve4();
  }

  lemma Row9()
    ensures Right(36) && Right(37) && Right(38) && Right(39)
  {
    hide NextSieved, Sieved;
    Sieve4();
  }

  lemma Row10()
    ensures Right(40) && Right(41) && Right(42) && Right(43)
  {
    hide NextSieved, Sieved;
    Sieve5();
  }

  lemma Row11()
    ensures Right(44) && Right(45) && Right(46) && Right(47)
  {
    hide NextSieved, Sieved;
    Sieve5();
  }

  lemma Row12()
    ensures Right(48) && Right(49) && Right(50) && Right(51)
  {
    hide NextSieved, Sieved;
    Sieve6();
  }

  lemma Row13()
    ensures Right(52) && Right(53) && Right(54) && Right(55)
  {
    hide NextSieved, Sieved;
    Sieve6();
  }

  lemma Row14()
    ensures Right(56) && Right(57) && Right(58) && Right(59)
  {
    hide NextSieved, Sieved;
    Sieve7();
  }

  lemma Row15()
    ensures Right(60) && Right(61) && Right(62) && Right(63)
  {
    hide NextSieved, Sieved;
    Sieve7();
  }

  lemma FirstQuarter(t: nat)
    requires 0 <= t < 16
    ensures Right(t)
  {
    hide Right;
    if t < 4 {
      Row0();
    } else if t < 8 {
      Row1();
    } else if t < 12 {
      Row2();
    } else {
      Row3();
    }
  }

  lemma SecondQuarter(t: nat)
    requires 16 <= t < 32
    ensures Right(t)
  {
    hide Right;
    if t < 20 {
      Row4();
    } else if t < 24 {
      Row5();
    } else if t < 28 {
      Row6();
    } else {
      Row7();
    }
  }

  lemma ThirdQuarter(t: nat)
    requires 32 <= t < 48
    ensures Right(t)
  {
    hide Right;
    if t < 36 {
      Row8();
    } else if t < 40 {
      Row9();
    } else if t < 44 {
      Row10();
    } else {
      Row11();
    }
  }

  lemma FourthQuarter(t: nat)
    requires 48 <= t < 64
    ensures Right(t)
  {
    hide Right;
    if t < 52 {
      Row12();
    } else if t < 56 {
      Row13();
    } else if t < 60 {
      Row14();
    } else {
      Row15();
    }
  }

  /** The round constants are those of the first 64 primes, in order. */
  lemma RoundConstantsAreCubeRoots(t: nat)
    requires t < 64
    ensures IsCubeRoot(t) && ListsNextPrime(t)
  {
    hide IsCubeRoot, Next, ListsNextPrime;
    if t < 16 {
      FirstQuarter(t);
    } else if t < 32 {
      SecondQuarter(t);
    } else if t < 48 {
      ThirdQuarter(t);
    } else {
      FourthQuarter(t);
    }
    NextIsPrime(t);
  }

  const INITIAL: seq<bv32> := [
    0x6a09e667, 0xbb67ae85, 0x3c6ef372, 0xa54ff53a, 0x510e527f, 0x9b05688c, 0x1f83d9ab, 0x5be0cd19
  ]

  function SquareRootFloor(p: int): int {
    if p < 4 then 1 else if p < 9 then 2 else if p < 16 then 3 else 4
  }

  function Square(x: int): int {
    x * x
  }

  predicate IsSquareRoot(t: nat)
    requires t < 8
  {
    var k, whole := INITIAL[t] as int, SquareRootFloor(Prime(t)) * 0x1_0000_0000;
    && 0 <= k < 0x1_0000_0000
    && Square(whole + k) <= Prime(t) * Square(0x1_0000_0000) < Square(whole + k + 1)
  }

  /** The initial hash value holds the first 32 bits of the fractional parts of the first eight primes' square roots. */
  lemma InitialIsSquareRoots(t: nat)
    requires t < 8
    ensures IsSquareRoot(t)
  {
    assert t == 0 || t == 1 || t == 2 || t == 3 || t == 4 || t == 5 || t == 6 || t == 7;
  }

  // ----- section 5.1.1: padding

  function Octet(x: int): octet {
    (x % 0x100) as octet
  }

  /** The octet of weight 256^i in `x`. */
  function OctetOf(x: nat, i: nat): octet {
    Octet(x / Weight(i))
  }

  function Weight(i: nat): (w: nat)
    ensures w >= 1
  {
    if i == 0 then 1 else 0x100 * Weight(i - 1)
  }

  function ZeroCount(n: nat): nat {
    if n % 64 < 56 then 55 - n % 64 else 119 - n % 64
  }

  /** As many zeros as it takes to leave room for the length in the last block, and no more. */
  lemma ZeroCountLeast(n: nat, k: nat)
    ensures (n + 1 + ZeroCount(n)) % 64 == 56
    ensures (n + 1 + k) % 64 == 56 ==> ZeroCount(n) <= k
  {
    var q, r := n / 64, n % 64;
    assert n + 1 + ZeroCount(n) == 64 * q + (r + 1 + ZeroCount(n)) && n + 1 + k == 64 * q + (r + 1 + k);
    WholeBlocks(q, r + 1 + ZeroCount(n));
    WholeBlocks(q, r + 1 + k);
  }

  lemma WholeBlocks(q: nat, x: nat)
    ensures (64 * q + x) % 64 == x % 64
  {
  }

  /** The length in bits as eight octets, most significant first; the standard's messages are shorter than 2^64 bits. */
  function LengthField(n: nat): seq<octet> {
    seq(8, i requires 0 <= i < 8 => OctetOf(8 * n, 7 - i))
  }

  function Zeros(k: nat): seq<octet> {
    seq(k, _ => 0)
  }

  function Pad(message: seq<octet>): (r: seq<octet>)
    ensures |r| % 64 == 0
  {
    message + [0x80] + Zeros(ZeroCount(|message|)) + LengthField(|message|)
  }

  // ----- section 6.2.2: the hash computation

  datatype Hash = Hash(a: bv32, b: bv32, c: bv32, d: bv32, e: bv32, f: bv32, g: bv32, h: bv32)

  function InitialHash(): Hash {
    Hash(INITIAL[0], INITIAL[1], INITIAL[2], INITIAL[3], INITIAL[4], INITIAL[5], INITIAL[6], INITIAL[7])
  }

  function WordOf(b0: octet, b1: octet, b2: octet, b3: octet): bv32 {
    ((b0 as bv32) << 24) | ((b1 as bv32) << 16) | ((b2 as bv32) << 8) | (b3 as bv32)
  }

  /** The first `n` words of the message schedule. */
  function Schedule(block: seq<octet>, n: nat): (w: seq<bv32>)
    requires |block| == 64 && n <= 64
    ensures |w| == n
  {
    if n == 0 then []
    else
      var w := Schedule(block, n - 1);
      w + [if n <= 16 then BlockWord(block, n - 1) else NextWord(w)]
  }

  function BlockWord(block: seq<octet>, t: nat): bv32
    requires |block| == 64 && t < 16
  {
    WordOf(block[4 * t], block[4 * t + 1], block[4 * t + 2], block[4 * t + 3])
  }

  function NextWord(w: seq<bv32>): bv32
    requires |w| >= 16
  {
    var t := |w|;
    Add(Add(Add(SmallSigma1(w[t - 2]), w[t - 7]), SmallSigma0(w[t - 15])), w[t - 16])
  }

  function Round(v: Hash, k: bv32, w: bv32): Hash {
    var t1 := Add(Add(Add(Add(v.h, BigSigma1(v.e)), Ch(v.e, v.f, v.g)), k), w);
    var t2 := Add(BigSigma0(v.a), Maj(v.a, v.b, v.c));
    Hash(Add(t1, t2), v.a, v.b, v.c, Add(v.d, t1), v.e, v.f, v.g)
  }

  /** The first `n` rounds with the schedule `w`. */
  function Rounds(v: Hash, w: seq<bv32>, n: nat): Hash
    requires n <= |w| <= 64
  {
    if n == 0 then v else Round(Rounds(v, w, n - 1), RoundConstant(n - 1), w[n - 1])
  }

  function AddHashes(v: Hash, r: Hash): Hash {
    Hash(Add(v.a, r.a), Add(v.b, r.b), Add(v.c, r.c), Add(v.d, r.d),
         Add(v.e, r.e), Add(v.f, r.f), Add(v.g, r.g), Add(v.h, r.h))
  }

  function Compress(v: Hash, block: seq<octet>): Hash
    requires |block| == 64
  {
    AddHashes(v, Rounds(v, Schedule(block, 64), 64))
  }

  function HashBlocks(v: Hash, blocks: seq<octet>): Hash
    requires |blocks| % 64 == 0
  {
    if blocks == [] then v
    else Compress(HashBlocks(v, blocks[..|blocks| - 64]), blocks[|blocks| - 64..])
  }

  /** Blocks are compressed one after the other. */
  lemma {:induction false} HashBlocksConcat(v: Hash, a: seq<octet>, b: seq<octet>)
    requires |a| % 64 == 0 && |b| % 64 == 0
    ensures |a + b| % 64 == 0 && HashBlocks(v, a + b) == HashBlocks(HashBlocks(v, a), b)
    ensures |b| == 64 ==> HashBlocks(v, b) == Compress(v, b)
    decreases |b|
  {
    hide Compress;
    if b == [] {
      assert a + b == a;
    } else {
      var n := |b| - 64;
      assert (a + b)[..|a + b| - 64] == a + b[..n] && (a + b)[|a + b| - 64..] == b[n..];
      HashBlocksConcat(v, a, b[..n]);
      assert |b| == 64 ==> b[..n] == [] && b[n..] == b;
    }
  }

  /** Octet `i` of a word, the most significant one first. */
  function WordOctet(w: bv32, i: nat): octet
    requires i < 4
  {
    ((w >> (24 - 8 * i)) & 0xFF) as octet
  }

  function WordOctets(w: bv32): seq<octet> {
    [WordOctet(w, 0), WordOctet(w, 1), WordOctet(w, 2), WordOctet(w, 3)]
  }

  function HashOctets(v: Hash): seq<octet> {
    WordOctets(v.a) + WordOctets(v.b) + WordOctets(v.c) + WordOctets(v.d)
    + WordOctets(v.e) + WordOctets(v.f) + WordOctets(v.g) + WordOctets(v.h)
  }

  function Digest(message: seq<octet>): seq<octet> {
    HashOctets(HashBlocks(InitialHash(), Pad(message)))
  }
}
