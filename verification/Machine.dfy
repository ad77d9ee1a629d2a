/** Machine integers, optional values, and the big-endian numbers that byte streams stand for. */
module Machine {
  type byte = x: int | 0 <= x < 0x100
  type word = x: int | 0 <= x < 0x1_0000_0000
  type Bit = b: int | 0 <= b < 2

  /** A byte on which bits are masked and shifted. */
  type octet = bv8

  datatype Option<+T> = None | Some(value: T)

  function Pow2(n: nat): (r: nat)
    ensures r >= 1
  {
    if n == 0 then 1 else 2 * Pow2(n - 1)
  }

  function Pow256(n: nat): (r: nat)
    ensures r >= 1
  {
    if n == 0 then 1 else 256 * Pow256(n - 1)
  }

  /** The number of binary digits of `x` after the leading one. */
  function Log2(x: nat): (n: nat)
    requires x >= 1
    ensures Pow2(n) <= x < 2 * Pow2(n)
  {
    if x == 1 then 0 else Log2(x / 2) + 1
  }

  lemma {:induction false} Log2Unique(x: nat, n: nat)
    requires Pow2(n) <= x < 2 * Pow2(n)
    ensures Log2(x) == n
  {
    if n > 0 {
      Log2Unique(x / 2, n - 1);
    }
  }

  /** The number written by `acc` followed by the base-256 digits `bytes`. */
  function BigEndian(acc: nat, bytes: seq<byte>): nat
    decreases bytes
  {
    if bytes == [] then acc else BigEndian(acc * 256 + bytes[0], bytes[1..])
  }

  /** The `k` low base-256 digits of `x`, most significant first. */
  function Digits(x: nat, k: nat): (bytes: seq<byte>)
    ensures |bytes| == k
  {
    if k == 0 then [] else Digits(x / 256, k - 1) + [x % 256]
  }

  lemma {:induction false} BigEndianConcat(acc: nat, a: seq<byte>, b: seq<byte>)
    ensures BigEndian(acc, a + b) == BigEndian(BigEndian(acc, a), b)
    decreases a
  {
    if a == [] {
      assert a + b == b;
    } else {
      assert (a + b)[1..] == a[1..] + b;
      BigEndianConcat(acc * 256 + a[0], a[1..], b);
    }
  }

  lemma {:induction false} DigitsRoundTrip(x: nat, k: nat)
    requires x < Pow256(k)
    ensures BigEndian(0, Digits(x, k)) == x
  {
    if k > 0 {
      DigitsRoundTrip(x / 256, k - 1);
      BigEndianConcat(0, Digits(x / 256, k - 1), [x % 256]);
      assert BigEndian(x / 256, [x % 256]) == x;
    }
  }

  lemma ProductsNest(acc: nat, next: nat, p: nat)
    requires acc * 256 <= next < acc * 256 + 256
    ensures acc * (256 * p) <= next * p && (next + 1) * p <= (acc + 1) * (256 * p)
  {
    ProductsOrdered(acc * 256, next, p);
    ProductsOrdered(next + 1, acc * 256 + 256, p);
    assert (acc * 256) * p == acc * (256 * p);
    assert (acc * 256 + 256) * p == (acc + 1) * (256 * p);
  }

  /** Digits below the top ones only refine the value of the top ones. */
  lemma {:induction false} BigEndianBounds(acc: nat, bytes: seq<byte>)
    ensures acc * Pow256(|bytes|) <= BigEndian(acc, bytes) < (acc + 1) * Pow256(|bytes|)
    decreases bytes
  {
    if bytes != [] {
      var next := acc * 256 + bytes[0];
      var p := Pow256(|bytes| - 1);
      BigEndianBounds(next, bytes[1..]);
      ProductsNest(acc, next, p);
    }
  }

  lemma ProductsOrdered(a: int, b: int, p: nat)
    requires a <= b
    ensures a * p <= b * p
  {
  }

  /** Taking `d` off the leading part takes `d * 256^k` off the number. */
  lemma {:induction false} BigEndianShift(acc: nat, d: nat, bytes: seq<byte>)
    requires d <= acc
    ensures BigEndian(acc - d, bytes) == BigEndian(acc, bytes) - d * Pow256(|bytes|)
    decreases bytes
  {
    if bytes != [] {
      var p := Pow256(|bytes| - 1);
      BigEndianShift(acc * 256 + bytes[0], d * 256, bytes[1..]);
      assert (acc - d) * 256 + bytes[0] == acc * 256 + bytes[0] - d * 256;
      assert (d * 256) * p == d * (256 * p);
    }
  }

  lemma ModOfMultiple(x: nat, q: int, m: nat)
    requires x < m
    ensures (x + q * m) % m == x
  {
    var y := x + q * m;
    var d, r := y / m, y % m;
    assert y == d * m + r;
    assert (d - q) * m == x - r;
    if d - q >= 1 {
      ProductsOrdered(1, d - q, m);
    } else if d - q <= -1 {
      ProductsOrdered(d - q, -1, m);
    }
  }

  lemma DivOfSum(q: nat, p: nat, r: nat)
    requires r < p
    ensures (q * p + r) / p == q
  {
    var x := q * p + r;
    var y := x / p;
    assert x == y * p + x % p;
    assert (q + 1) * p == q * p + p;
    assert (y + 1) * p == y * p + p;
    if y > q {
      ProductsOrdered(q + 1, y, p);
    } else if y < q {
      ProductsOrdered(y + 1, q, p);
    }
  }

  lemma DivShift(x: nat, y: nat, p: nat)
    requires p >= 1
    ensures (x + y * p) / p == x / p + y
  {
    var q, r := x / p, x % p;
    assert x == q * p + r;
    assert x + y * p == (q + y) * p + r;
    DivOfSum(q + y, p, r);
  }
}
