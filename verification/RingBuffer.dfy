/** The log's ring buffer: two pointers into a block of memory, taken modulo its length. */
module RingBuffer {
  import opened Machine

  // ----- bounded queues

  /** What putting one byte does to a full or not full queue. */
  function Clobber<T>(q: seq<T>, capacity: nat, c: T): seq<T>
    requires capacity >= 1
  {
    (if |q| >= capacity then q[1..] else q) + [c]
  }

  function ClobberAll<T>(q: seq<T>, capacity: nat, data: seq<T>): seq<T>
    requires capacity >= 1
    decreases |data|
  {
    if data == [] then q else ClobberAll(Clobber(q, capacity, data[0]), capacity, data[1..])
  }

  function Last<T>(s: seq<T>, n: nat): seq<T> {
    if |s| <= n then s else s[|s| - n..]
  }

  /** Clobbering puts leave the newest bytes, as many as fit. */
  lemma {:induction false} ClobberKeepsNewest<T>(q: seq<T>, capacity: nat, data: seq<T>)
    requires capacity >= 1 && |q| <= capacity
    ensures ClobberAll(q, capacity, data) == Last(q + data, capacity)
    decreases |data|
  {
    if data == [] {
      assert q + data == q;
    } else {
      var q' := Clobber(q, capacity, data[0]);
      ClobberKeepsNewest(q', capacity, data[1..]);
      assert q + data == q + [data[0]] + data[1..];
      if |q| == capacity {
        assert q' + data[1..] == (q + data)[1..];
      }
    }
  }

  lemma {:induction false} ClobberAllSnoc<T>(q: seq<T>, capacity: nat, data: seq<T>, c: T)
    requires capacity >= 1
    ensures ClobberAll(q, capacity, data + [c]) == Clobber(ClobberAll(q, capacity, data), capacity, c)
    decreases |data|
  {
    if data == [] {
      assert data + [c] == [c];
    } else {
      assert (data + [c])[1..] == data[1..] + [c];
      ClobberAllSnoc(Clobber(q, capacity, data[0]), capacity, data[1..], c);
    }
  }

  // ----- pointers

  function Index(length: nat, ptr: nat): nat
    requires length >= 1
  {
    ptr % length
  }

  function Advance(base: nat, length: nat, ptr: nat): nat
    requires length >= 1
  {
    base + Index(length, ptr + 1)
  }

  predicate Aligned(base: nat, length: nat)
    requires length >= 1
  {
    base % length == 0
  }

  /** How far a pointer moves in one step, round the block. */
  function Stride(base: nat, length: nat): (g: nat)
    requires length >= 1
    ensures 1 <= g <= length
  {
    base % length + 1
  }

  /** The offset of a pointer that has made `i` steps from the base. */
  function Cell(base: nat, length: nat, i: nat): (o: nat)
    requires length >= 1
    ensures o < length
  {
    (i * Stride(base, length)) % length
  }

  lemma ModEqual(x: int, y: int, k: int, m: nat)
    requires m >= 1 && x == y + k * m
    ensures x % m == y % m
  {
    var d, r := y / m, y % m;
    assert y == d * m + r;
    assert (d + k) * m == d * m + k * m;
    assert x == r + (d + k) * m;
    ModOfMultiple(r, d + k, m);
  }

  /** `x` as a remainder and a multiple. */
  function Quotient(x: int, m: nat): (k: int)
    requires m >= 1
    ensures x == x % m + k * m
  {
    x / m
  }

  lemma AdvanceCell(base: nat, length: nat, i: nat)
    requires length >= 1
    ensures Advance(base, length, base + Cell(base, length, i)) == base + Cell(base, length, i + 1)
  {
    var g, o := Stride(base, length), Cell(base, length, i);
    var q := Quotient(base, length);
    var k := Quotient(i * g, length);
    assert (i + 1) * g == i * g + g;
    assert (q - k) * length == q * length - k * length;
    ModEqual(base + o + 1, (i + 1) * g, q - k, length);
  }

  lemma RemainderIs(x: int, r: nat, k: int, m: nat)
    requires r < m && x == r + k * m
    ensures x % m == r
  {
    ModOfMultiple(r, k, m);
  }

  lemma SameRemainder(x: int, y: int, m: nat) returns (k: int)
    requires m >= 1 && x % m == y % m
    ensures x - y == k * m
  {
    var a, b := Quotient(x, m), Quotient(y, m);
    assert (a - b) * m == a * m - b * m;
    k := a - b;
  }

  lemma PlusOneRound(w: int, v: int, m: nat)
    requires m >= 1
    ensures (w + v + 1) % m == w % m <==> v % m == m - 1
  {
    if (w + v + 1) % m == w % m {
      var k := SameRemainder(w + v + 1, w, m);
      assert (k - 1) * m == k * m - m;
      RemainderIs(v, m - 1, k - 1, m);
    } else if v % m == m - 1 {
      var c := Quotient(v, m);
      assert (c + 1) * m == c * m + m;
      ModEqual(w + v + 1, w, c + 1, m);
    }
  }

  /** The full test of a ring that holds `n` bytes, wherever they start. */
  lemma FullTest(base: nat, length: nat, i: nat, n: nat)
    requires length >= 1
    ensures Index(length, base + Cell(base, length, i + n) + 1) == Index(length, base + Cell(base, length, i))
      <==> Cell(base, length, n) == length - 1
  {
    hide Cell;
    AdvanceCell(base, length, i + n);
    FullTestCells(base, length, i, n);
  }

  lemma FullTestCells(base: nat, length: nat, i: nat, n: nat)
    requires length >= 1
    ensures Cell(base, length, i + n + 1) == (base + Cell(base, length, i)) % length
      <==> Cell(base, length, n) == length - 1
  {
    var g := Stride(base, length);
    BaseAndCell(base, length, i);
    assert (i + n + 1) * g == (i * g + g - 1) + n * g + 1;
    PlusOneRound(i * g + g - 1, n * g, length);
  }

  lemma BaseAndCell(base: nat, length: nat, i: nat)
    requires length >= 1
    ensures (base + Cell(base, length, i)) % length
      == (i * Stride(base, length) + Stride(base, length) - 1) % length
  {
    var g := Stride(base, length);
    var q, k := Quotient(base, length), Quotient(i * g, length);
    assert (q - k) * length == q * length - k * length;
    ModEqual(base + Cell(base, length, i), i * g + g - 1, q - k, length);
  }

  /** Pointers `n` steps apart are equal exactly when `n` steps lead round to the same cell. */
  lemma SameCell(base: nat, length: nat, i: nat, n: nat)
    requires length >= 1
    ensures Cell(base, length, i + n) == Cell(base, length, i) <==> Cell(base, length, n) == 0
  {
    var g := Stride(base, length);
    assert (i + n) * g == i * g + n * g;
    if Cell(base, length, i + n) == Cell(base, length, i) {
      var k := SameRemainder((i + n) * g, i * g, length);
      RemainderIs(n * g, 0, k, length);
    }
    if Cell(base, length, n) == 0 {
      var k := Quotient(n * g, length);
      ModEqual((i + n) * g, i * g, k, length);
    }
  }

  /** Once the ring can be full, it comes back to a cell only after a whole round. */
  lemma OnlyWholeRounds(base: nat, length: nat, capacity: nat, n: nat)
    requires length >= 2 && Cell(base, length, capacity) == length - 1 && 0 < n < length
    ensures Cell(base, length, n) != 0
  {
    if Cell(base, length, n) == 0 {
      var g := Stride(base, length);
      var k, m := Quotient(n * g, length), Quotient(capacity * g, length);
      var t := n * m + n - capacity * k;
      assert n == t * length by {
        assert capacity * (n * g) == n * (capacity * g);
        assert capacity * (n * g) == (capacity * k) * length;
        assert n * (capacity * g) == (n * m + n) * length - n by {
          assert capacity * g == m * length + length - 1;
          assert n * (m * length + length - 1) == (n * m) * length + n * length - n;
        }
      }
      if t >= 1 {
        ProductsOrdered(1, t, length);
      } else {
        ProductsOrdered(t, 0, length);
      }
    }
  }

  /** So only one number of bytes makes it full. */
  lemma FullOnlyAt(base: nat, length: nat, capacity: nat, n: nat)
    requires length >= 2 && capacity < length && n < length && Cell(base, length, capacity) == length - 1
    ensures Cell(base, length, n) == length - 1 <==> n == capacity
  {
    hide Cell;
    if Cell(base, length, n) == length - 1 {
      if n < capacity {
        SameCell(base, length, n, capacity - n);
        OnlyWholeRounds(base, length, capacity, capacity - n);
      } else if capacity < n {
        SameCell(base, length, capacity, n - capacity);
        OnlyWholeRounds(base, length, capacity, n - capacity);
      }
    }
  }

  // ----- which blocks make a queue

  /** The put pointer after `n` bytes put into an empty ring. */
  function PutPointer(base: nat, length: nat, n: nat): nat
    requires length >= 1
  {
    if n == 0 then base else Advance(base, length, PutPointer(base, length, n - 1))
  }

  lemma {:induction false} PutPointerCell(base: nat, length: nat, n: nat)
    requires length >= 1
    ensures PutPointer(base, length, n) == base + Cell(base, length, n)
  {
    hide Advance;
    if n > 0 {
      PutPointerCell(base, length, n - 1);
      AdvanceCell(base, length, n - 1);
    } else {
      assert 0 * Stride(base, length) == 0;
    }
  }

  predicate FullAfter(base: nat, length: nat, n: nat)
    requires length >= 1
  {
    Index(length, PutPointer(base, length, n) + 1) == Index(length, base)
  }

  predicate EmptyAfter(base: nat, length: nat, n: nat)
    requires length >= 1
  {
    PutPointer(base, length, n) == base
  }

  lemma TestsAreCells(base: nat, length: nat, n: nat)
    requires length >= 1
    ensures FullAfter(base, length, n) <==> Cell(base, length, n) == length - 1
    ensures EmptyAfter(base, length, n) <==> Cell(base, length, n) == 0
  {
    hide Index, Cell;
    PutPointerCell(base, length, n);
    PutPointerCell(base, length, 0);
    FullTest(base, length, 0, n);
  }

  /** A ring that reports itself full after `n` bytes, and before that never empty. */
  predicate FillsUp(base: nat, length: nat, n: nat)
    requires length >= 1
  {
    n >= 1 && FullAfter(base, length, n) && forall i :: 0 < i <= n ==> !EmptyAfter(base, length, i)
  }

  /** Less than a round cannot lead back to the base before it fills the ring. */
  lemma FullFills(base: nat, length: nat, n: nat)
    requires length >= 2 && 1 <= n < length && Cell(base, length, n) == length - 1
    ensures FillsUp(base, length, n)
  {
    hide Cell, FullAfter, EmptyAfter;
    TestsAreCells(base, length, n);
    forall i | 0 < i <= n
      ensures !EmptyAfter(base, length, i)
    {
      TestsAreCells(base, length, i);
      OnlyWholeRounds(base, length, n, i);
    }
  }

  predicate CommonFactor(a: nat, b: nat, d: nat) {
    d >= 2 && a % d == 0 && b % d == 0
  }

  ghost predicate Coprime(a: nat, b: nat) {
    forall d: nat :: !CommonFactor(a, b, d)
  }

  lemma {:induction false} Bezout(a: nat, b: nat) returns (d: nat, x: int, y: int)
    requires a > 0
    ensures d >= 1 && x * a + y * b == d && a % d == 0 && b % d == 0
    decreases b
  {
    if b == 0 {
      d, x, y := a, 1, 0;
      assert a == 0 + 1 * a;
      ModOfMultiple(0, 1, a);
    } else {
      var q := a / b;
      assert a == q * b + a % b;
      var x', y';
      d, x', y' := Bezout(b, a % b);
      x, y := y', x' - q * y';
      assert y' * (a - q * b) == y' * a - (q * y') * b;
      assert (x' - q * y') * b == x' * b - (q * y') * b;
      var k, m := Quotient(b, d), Quotient(a % b, d);
      assert q * (k * d) == (q * k) * d;
      assert (q * k + m) * d == (q * k) * d + m * d;
      ModEqual(a, 0, q * k + m, d);
    }
  }

  lemma InverseWraps(x: int, y: int, g: int, m: int, n: int, k: int)
    requires x * g + y * m == 1 && -x == n + k * m
    ensures n * g == m - 1 + (y - k * g - 1) * m
  {
    assert n * g == (-x - k * m) * g;
    assert (-x - k * m) * g == -(x * g) - (k * m) * g;
    assert (k * m) * g == (k * g) * m;
    assert (y - k * g - 1) * m == y * m - (k * g) * m - m;
  }

  lemma CoprimeFills(base: nat, length: nat) returns (n: nat)
    requires length >= 2 && Coprime(Stride(base, length), length)
    ensures 1 <= n < length && Cell(base, length, n) == length - 1
  {
    var g := Stride(base, length);
    var d, x, y := Bezout(g, length);
    assert !CommonFactor(g, length, d);
    assert d == 1;
    n := (-x) % length;
    var k := Quotient(-x, length);
    InverseWraps(x, y, g, length, n, k);
    RemainderIs(n * g, length - 1, y - k * g - 1, length);
    assert n == 0 ==> n * g == 0;
  }

  lemma FillsCoprime(base: nat, length: nat, n: nat, d: nat)
    requires length >= 2 && CommonFactor(Stride(base, length), length, d)
    ensures Cell(base, length, n) != length - 1
  {
    var g := Stride(base, length);
    if Cell(base, length, n) == length - 1 {
      var k, a, b := Quotient(n * g, length), Quotient(g, d), Quotient(length, d);
      assert n * (a * d) == (n * a) * d && (k + 1) * (b * d) == ((k + 1) * b) * d;
      assert (k + 1) * length == k * length + length;
      var t := (k + 1) * b - n * a;
      assert t * d == ((k + 1) * b) * d - (n * a) * d;
      assert t * d == 1;
      if t >= 1 {
        ProductsOrdered(1, t, d);
      } else {
        ProductsOrdered(t, 0, d);
      }
    }
  }

  /**
   The block makes a queue, full before it could be taken for empty, exactly
   when one more than the base and the length have no common factor.
   */
  lemma QueueExactly(base: nat, length: nat)
    requires length >= 2
    ensures (exists n :: FillsUp(base, length, n)) <==> Coprime(Stride(base, length), length)
  {
    hide Cell, Stride, FullAfter, EmptyAfter;
    if Coprime(Stride(base, length), length) {
      var n := CoprimeFills(base, length);
      FullFills(base, length, n);
    } else {
      var d: nat :| CommonFactor(Stride(base, length), length, d);
      forall n
        ensures !FillsUp(base, length, n)
      {
        if n >= 1 {
          TestsAreCells(base, length, n);
          FillsCoprime(base, length, n, d);
        }
      }
    }
  }

  /**
   In any other block the ring is never full, and `length / d` bytes, or `length`,
   make it look empty again, whatever has been put.
   */
  lemma NeverFull(base: nat, length: nat, d: nat, n: nat)
    requires length >= 2 && CommonFactor(Stride(base, length), length, d)
    ensures !FullAfter(base, length, n)
    ensures 1 <= length / d < length && EmptyAfter(base, length, length / d) && EmptyAfter(base, length, length)
  {
    hide FullAfter, EmptyAfter;
    var g, k, m := Stride(base, length), Quotient(Stride(base, length), d), Quotient(length, d);
    TestsAreCells(base, length, n);
    FillsCoprime(base, length, n, d);
    assert m * (k * d) == k * (m * d);
    RemainderIs(m * g, 0, k, length);
    TestsAreCells(base, length, m);
    RemainderIs(length * g, 0, g, length);
    TestsAreCells(base, length, length);
    FactorBounds(m, d);
  }

  lemma FactorBounds(m: int, d: nat)
    requires d >= 2 && m * d >= 2
    ensures 1 <= m < m * d
  {
    if m < 1 {
      ProductsOrdered(m, 0, d);
    } else {
      ProductsOrdered(2, d, m);
      assert d * m == m * d;
    }
  }

  /** A block that starts on a page and still fails: after 0x1000 bytes it looks empty. */
  lemma FailingBlock(n: nat)
    ensures !FullAfter(0x2000, 0x3000, n) && EmptyAfter(0x2000, 0x3000, 0x1000)
  {
    hide FullAfter, EmptyAfter;
    NeverFull(0x2000, 0x3000, 3, n);
  }

  /** It holds length - 1 bytes exactly when it is aligned to its length. */
  lemma AlignedExactly(base: nat, length: nat)
    requires length >= 2
    ensures FillsUp(base, length, length - 1) <==> Aligned(base, length)
    ensures FullAfter(base, length, length - 1) <==> Aligned(base, length)
  {
    hide FullAfter, EmptyAfter;
    TestsAreCells(base, length, length - 1);
    var g := Stride(base, length);
    assert (length - 1) * g == (g - 1) * length + (length - g);
    RemainderIs((length - 1) * g, length - g, g - 1, length);
    if Aligned(base, length) {
      FullFills(base, length, length - 1);
    }
  }

  const LOG_LENGTH := 0x2000
  const PAGE := 0x1000

  /** The log's own ring, in a block that starts on a page: unless it is aligned, it holds half as much. */
  lemma LogRing(base: nat)
    requires base % PAGE == 0
    ensures FillsUp(base, LOG_LENGTH, if Aligned(base, LOG_LENGTH) then LOG_LENGTH - 1 else PAGE - 1)
  {
    FullFills(base, LOG_LENGTH, if Aligned(base, LOG_LENGTH) then LOG_LENGTH - 1 else PAGE - 1);
  }

  // ----- the ring

  /** The bytes of `count` cells from the one that `start` steps lead to. */
  ghost function Round(bytes: seq<char>, base: nat, start: nat, count: nat): (q: seq<char>)
    requires |bytes| >= 1
    ensures |q| == count
  {
    seq(count, k requires 0 <= k < count => bytes[Cell(base, |bytes|, start + k)])
  }

  lemma RoundGrows(bytes: seq<char>, base: nat, start: nat, count: nat, capacity: nat, c: char)
    requires |bytes| >= 2 && count < |bytes| && Cell(base, |bytes|, capacity) == |bytes| - 1
    ensures Round(bytes[Cell(base, |bytes|, start + count) := c], base, start, count + 1)
      == Round(bytes, base, start, count) + [c]
  {
    hide Cell;
    var after := bytes[Cell(base, |bytes|, start + count) := c];
    var q, r := Round(bytes, base, start, count) + [c], Round(after, base, start, count + 1);
    forall k | 0 <= k < count + 1
      ensures q[k] == r[k]
    {
      if k < count {
        SameCell(base, |bytes|, start + k, count - k);
        OnlyWholeRounds(base, |bytes|, capacity, count - k);
      }
    }
    assert q == r;
  }

  lemma RoundShrinks(bytes: seq<char>, base: nat, start: nat, count: nat)
    requires |bytes| >= 1 && count >= 1
    ensures bytes[Cell(base, |bytes|, start)] == Round(bytes, base, start, count)[0]
    ensures Round(bytes, base, start + 1, count - 1) == Round(bytes, base, start, count)[1..]
  {
    hide Cell;
    var q, r := Round(bytes, base, start, count)[1..], Round(bytes, base, start + 1, count - 1);
    forall k | 0 <= k < count - 1
      ensures q[k] == r[k]
    {
      assert start + 1 + k == start + (k + 1);
    }
  }

  /**
   The ring over a block that fills up. `start` counts the steps that the get
   pointer has made, and `count` those that the put pointer is ahead of it.
   */
  class Ring {
    const base: nat
    const length: nat
    const memory: array<char>
    var getPtr: nat
    var putPtr: nat
    var nonEmptyFlag: bool
    ghost const capacity: nat
    ghost var start: nat
    ghost var count: nat

    ghost predicate Valid()
      reads this`getPtr, this`putPtr, this`start, this`count
    {
      && length >= 2 && memory.Length == length
      && 1 <= capacity < length && Cell(base, length, capacity) == length - 1 && count <= capacity
      && getPtr == base + Cell(base, length, start) && putPtr == base + Cell(base, length, start + count)
    }

    ghost function Contents(): (q: seq<char>)
      requires Valid()
      reads this`getPtr, this`putPtr, this`start, this`count, memory
      ensures |q| == count <= capacity
    {
      Round(memory[..], base, start, count)
    }

    constructor (base: nat, length: nat, ghost capacity: nat)
      requires length >= 2 && capacity < length && FillsUp(base, length, capacity)
      ensures Valid() && fresh(memory) && Contents() == [] && this.capacity == capacity && !nonEmptyFlag
    {
      hide Cell, FullAfter, EmptyAfter;
      this.base := base;
      this.length := length;
      this.capacity := capacity;
      memory := new char[length];
      getPtr, putPtr := base, base;
      nonEmptyFlag := false;
      start, count := 0, 0;
      TestsAreCells(base, length, capacity);
      PutPointerCell(base, length, 0);
    }

    method Inc(ptr: nat, ghost steps: nat) returns (ptr': nat)
      requires Valid() && ptr == base + Cell(base, length, steps)
      ensures ptr' == base + Cell(base, length, steps + 1)
    {
      hide Index, Cell;
      AdvanceCell(base, length, steps);
      ptr' := base + Index(length, ptr + 1);
    }

    method Empty() returns (r: bool)
      requires Valid()
      ensures r <==> Contents() == []
    {
      hide Cell;
      SameCell(base, length, start, count);
      if count > 0 {
        OnlyWholeRounds(base, length, capacity, count);
      }
      r := getPtr == putPtr;
    }

    method Full() returns (r: bool)
      requires Valid()
      ensures r <==> |Contents()| == capacity
    {
      hide Index, Cell;
      FullTest(base, length, start, count);
      FullOnlyAt(base, length, capacity, count);
      r := Index(length, putPtr + 1) == Index(length, getPtr);
    }

    method Store(c: char)
      requires Valid() && |Contents()| < capacity
      modifies this`putPtr, this`count, memory
      ensures Valid() && Contents() == old(Contents()) + [c]
    {
      hide Cell, Round;
      ghost var bytes := memory[..];
      RoundGrows(bytes, base, start, count, capacity, c);
      memory[putPtr - base] := c;
      assert memory[..] == bytes[putPtr - base := c];
      putPtr := Inc(putPtr, start + count);
      count := count + 1;
    }

    method Put(c: char) returns (ok: bool)
      requires Valid()
      modifies this`putPtr, this`count, memory
      ensures Valid() && ok == (|old(Contents())| < capacity)
      ensures Contents() == if ok then old(Contents()) + [c] else old(Contents())
    {
      hide Cell, Round;
      var full := Full();
      if full {
        return false;
      }
      Store(c);
      return true;
    }

    method Drop()
      requires Valid() && Contents() != []
      modifies this`getPtr, this`start, this`count
      ensures Valid() && Contents() == old(Contents())[1..]
    {
      hide Cell, Round;
      RoundShrinks(memory[..], base, start, count);
      getPtr := Inc(getPtr, start);
      start, count := start + 1, count - 1;
    }

    method PutClobber(c: char)
      requires Valid()
      modifies this`getPtr, this`putPtr, this`start, this`count, memory
      ensures Valid() && Contents() == Clobber(old(Contents()), capacity, c)
    {
      hide Cell, Contents;
      var full := Full();
      if full {
        Drop();
      }
      Store(c);
    }

    method Get() returns (ok: bool, c: char)
      requires Valid()
      modifies this`getPtr, this`start, this`count
      ensures Valid() && ok == (old(Contents()) != [])
      ensures ok ==> c == old(Contents())[0] && Contents() == old(Contents())[1..]
      ensures !ok ==> Contents() == old(Contents())
    {
      hide Cell, Round;
      var empty := Empty();
      if empty {
        return false, '\0';
      }
      RoundShrinks(memory[..], base, start, count);
      c := memory[getPtr - base];
      Drop();
      ok := true;
    }

    // ----- the operations made under the mutex

    ghost predicate Signalled()
      requires Valid()
      reads this, memory
    {
      nonEmptyFlag <==> Contents() != []
    }

    /** As many bytes as fit, in order. */
    method PutAll(data: seq<char>, size: int) returns (n: nat)
      requires Valid() && Signalled() && size <= |data|
      modifies this`putPtr, this`count, this`nonEmptyFlag, memory
      ensures Valid() && Signalled()
      ensures var room := capacity - |old(Contents())|;
        n == if size <= 0 then 0 else if size <= room then size else room
      ensures Contents() == old(Contents()) + data[..n]
    {
      hide Cell, Contents;
      n := 0;
      while n < size
        invariant Valid() && 0 <= n && (n == 0 || n <= size)
        invariant |old(Contents())| + n <= capacity
        invariant Contents() == old(Contents()) + data[..n]
        invariant nonEmptyFlag == old(nonEmptyFlag)
      {
        var ok := Put(data[n]);
        if !ok {
          break;
        }
        assert data[..n + 1] == data[..n] + [data[n]];
        n := n + 1;
      }
      if n > 0 {
        nonEmptyFlag := true;
      }
    }

    /** All bytes; the oldest ones give way. */
    method PutAllClobber(data: seq<char>, size: int) returns (n: nat)
      requires Valid() && Signalled() && size <= |data|
      modifies this`getPtr, this`putPtr, this`start, this`count, this`nonEmptyFlag, memory
      ensures Valid() && Signalled() && n == if size <= 0 then 0 else size
      ensures Contents() == Last(old(Contents()) + data[..n], capacity)
    {
      hide Cell, Contents;
      n := 0;
      while n < size
        invariant Valid() && 0 <= n && (n == 0 || n <= size)
        invariant Contents() == ClobberAll(old(Contents()), capacity, data[..n])
        invariant n > 0 ==> Contents() != []
        invariant nonEmptyFlag == old(nonEmptyFlag)
      {
        PutClobber(data[n]);
        ClobberAllSnoc(old(Contents()), capacity, data[..n], data[n]);
        assert data[..n + 1] == data[..n] + [data[n]];
        n := n + 1;
      }
      if n > 0 {
        nonEmptyFlag := true;
      }
      ClobberKeepsNewest(old(Contents()), capacity, data[..n]);
    }

    /** Up to `size` of the oldest bytes. */
    method GetAll(size: int) returns (data: seq<char>)
      requires Valid() && Signalled()
      modifies this`getPtr, this`start, this`count, this`nonEmptyFlag
      ensures Valid() && Signalled()
      ensures |data| == if size <= 0 then 0 else if size <= |old(Contents())| then size else |old(Contents())|
      ensures old(Contents()) == data + Contents()
    {
      hide Cell, Contents;
      data := [];
      while |data| < size
        invariant Valid() && (|data| == 0 || |data| <= size)
        invariant old(Contents()) == data + Contents()
        invariant nonEmptyFlag == old(nonEmptyFlag)
        decreases size - |data|
      {
        var ok, c := Get();
        if !ok {
          break;
        }
        data := data + [c];
      }
      var empty := Empty();
      if empty {
        nonEmptyFlag := false;
      }
    }
  }
}
