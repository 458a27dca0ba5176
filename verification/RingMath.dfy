/** The arithmetic the ring rests on: power-of-two capacities, index masks, wrapping 64-bit counters. */
module RingMath {
  const MAX_CAPACITY: nat := 0x1_0000_0000
  const TWO64: nat := 0x1_0000_0000_0000_0000

  function Pow2(k: nat): (p: nat)
    ensures p > 0
  {
    if k == 0 then 1 else 2 * Pow2(k - 1)
  }

  /** Bitwise and, on binary digits. */
  function BitAnd(x: nat, y: nat): (r: nat)
    ensures r <= y
  {
    if x == 0 || y == 0 then 0
    else 2 * BitAnd(x / 2, y / 2) + if x % 2 == 1 && y % 2 == 1 then 1 else 0
  }

  /** The number of binary digits, std::bit_width. */
  function BitWidth(n: nat): nat {
    if n == 0 then 0 else 1 + BitWidth(n / 2)
  }

  /** round_up_to_power_of_two of the ring. */
  function RoundUp(value: nat): nat {
    if value <= 2 then 2 else if value > MAX_CAPACITY then MAX_CAPACITY else Pow2(BitWidth(value - 1))
  }

  /** A capacity the ring can have. */
  ghost predicate IsCapacity(c: nat) {
    exists k: nat :: 1 <= k <= 32 && c == Pow2(k)
  }

  lemma MulGap(m: nat, a: nat, b: nat)
    ensures a < b ==> m * a + m <= m * b
  {
    if a < b {
      assert m * (a + 1) <= m * b;
    }
  }

  lemma DivMod(x: nat, m: nat) returns (q: nat, r: nat)
    requires m > 0
    ensures q == x / m && r == x % m && r < m && x == m * q + r
  {
    q, r := x / m, x % m;
  }

  lemma ModUnique(x: nat, m: nat, q: nat, r: nat)
    requires m > 0 && r < m && x == m * q + r
    ensures x % m == r && x / m == q
  {
    var q', r' := DivMod(x, m);
    MulGap(m, q, q');
    MulGap(m, q', q);
  }

  lemma ModDouble(x: nat, p: nat)
    requires p > 0
    ensures x % (2 * p) == 2 * ((x / 2) % p) + x % 2
  {
    var h, l := DivMod(x, 2);
    var q, r := DivMod(h, p);
    assert 2 * (p * q) == (2 * p) * q;
    ModUnique(x, 2 * p, q, 2 * r + l);
  }

  /** One digit of a mask. */
  lemma MaskStep(x: nat, p: nat)
    requires p > 0
    ensures BitAnd(x, 2 * p - 1) == 2 * BitAnd(x / 2, p - 1) + x % 2
  {
    assert (2 * p - 1) / 2 == p - 1 && (2 * p - 1) % 2 == 1;
  }

  /** seq & mask_ is seq % capacity_ */
  lemma {:induction false} MaskIsMod(x: nat, k: nat)
    ensures BitAnd(x, Pow2(k) - 1) == x % Pow2(k)
  {
    if k > 0 {
      var p := Pow2(k - 1);
      MaskStep(x, p);
      MaskIsMod(x / 2, k - 1);
      ModDouble(x, p);
    }
  }

  lemma {:induction false} BitWidthBounds(n: nat)
    requires n > 0
    ensures BitWidth(n) > 0 && Pow2(BitWidth(n) - 1) <= n < Pow2(BitWidth(n))
  {
    if n > 1 {
      BitWidthBounds(n / 2);
    }
  }

  lemma {:induction false} Pow2Monotone(j: nat, k: nat)
    requires j <= k
    ensures Pow2(j) <= Pow2(k)
  {
    if j < k {
      Pow2Monotone(j, k - 1);
    }
  }

  lemma {:induction false} Pow2Add(j: nat, k: nat)
    ensures Pow2(j + k) == Pow2(j) * Pow2(k)
  {
    if j > 0 {
      Pow2Add(j - 1, k);
      Twice(Pow2(j - 1), Pow2(k));
    }
  }

  lemma Twice(a: nat, b: nat)
    ensures 2 * (a * b) == (2 * a) * b
  {
  }

  lemma Pow2Limits()
    ensures Pow2(32) == MAX_CAPACITY && Pow2(64) == TWO64
  {
    assert Pow2(8) == 256;
    Pow2Add(8, 8);
    Pow2Add(16, 16);
    Pow2Add(32, 32);
  }

  /** Rounding gives the least power of two that holds the request, and at least two slots. */
  lemma RoundUpIsLeast(value: nat)
    requires value <= MAX_CAPACITY
    ensures IsCapacity(RoundUp(value)) && value <= RoundUp(value)
    ensures forall k: nat :: 1 <= k && value <= Pow2(k) ==> RoundUp(value) <= Pow2(k)
  {
    Pow2Limits();
    if value <= 2 {
      assert Pow2(1) == 2;
      forall k: nat | 1 <= k
        ensures 2 <= Pow2(k)
      {
        Pow2Monotone(1, k);
      }
    } else {
      var w := BitWidth(value - 1);
      BitWidthBounds(value - 1);
      forall k: nat | 1 <= k && value <= Pow2(k)
        ensures w <= k
      {
        if k < w {
          Pow2Monotone(k, w - 1);
        }
      }
      forall k: nat | w <= k
        ensures Pow2(w) <= Pow2(k)
      {
        Pow2Monotone(w, k);
      }
      assert w <= 32;
    }
  }

  lemma ModOfMultiple(x: nat, c: nat, m: nat)
    requires c > 0 && m > 0 && c * m > 0
    ensures (x % (c * m)) % c == x % c
  {
    var q, r := DivMod(x, c * m);
    var q', r' := DivMod(r, c);
    assert (c * m) * q == c * (m * q);
    assert c * (m * q) + c * q' == c * (m * q + q');
    ModUnique(x, c, m * q + q', r');
  }

  /** The capacity divides 2^64, so an index can be taken from the wrapped counter. */
  lemma WrapKeepsIndex(x: nat, c: nat)
    requires IsCapacity(c)
    ensures (x % TWO64) % c == x % c
  {
    var k :| 1 <= k <= 32 && c == Pow2(k);
    Pow2Limits();
    Pow2Add(k, 64 - k);
    ModOfMultiple(x, c, Pow2(64 - k));
  }

  lemma CapacityBounds(c: nat)
    requires IsCapacity(c)
    ensures 2 <= c <= MAX_CAPACITY
  {
    var k :| 1 <= k <= 32 && c == Pow2(k);
    Pow2Limits();
    Pow2Monotone(1, k);
    Pow2Monotone(k, 32);
  }

  /** Within a window of m consecutive numbers, equal remainders mean equal numbers. */
  lemma ModInjective(i: nat, j: nat, m: nat)
    requires m > 0 && i <= j < i + m && i % m == j % m
    ensures i == j
  {
    var q, r := DivMod(i, m);
    var q', r' := DivMod(j, m);
    MulGap(m, q, q');
    MulGap(m, q', q);
  }

  lemma ModShift(i: nat, m: nat)
    requires m > 0
    ensures (i + m) % m == i % m
  {
    var q, r := DivMod(i, m);
    assert m * (q + 1) == m * q + m;
    ModUnique(i + m, m, q + 1, r);
  }
}
