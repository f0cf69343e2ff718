/**
 * Powers of two, binary length, and the two ways the repository rounds a
 * zone count up to a power of two: the JavaScript bit-smearing `nextPow2`
 * and the Python `1 << (n - 1).bit_length()`.
 */
module PowerOfTwo {
  import opened Arithmetic

  /** 2^k. */
  function Pow2(k: nat): (r: nat)
    ensures r >= 1
  {
    if k == 0 then 1 else 2 * Pow2(k - 1)
  }

  lemma {:induction false} Pow2Add(a: nat, b: nat)
    ensures Pow2(a + b) == Pow2(a) * Pow2(b)
  {
    if a > 0 {
      Pow2Add(a - 1, b);
      assert Pow2(a + b) == 2 * Pow2(a - 1 + b);
    }
  }

  lemma {:induction false} Pow2Monotone(a: nat, b: nat)
    ensures a <= b <==> Pow2(a) <= Pow2(b)
  {
    if a > 0 && b > 0 {
      Pow2Monotone(a - 1, b - 1);
    } else if a > 0 {
      assert Pow2(a) >= 2 by { assert Pow2(a - 1) >= 1; }
    } else if b > 0 {
      assert Pow2(b) >= 2 by { assert Pow2(b - 1) >= 1; }
    }
  }

  /** The powers of two that delimit octets and 32-bit addresses. */
  lemma Pow2Constants()
    ensures Pow2(8) == 0x100 && Pow2(16) == 0x1_0000 && Pow2(24) == 0x100_0000
    ensures Pow2(31) == 0x8000_0000 && Pow2(32) == 0x1_0000_0000
  {
    assert Pow2(4) == 16;
    assert Pow2(7) == 128;
    Pow2Add(4, 4);
    Pow2Add(8, 8);
    Pow2Add(16, 8);
    Pow2Add(24, 7);
    Pow2Add(16, 16);
  }

  /**
   * Exact base-2 logarithm of a power of two; models `Math.log2` and
   * `int(math.log(p, 2))`, which the callers only apply to powers of two.
   */
  function Log2(p: nat): nat
  {
    if p <= 1 then 0 else 1 + Log2(p / 2)
  }

  lemma {:induction false} Log2Pow2(k: nat)
    ensures Log2(Pow2(k)) == k
  {
    if k > 0 {
      Log2Pow2(k - 1);
      assert Pow2(k) / 2 == Pow2(k - 1);
    }
  }

  /** Number of binary digits of x: Python's `int.bit_length` on a natural. */
  function BitLength(x: nat): nat
  {
    if x == 0 then 0 else 1 + BitLength(x / 2)
  }

  /** Python's `int.bit_length`, which ignores the sign. */
  function PyBitLength(x: int): nat
  {
    if x < 0 then BitLength(-x) else BitLength(x)
  }

  /** x has exactly BitLength(x) binary digits. */
  lemma {:induction false} BitLengthBounds(x: nat)
    ensures x < Pow2(BitLength(x))
    ensures x > 0 ==> Pow2(BitLength(x) - 1) <= x
  {
    if x > 0 {
      BitLengthBounds(x / 2);
    }
  }

  /** Binary logarithm rounded up: the exponent of the least power of two >= n. */
  function CeilLog2(n: nat): nat
  {
    if n == 0 then 0 else BitLength(n - 1)
  }

  /** Pow2(CeilLog2(n)) is a power of two at least n, and no smaller power of two is. */
  lemma CeilLog2IsLeast(n: nat, k: nat)
    ensures n <= Pow2(CeilLog2(n))
    ensures n <= Pow2(k) ==> CeilLog2(n) <= k
  {
    if n > 0 {
      var L := BitLength(n - 1);
      BitLengthBounds(n - 1);
      if n <= Pow2(k) && L > 0 {
        Pow2Monotone(L - 1, k);
      }
    }
  }

  // ---------------------------------------------------------------------------
  // Bitwise OR and shifts on non-negative 32-bit JavaScript numbers.
  // For 0 <= x < 2^31, `x >> k` is x / 2^k and `x | y` is the bitwise OR below.
  // ---------------------------------------------------------------------------

  /** Bitwise OR of two naturals, bit by bit from the least significant. */
  function BitOr(a: nat, b: nat): nat
    decreases a + b
  {
    if a == 0 && b == 0 then 0
    else 2 * BitOr(a / 2, b / 2) + (if a % 2 == 1 || b % 2 == 1 then 1 else 0)
  }

  /** JavaScript's `x >> k` on a non-negative 32-bit value. */
  function ShiftRight(x: nat, k: nat): nat
  {
    DivBounds(x, Pow2(k));
    x / Pow2(k)
  }

  lemma {:induction false} BitOrZero(a: nat)
    ensures BitOr(a, 0) == a
  {
    if a > 0 {
      BitOrZero(a / 2);
    }
  }

  lemma {:induction false} BitOrBound(a: nat, b: nat, n: nat)
    requires a < Pow2(n) && b < Pow2(n)
    ensures BitOr(a, b) < Pow2(n)
  {
    if a != 0 || b != 0 {
      assert n > 0;
      BitOrBound(a / 2, b / 2, n - 1);
    }
  }

  lemma {:induction false} BitOrAtLeastRight(a: nat, b: nat)
    ensures b <= BitOr(a, b)
    decreases a + b
  {
    if a != 0 || b != 0 {
      BitOrAtLeastRight(a / 2, b / 2);
    }
  }

  /** OR-ing in a value below 2^s leaves the bits from position s upward alone. */
  lemma {:induction false} BitOrHigh(a: nat, c: nat, d: nat, s: nat)
    requires c < Pow2(s) && d < Pow2(s)
    ensures BitOr(a * Pow2(s) + c, d) == a * Pow2(s) + BitOr(c, d)
  {
    if s == 0 {
      BitOrZero(a);
    } else {
      var x := a * Pow2(s) + c;
      assert a * Pow2(s) == 2 * (a * Pow2(s - 1));
      assert x / 2 == a * Pow2(s - 1) + c / 2;
      assert x % 2 == c % 2;
      BitOrHigh(a, c / 2, d / 2, s - 1);
      if c == 0 && d == 0 {
        BitOrZero(a * Pow2(s - 1));
      }
    }
  }

  /** OR-ing a value below 2^n into 2^n - 1 changes nothing. */
  lemma {:induction false} BitOrOnes(n: nat, z: nat)
    requires z < Pow2(n)
    ensures BitOr(Pow2(n) - 1, z) == Pow2(n) - 1
  {
    if n > 0 {
      var h := Pow2(n - 1) - 1;
      var a := Pow2(n) - 1;
      assert a == 2 * h + 1;
      assert a / 2 == h && a % 2 == 1;
      assert z / 2 < Pow2(n - 1);
      BitOrOnes(n - 1, z / 2);
      assert BitOr(a, z) == 2 * BitOr(h, z / 2) + 1;
    }
  }

  /**
   * x < 2^n and the t most significant of those n bits are all set, that is
   * x >= 2^n - 2^(n - t).
   */
  ghost predicate TopOnes(x: nat, n: nat, t: nat)
  {
    t <= n && Pow2(n) - Pow2(n - t) <= x < Pow2(n)
  }

  /** (p - 1) * s == p * s - s. */
  lemma MulPred(p: int, s: int)
    ensures (p - 1) * s == p * s - s
  {
  }

  /** The product facts behind one doubling step, over plain numbers. */
  lemma DoublingAlgebra(p: int, q: int, s: int, x: int)
    requires s == p * q && p * s - s <= x
    ensures (s - q) * p <= x
  {
    assert (s - q) * p == p * s - s;
  }

  /** The product fact behind the completing step, over plain numbers. */
  lemma CompletingAlgebra(p: int, s: int, x: int)
    requires s <= p && p * s - s <= x
    ensures (s - 1) * p <= x
  {
    assert (s - 1) * p == p * s - p;
  }

  /** With the top t of n bits set, x >> t is below 2^(n - t). */
  lemma ShiftBelow(x: nat, n: nat, t: nat)
    requires TopOnes(x, n, t)
    ensures ShiftRight(x, t) < Pow2(n - t)
  {
    Pow2Add(t, n - t);
    DivUpper(x, Pow2(t), Pow2(n - t));
  }

  /** With the top t of n bits set and 2t <= n, x >> t has its top t of n - t bits set. */
  lemma ShiftAboveDoubling(x: nat, n: nat, t: nat)
    requires TopOnes(x, n, t) && 2 * t <= n
    ensures Pow2(n - t) - Pow2(n - 2 * t) <= ShiftRight(x, t)
  {
    var P, Q, S := Pow2(t), Pow2(n - 2 * t), Pow2(n - t);
    Pow2Add(t, n - 2 * t);
    Pow2Add(t, n - t);
    Pow2Monotone(n - 2 * t, n - t);
    DoublingAlgebra(P, Q, S, x);
    DivLower(x, P, S - Q);
  }

  /** With the top t of n bits set and n <= 2t, x >> t has every bit below n - t set. */
  lemma ShiftAboveCompleting(x: nat, n: nat, t: nat)
    requires TopOnes(x, n, t) && n <= 2 * t
    ensures Pow2(n - t) - 1 <= ShiftRight(x, t)
  {
    var P, S := Pow2(t), Pow2(n - t);
    Pow2Monotone(n - t, t);
    Pow2Add(t, n - t);
    CompletingAlgebra(P, S, x);
    DivLower(x, P, S - 1);
  }

  /** OR-ing a value z below 2^(n - t) into x keeps x's top t ones and adds at least z. */
  lemma OrKeepsTop(x: nat, n: nat, t: nat, z: nat)
    requires TopOnes(x, n, t) && z < Pow2(n - t)
    ensures Pow2(n) - Pow2(n - t) + z <= BitOr(x, z) < Pow2(n)
  {
    var P, S := Pow2(t), Pow2(n - t);
    Pow2Add(t, n - t);
    MulPred(P, S);
    var c: nat := x - (Pow2(n) - S);
    BitOrSplit(x, P - 1, c, z, n - t);
    BitOrAtLeastRight(c, z);
    Pow2Monotone(n - t, n);
    BitOrBound(x, z, n);
  }

  /** BitOrHigh, for an x already known to split as a * 2^s + c. */
  lemma BitOrSplit(x: nat, a: nat, c: nat, d: nat, s: nat)
    requires x == a * Pow2(s) + c && c < Pow2(s) && d < Pow2(s)
    ensures BitOr(x, d) == a * Pow2(s) + BitOr(c, d)
  {
    BitOrHigh(a, c, d, s);
  }

  /** `x |= x >> t` with 2t <= n: the run of top ones doubles. */
  lemma SmearStepDoubles(x: nat, n: nat, t: nat)
    requires TopOnes(x, n, t) && 1 <= t && 2 * t <= n
    ensures TopOnes(BitOr(x, ShiftRight(x, t)), n, 2 * t)
  {
    ShiftBelow(x, n, t);
    ShiftAboveDoubling(x, n, t);
    OrKeepsTop(x, n, t, ShiftRight(x, t));
  }

  /** `x |= x >> t` with 2t > n: every bit below n is now set. */
  lemma SmearStepCompletes(x: nat, n: nat, t: nat)
    requires TopOnes(x, n, t) && 1 <= t < n < 2 * t
    ensures TopOnes(BitOr(x, ShiftRight(x, t)), n, n)
  {
    ShiftBelow(x, n, t);
    ShiftAboveCompleting(x, n, t);
    OrKeepsTop(x, n, t, ShiftRight(x, t));
    assert Pow2(n - n) == 1;
  }

  /**
   * One smearing step `x |= x >> t` when the top t bits are set: afterwards
   * the top min(2t, n) bits are set.
   */
  lemma SmearStep(x: nat, n: nat, t: nat)
    requires TopOnes(x, n, t) && 1 <= t < n
    ensures TopOnes(BitOr(x, ShiftRight(x, t)), n, if 2 * t <= n then 2 * t else n)
  {
    if 2 * t <= n {
      SmearStepDoubles(x, n, t);
    } else {
      SmearStepCompletes(x, n, t);
    }
  }

  /** Once every bit below n is set, further smearing steps change nothing. */
  lemma SmearSaturated(x: nat, n: nat, k: nat)
    requires TopOnes(x, n, n)
    ensures BitOr(x, ShiftRight(x, k)) == x
  {
    assert Pow2(n - n) == 1;
    assert x == Pow2(n) - 1;
    DivBounds(x, Pow2(k));
    BitOrOnes(n, ShiftRight(x, k));
  }

  /**
   * A smearing step by k, where k is the current run of top ones or the run
   * is already complete; returns the length of the new run.
   */
  lemma SmearBy(x: nat, n: nat, t: nat, k: nat) returns (t': nat)
    requires TopOnes(x, n, t) && 1 <= k && (t == k || t == n)
    ensures TopOnes(BitOr(x, ShiftRight(x, k)), n, t')
    ensures t' == 2 * k || t' == n
  {
    if t == n {
      SmearSaturated(x, n, k);
      t' := n;
    } else {
      SmearStep(x, n, t);
      t' := if 2 * t <= n then 2 * t else n;
    }
  }

  /** Before smearing, the highest set bit is a run of one top one. */
  lemma TopOnesStart(x: nat)
    ensures TopOnes(x, BitLength(x), if BitLength(x) >= 1 then 1 else 0)
  {
    BitLengthBounds(x);
    var n := BitLength(x);
    if n >= 1 {
      assert Pow2(n) == 2 * Pow2(n - 1);
    } else {
      assert Pow2(n - 0) == Pow2(n);
    }
  }

  /** With every bit below n set, the value is 2^n - 1. */
  lemma TopOnesFull(x: nat, n: nat)
    requires TopOnes(x, n, n)
    ensures x + 1 == Pow2(n)
  {
    assert Pow2(n - n) == 1;
  }

  lemma BitLengthBelow31(x: nat)
    requires x < 0x8000_0000
    ensures BitLength(x) <= 31
  {
    BitLengthBounds(x);
    if BitLength(x) > 31 {
      Pow2Constants();
      Pow2Monotone(31, BitLength(x) - 1);
    }
  }

  /**
   * `nextPow2` of the TypeScript and Node.js distributors: decrement, smear the
   * highest set bit into every lower position, increment. JavaScript applies
   * `|` and `>>` to 32-bit signed integers, so the result is only meaningful
   * for n <= 2^31.
   */
  method NextPow2(n: nat) returns (r: nat)
    requires n <= 0x8000_0000
    ensures r == Pow2(CeilLog2(n))
  {
    if n == 0 {
      return 1;
    }
    var m := n - 1;
    ghost var L := BitLength(m);
    assert L == CeilLog2(n);
    BitLengthBounds(m);
    BitLengthBelow31(m);
    ghost var t := if L >= 1 then 1 else 0;
    TopOnesStart(m);
    t := SmearBy(m, L, t, 1);
    m := BitOr(m, ShiftRight(m, 1));
    t := SmearBy(m, L, t, 2);
    m := BitOr(m, ShiftRight(m, 2));
    t := SmearBy(m, L, t, 4);
    m := BitOr(m, ShiftRight(m, 4));
    t := SmearBy(m, L, t, 8);
    m := BitOr(m, ShiftRight(m, 8));
    t := SmearBy(m, L, t, 16);
    m := BitOr(m, ShiftRight(m, 16));
    TopOnesFull(m, L);
    r := m + 1;
  }

  /** Python's `__next_power_of_2`: `1 << (number - 1).bit_length()`. */
  function PyNextPowerOf2(number: nat): (r: nat)
    ensures number >= 1 ==> r == Pow2(CeilLog2(number))
    ensures number == 0 ==> r == 2
  {
    Pow2(PyBitLength(number - 1))
  }
}
