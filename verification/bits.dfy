/** Unsigned integer bit operations as the driver uses them (`&`, `|`, `<<`, `>>`),
    modelled on unbounded naturals, with the 8- and 16-bit widths of the C++ types
    written out as subset types. */
module Bits {

  /** `uint8_t`: one byte on the serial link. */
  type Byte = x: nat | x < 0x100

  /** `uint16_t`: the width of every value the driver passes around. */
  type Word = x: nat | x < 0x1_0000

  function Pow2(k: nat): (r: nat)
    ensures r >= 1
  {
    if k == 0 then 1 else 2 * Pow2(k - 1)
  }

  /** Bit `k` of `x`, counting from the least significant bit. */
  predicate Bit(x: nat, k: nat)
  {
    if k == 0 then x % 2 == 1 else Bit(x / 2, k - 1)
  }

  /** C++ `a | b` on unsigned values. */
  function Or(a: nat, b: nat): nat
    decreases a + b
  {
    if a == 0 then b
    else if b == 0 then a
    else 2 * Or(a / 2, b / 2) + (if a % 2 == 1 || b % 2 == 1 then 1 else 0)
  }

  /** C++ `a & b` on unsigned values. */
  function And(a: nat, b: nat): nat
    decreases a + b
  {
    if a == 0 || b == 0 then 0
    else 2 * And(a / 2, b / 2) + (if a % 2 == 1 && b % 2 == 1 then 1 else 0)
  }

  /** C++ `x << k` before any narrowing of the result: `k` doublings. */
  function Shl(x: nat, k: nat): nat
    decreases k
  {
    if k == 0 then x else Shl(2 * x, k - 1)
  }

  /** C++ `x >> k` on an unsigned value: `k` halvings. */
  function Shr(x: nat, k: nat): nat
  {
    if k == 0 then x else Shr(x / 2, k - 1)
  }

  // ---------------------------------------------------------------------------
  // Arithmetic facts about division by powers of two.

  /** Quotient and remainder are determined by the division equation. */
  lemma DivModUnique(x: int, d: int, q: int, r: int)
    requires d > 0 && 0 <= r < d && x == d * q + r
    ensures x / d == q && x % d == r
  {
    var k := q - x / d;
    assert d * k == x % d - r;
  }

  /** The remainder modulo `q = 2 * p` splits into the low bit and the remainder of the rest. */
  lemma ModDouble(x: nat, p: nat, q: nat)
    requires p > 0 && q == 2 * p
    ensures x % q == 2 * ((x / 2) % p) + x % 2
    ensures (x % q) / 2 == (x / 2) % p
    ensures (x % q) % 2 == x % 2
    ensures x / q == (x / 2) / p
  {
    var h := x / 2;
    var s := h % p;
    assert h == p * (h / p) + s;
    assert x == q * (h / p) + (2 * s + x % 2);
    DivModUnique(x, q, h / p, 2 * s + x % 2);
  }

  /** `x << k` multiplies by `2^k`. */
  lemma {:induction false} ShlIsMul(x: nat, k: nat)
    ensures Shl(x, k) == x * Pow2(k)
    decreases k
  {
    if k > 0 {
      ShlIsMul(2 * x, k - 1);
      assert (2 * x) * Pow2(k - 1) == x * (2 * Pow2(k - 1));
    }
  }

  /** `x >> k` divides by `2^k`. */
  lemma {:induction false} ShrIsDiv(x: nat, k: nat)
    ensures Shr(x, k) == x / Pow2(k)
  {
    if k > 0 {
      ShrIsDiv(x / 2, k - 1);
      ModDouble(x, Pow2(k - 1), Pow2(k));
    }
  }

  // ---------------------------------------------------------------------------
  // The bitwise operations agree with their bit-by-bit reading.

  lemma {:induction false} ZeroHasNoBits(k: nat)
    ensures !Bit(0, k)
  {
    if k > 0 {
      ZeroHasNoBits(k - 1);
    }
  }

  /** `|` sets exactly the bits set in either operand. */
  lemma {:induction false} OrBits(a: nat, b: nat, k: nat)
    ensures Bit(Or(a, b), k) <==> Bit(a, k) || Bit(b, k)
    decreases a + b
  {
    if a == 0 {
      ZeroHasNoBits(k);
    } else if b == 0 {
      ZeroHasNoBits(k);
    } else if k > 0 {
      var c := if a % 2 == 1 || b % 2 == 1 then 1 else 0;
      assert (2 * Or(a / 2, b / 2) + c) / 2 == Or(a / 2, b / 2);
      OrBits(a / 2, b / 2, k - 1);
    }
  }

  /** `&` sets exactly the bits set in both operands. */
  lemma {:induction false} AndBits(a: nat, b: nat, k: nat)
    ensures Bit(And(a, b), k) <==> Bit(a, k) && Bit(b, k)
    decreases a + b
  {
    if a == 0 || b == 0 {
      ZeroHasNoBits(k);
    } else if k > 0 {
      var c := if a % 2 == 1 && b % 2 == 1 then 1 else 0;
      assert (2 * And(a / 2, b / 2) + c) / 2 == And(a / 2, b / 2);
      AndBits(a / 2, b / 2, k - 1);
    }
  }

  /** Or-ing a value below `2^k` into a multiple of `2^k` is addition: the bits do not meet. */
  lemma {:induction false} OrDisjointLow(x: nat, y: nat, k: nat)
    requires y < Pow2(k)
    ensures Or(Shl(x, k), y) == Shl(x, k) + y
  {
    ShlIsMul(x, k);
    var a := x * Pow2(k);
    if k > 0 && a != 0 && y != 0 {
      assert a == 2 * (x * Pow2(k - 1));
      OrDisjointLow(x, y / 2, k - 1);
      ShlIsMul(x, k - 1);
      assert Or(a, y) == 2 * Or(a / 2, y / 2) + y % 2;
    }
  }

  /** Masking with a single power of two tests that bit (`data & j` with `j == 2^k`). */
  lemma {:induction false} AndPow2(x: nat, k: nat)
    ensures And(x, Pow2(k)) == if Bit(x, k) then Pow2(k) else 0
  {
    if x == 0 {
      ZeroHasNoBits(k);
    } else if k == 0 {
      assert And(x / 2, 0) == 0;
    } else {
      AndPow2(x / 2, k - 1);
    }
  }

  /** Masking with `2^n - 1` keeps the low `n` bits (`data & 0xFF == data % 256`). */
  lemma {:induction false} AndLowMask(x: nat, n: nat)
    ensures And(x, Pow2(n) - 1) == x % Pow2(n)
  {
    if n == 0 {
      assert And(x, 0) == 0;
    } else if x == 0 {
      assert And(0, Pow2(n) - 1) == 0;
    } else {
      var m := Pow2(n) - 1;
      AndOdd(x, m);
      assert m / 2 == Pow2(n - 1) - 1;
      AndLowMask(x / 2, n - 1);
      ModDouble(x, Pow2(n - 1), Pow2(n));
    }
  }

  lemma AndOdd(x: nat, m: nat)
    requires m % 2 == 1
    ensures And(x, m) == 2 * And(x / 2, m / 2) + x % 2
  {
    if x == 0 {
      assert And(0, m / 2) == 0;
    }
  }

  /** Reducing modulo `2^n` leaves the bits below `n` alone. */
  lemma {:induction false} BitOfLow(x: nat, n: nat, k: nat)
    requires k < n
    ensures Bit(x % Pow2(n), k) <==> Bit(x, k)
  {
    ModDouble(x, Pow2(n - 1), Pow2(n));
    if k > 0 {
      BitOfLow(x / 2, n - 1, k - 1);
    }
  }
}
