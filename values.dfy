/**
 * 32-bit values as the expression compiler computes them.
 *
 * `ExprValue` is a C++ `int` (two's complement, 32 bits) and `ExprUValue` its
 * `unsigned int` view. Dafny integers are unbounded, so every wrap-around,
 * every unsigned reinterpretation and the truncating C++ `/` and `%` are
 * written out here.
 */
module Values {

  const Modulus: int := 0x1_0000_0000
  const MinValue: int := -0x8000_0000
  const MaxValue: int := 0x7fff_ffff

  /** A C++ `int` (`ExprValue`). */
  type Value = x: int | -0x8000_0000 <= x < 0x8000_0000
  /** The return types of the host readers: `uint8_t`, `uint16_t`, `uint32_t`. */
  type U8 = x: int | 0 <= x < 0x100
  type U16 = x: int | 0 <= x < 0x1_0000
  type U32 = x: int | 0 <= x < 0x1_0000_0000

  /** Reduces any integer to the `int` that is congruent to it modulo 2^32. */
  function Wrap(x: int): (r: Value)
    ensures (r - x) % Modulus == 0
    ensures MinValue <= x <= MaxValue ==> r == x
  {
    (x + 0x8000_0000) % 0x1_0000_0000 - 0x8000_0000
  }

  /** Wrap picks the only 32-bit value in the residue class of its argument. */
  lemma {:induction false} WrapUnique(x: int, y: Value)
    requires (y - x) % Modulus == 0
    ensures y == Wrap(x)
  {
    var c := (y - x) / Modulus;
    assert y == x + c * Modulus;
    WrapShift(x, c);
    assert Wrap(y) == y;
  }

  /** Adding a multiple of 2^32 does not change the wrapped value. */
  lemma {:induction false} WrapShift(x: int, c: int)
    ensures Wrap(x + c * Modulus) == Wrap(x)
  {
    var u := x + 0x8000_0000;
    var q := u / Modulus;
    assert u == Modulus * q + u % Modulus;
    ModUnique(u + c * Modulus, q + c, u % Modulus);
  }

  lemma {:induction false} ModUnique(a: int, t: int, r: int)
    requires a == Modulus * t + r && 0 <= r < Modulus
    ensures a % Modulus == r
  {
  }

  /** Wrapping an intermediate result changes nothing about the final wrap. */
  lemma {:induction false} WrapStep(x: int, k: int, d: int)
    ensures Wrap(Wrap(x) * k + d) == Wrap(x * k + d)
  {
    var c := -((x + 0x8000_0000) / Modulus);
    assert Wrap(x) == x + c * Modulus;
    assert Wrap(x) * k + d == (x * k + d) + (c * k) * Modulus;
    WrapShift(x * k + d, c * k);
  }

  lemma {:induction false} WrapMulAdd(n: int, k: int, d: int)
    ensures Wrap(Wrap(Wrap(n) * k) + d) == Wrap(n * k + d)
  {
    var p := Wrap(n) * k;
    WrapStep(p, 1, d);
    assert Wrap(Wrap(p) + d) == Wrap(p + d);
    WrapStep(n, k, d);
  }

  /** The `(unsigned int)` cast of an `int`. */
  function ToU32(v: Value): (u: U32)
    ensures (u - v) % Modulus == 0
  {
    if v < 0 then v + Modulus else v
  }

  /** The `(int)` cast of an `unsigned int` (two's complement reinterpretation). */
  function FromU32(u: U32): (v: Value)
    ensures (v - u) % Modulus == 0
    ensures v == Wrap(u)
  {
    if u <= MaxValue then u else u - Modulus
  }

  /** C++ boolean-to-int conversion: comparisons and logical operators yield 0 or 1. */
  function FromBool(b: bool): (r: Value)
    ensures r == 0 || r == 1
    ensures (r == 1) == b
  {
    if b then 1 else 0
  }

  function Pow2(n: nat): (r: nat)
    ensures r >= 1
  {
    if n == 0 then 1 else 2 * Pow2(n - 1)
  }

  lemma {:induction false} Pow2Values()
    ensures Pow2(8) == 0x100 && Pow2(16) == 0x1_0000 && Pow2(31) == 0x8000_0000
  {
    assert Pow2(4) == 16;
    assert Pow2(8) == 0x100;
    assert Pow2(16) == 0x1_0000;
    assert Pow2(24) == 0x100_0000;
    assert Pow2(31) == 0x8000_0000;
  }

  /** `~a`: in two's complement the bitwise complement is `-a - 1`. */
  function Complement(a: Value): (r: Value)
    ensures ToU32(r) == Modulus - 1 - ToU32(a)
  {
    -(a as int) - 1
  }

  /** The three binary bitwise operators of C++. */
  datatype BitwiseOp = And | Or | Xor

  function CombineBits(op: BitwiseOp, x: bool, y: bool): bool
  {
    match op
    case And => x && y
    case Or => x || y
    case Xor => x != y
  }

  /** Applies `op` to the low `n` bits of `x` and `y`, bit by bit from bit 0 upwards. */
  function Bitwise(op: BitwiseOp, x: nat, y: nat, n: nat): (r: nat)
    ensures r < Pow2(n)
    decreases n
  {
    if n == 0 then 0
    else
      (if CombineBits(op, x % 2 == 1, y % 2 == 1) then 1 else 0) + 2 * Bitwise(op, x / 2, y / 2, n - 1)
  }

  /** `a & b`, `a | b` and `a ^ b` on `int`: the operator on the 32-bit patterns. */
  function BitwiseValue(op: BitwiseOp, a: Value, b: Value): (r: Value)
    ensures ToU32(r) == Bitwise(op, ToU32(a), ToU32(b), 32)
  {
    Pow2Values();
    FromU32(Bitwise(op, ToU32(a), ToU32(b), 32))
  }

  /** Bits above both operands' highest set bit combine to zero. */
  lemma {:induction false} LowBits(op: BitwiseOp, x: nat, y: nat, k: nat, n: nat)
    requires k <= n && x < Pow2(k) && y < Pow2(k)
    ensures Bitwise(op, x, y, n) == Bitwise(op, x, y, k)
    decreases k
  {
    if k == 0 {
      ZeroBits(op, n);
    } else {
      LowBits(op, x / 2, y / 2, k - 1, n - 1);
    }
  }

  lemma {:induction false} ZeroBits(op: BitwiseOp, n: nat)
    ensures Bitwise(op, 0, 0, n) == 0
    decreases n
  {
    if n > 0 {
      ZeroBits(op, n - 1);
    }
  }

  /** Or-ing a number of fewer than `n` bits with zero gives the number back. */
  lemma {:induction false} OrZero(z: nat, n: nat)
    requires z < Pow2(n)
    ensures Bitwise(Or, 0, z, n) == z
    decreases n
  {
    if n > 0 {
      OrZero(z / 2, n - 1);
    }
  }

  /** `z` shifted left by `k` bit positions, by doubling. */
  function Doubled(z: nat, k: nat): nat
    decreases k
  {
    if k == 0 then z else 2 * Doubled(z, k - 1)
  }

  lemma {:induction false} DoubledIsProduct(z: nat, k: nat)
    ensures Doubled(z, k) == z * Pow2(k)
    decreases k
  {
    if k > 0 {
      DoubledIsProduct(z, k - 1);
      MulTwice(z, Pow2(k - 1));
    }
  }

  lemma {:induction false} MulTwice(z: int, p: int)
    ensures z * (2 * p) == 2 * (z * p)
  {
  }

  /**
   * Or-ing `x < 2^k` with `z` shifted left by `k` is addition: the set bits
   * do not overlap. (This is how a 24-bit value is assembled from a word
   * and a byte.)
   */
  lemma {:induction false} OrDisjoint(x: nat, z: nat, k: nat, n: nat)
    requires k <= n && x < Pow2(k) && z < Pow2(n - k)
    ensures Bitwise(Or, x, Doubled(z, k), n) == x + Doubled(z, k)
    decreases k
  {
    if k == 0 {
      OrZero(z, n);
    } else {
      OrDisjoint(x / 2, z, k - 1, n - 1);
    }
  }

  function Abs(x: int): nat
  {
    if x < 0 then -x else x
  }

  /**
   * C++ `/` on integers: the quotient truncated toward zero (not Dafny's
   * Euclidean `/`).
   */
  function TruncDiv(n: int, d: int): int
    requires d != 0
  {
    var q := Abs(n) / Abs(d);
    if (n < 0) == (d < 0) then q else -q
  }

  /** C++ `%` on integers: the magnitude remainder with the sign of the dividend. */
  function TruncRem(n: int, d: int): int
    requires d != 0
  {
    var m := Abs(n) % Abs(d);
    if n < 0 then -m else m
  }

  /**
   * The C++ division identity `(n / d) * d + n % d == n`; the quotient is
   * the magnitude quotient with the sign of the operands' product, and the
   * remainder is smaller than the divisor in magnitude and has the sign of
   * the dividend.
   */
  lemma {:induction false} TruncDivRem(n: int, d: int)
    requires d != 0
    ensures TruncDiv(n, d) * d + TruncRem(n, d) == n
    ensures Abs(TruncDiv(n, d)) == Abs(n) / Abs(d)
    ensures TruncDiv(n, d) != 0 ==> ((TruncDiv(n, d) < 0) <==> ((n < 0) != (d < 0)))
    ensures Abs(TruncRem(n, d)) < Abs(d)
    ensures TruncRem(n, d) == 0 || ((TruncRem(n, d) < 0) <==> (n < 0))
  {
    var a, b := Abs(n), Abs(d);
    var q, m := a / b, a % b;
    EuclideanParts(a, b);
    SignedProduct(q, b, n < 0, d < 0);
  }

  lemma {:induction false} EuclideanParts(a: nat, b: nat)
    requires b > 0
    ensures a == b * (a / b) + a % b && 0 <= a % b < b
  {
  }

  /** The product of two signed magnitudes is the signed product of the magnitudes. */
  lemma {:induction false} SignedProduct(q: int, b: int, negN: bool, negD: bool)
    ensures (if negN == negD then q else -q) * (if negD then -b else b)
         == (if negN then -(b * q) else b * q)
  {
  }

  /** `INT_MIN / -1` (and `INT_MIN % -1`) overflow, which C++ leaves undefined. */
  predicate DivisionOverflows(n: Value, d: Value)
  {
    n == MinValue && d == -1
  }

  /** `int / int` where it is defined. */
  function Quotient(n: Value, d: Value): (q: Value)
    requires d != 0 && !DivisionOverflows(n, d)
    ensures q == TruncDiv(n, d)
  {
    QuotientFits(n, d);
    TruncDiv(n, d)
  }

  lemma {:induction false} QuotientFits(n: Value, d: Value)
    requires d != 0 && !DivisionOverflows(n, d)
    ensures MinValue <= TruncDiv(n, d) <= MaxValue
  {
    DivBound(Abs(n), Abs(d));
    if Abs(d) == 1 {
      assert Abs(n) / Abs(d) == Abs(n);
      assert n != MinValue || d == 1;
    } else {
      DivBoundStrict(Abs(n), Abs(d));
    }
  }

  lemma {:induction false} MulAtLeast(d: int, q: int)
    requires d >= 1 && q >= 0
    ensures d * q >= q
  {
    var e := d - 1;
    assert d * q == e * q + q;
    assert e * q >= 0;
  }

  lemma {:induction false} DivBound(n: nat, d: nat)
    requires d >= 1
    ensures n / d <= n
  {
    var q := n / d;
    assert n == d * q + n % d;
    MulAtLeast(d, q);
  }

  lemma {:induction false} DivBoundStrict(n: nat, d: nat)
    requires d >= 2 && n <= 0x8000_0000
    ensures n / d < 0x8000_0000
  {
    var q := n / d;
    assert n == d * q + n % d;
    MulAtLeast(d - 1, q);
    assert d * q == (d - 1) * q + q;
  }

  /** `int % int` where it is defined. */
  function Remainder(n: Value, d: Value): (r: Value)
    requires d != 0 && !DivisionOverflows(n, d)
    ensures r == TruncRem(n, d)
  {
    TruncDivRem(n, d);
    TruncRem(n, d)
  }

  /** A shift count C++ defines: 0 to 31. */
  predicate ValidShiftCount(b: Value)
  {
    0 <= b < 32
  }

  /** `a << b` on a non-negative `int`, wrapping bits shifted past bit 31. */
  function ShiftLeft(a: Value, b: Value): (r: Value)
    requires a >= 0 && ValidShiftCount(b)
    ensures (r - a * Pow2(b)) % Modulus == 0
  {
    Wrap(a * Pow2(b))
  }

  /** Halves `x` `n` times, rounding toward negative infinity each time. */
  function Halve(x: int, n: nat): (r: int)
    ensures x >= 0 ==> 0 <= r <= x
    ensures x < 0 ==> x <= r < 0
    decreases n
  {
    if n == 0 then x else Halve(x / 2, n - 1)
  }

  /** Division with a positive divisor is determined by any quotient and remainder in range. */
  lemma {:induction false} DivUnique(a: int, m: int, t: int, r: int)
    requires m > 0 && a == m * t + r && 0 <= r < m
    ensures a / m == t
  {
    var t0, r0 := a / m, a % m;
    assert m * (t0 - t) == r - r0;
    if t0 > t {
      MulAtLeast(t0 - t, m);
    } else if t0 < t {
      MulAtLeast(t - t0, m);
    }
  }

  /** Halving and then dividing by `p` is dividing by `2 * p`. */
  lemma {:induction false} HalfThenDivide(x: int, p: int)
    requires p >= 1
    ensures (x / 2) / p == x / (2 * p)
  {
    var q := x / 2;
    var t, s := q / p, q % p;
    assert q == p * t + s;
    assert x == 2 * q + x % 2;
    assert 2 * q == (2 * p) * t + 2 * s;
    DivUnique(x, 2 * p, t, 2 * s + x % 2);
  }

  /** Halving `n` times, rounding down each time, is one floor division by 2^n. */
  lemma {:induction false} HalveDivides(x: int, n: nat)
    ensures Halve(x, n) == x / Pow2(n)
    decreases n
  {
    if n > 0 {
      HalveDivides(x / 2, n - 1);
      HalfThenDivide(x, Pow2(n - 1));
    }
  }

  /** `a >> b` on an `int`: arithmetic, the sign bit is copied in from the top. */
  function ShiftRightArithmetic(a: Value, b: Value): (r: Value)
    requires ValidShiftCount(b)
    ensures r == a / Pow2(b)
    ensures (r < 0) == (a < 0)
    ensures Abs(r) <= Abs(a)
  {
    HalveDivides(a, b);
    Halve(a, b)
  }

  /** `(int)((unsigned)a >> (unsigned)b)`: logical, zeros come in from the top. */
  function ShiftRightLogical(a: Value, b: Value): (r: Value)
    requires ValidShiftCount(b)
    ensures ToU32(r) == ToU32(a) / Pow2(b)
    ensures ToU32(r) == Halve(ToU32(a), b)
  {
    HalveDivides(ToU32(a), b);
    FromU32(Halve(ToU32(a), b))
  }

  /**
   * The two right shifts agree on non-negative operands and differ on every
   * negative one shifted by at least one bit.
   */
  lemma {:induction false} ShiftRightAgreement(a: Value, b: Value)
    requires ValidShiftCount(b)
    ensures a >= 0 ==> ShiftRightArithmetic(a, b) == ShiftRightLogical(a, b)
    ensures a < 0 && b > 0 ==> ShiftRightArithmetic(a, b) < 0 <= ShiftRightLogical(a, b)
  {
    if a < 0 && b > 0 {
      var u := ToU32(a);
      assert Halve(u, b) == Halve(u / 2, b - 1);
      assert u / 2 <= MaxValue;
    }
  }
}
