/**
  The part of the `monkey/object` value system that the virtual machine touches:
  a value is either the Go `nil` interface (the zero content of a fresh stack
  slot), an `*object.Integer` carrying a signed 64-bit payload, or some other
  object the machine does not compute with. Also the 64-bit signed arithmetic
  of Go, written out: wrap-around modulo 2^64 and division truncating toward zero.
 */
module Object {

  const MinInt64: int := -0x8000_0000_0000_0000
  const MaxInt64: int := 0x7fff_ffff_ffff_ffff
  /** Number of distinct int64 values; Go's int64 arithmetic is exact modulo this. */
  const Modulus: int := 0x1_0000_0000_0000_0000

  newtype int64 = x: int | -0x8000_0000_0000_0000 <= x <= 0x7fff_ffff_ffff_ffff

  datatype Value =
    | Nil                      // Go's nil object.Object
    | Integer(value: int64)    // *object.Integer
    | Other                    // any other object.Object variant

  predicate InInt64(x: int) {
    MinInt64 <= x <= MaxInt64
  }

  /** The two's-complement reading of the low 64 bits of `x`: what a Go int64
      holds after an operation whose exact result is `x`. */
  function Wrap64(x: int): (r: int64)
    ensures (r as int - x) % Modulus == 0
    ensures InInt64(x) ==> r as int == x
  {
    var low := x % Modulus;
    if low <= MaxInt64 then low as int64 else (low - Modulus) as int64
  }

  function Abs(x: int): (r: nat) {
    if x < 0 then -x else x
  }

  /** `q` is the quotient of `a` by `b` rounded toward zero: the remainder
      `a - q * b` is smaller than the divisor in magnitude and, when it is not
      zero, has the sign of the dividend. */
  predicate IsTruncQuotient(a: int, b: int, q: int) {
    var rem := a - q * b;
    Abs(rem) < Abs(b) && (rem == 0 || (rem < 0 <==> a < 0))
  }

  /** Go's integer division on unbounded integers (before int64 wrap-around):
      the quotient of the magnitudes, negated when the signs differ. */
  function TruncDiv(a: int, b: int): (q: int)
    requires b != 0
  {
    if (a < 0) == (b < 0) then Abs(a) / Abs(b) else -(Abs(a) / Abs(b))
  }

  /** Products of negated factors. */
  lemma MulSigns(x: int, y: int)
    ensures (-x) * y == -(x * y) && x * (-y) == -(x * y) && (-x) * (-y) == x * y
  {
  }

  /** Dividing the magnitudes and giving the quotient the sign of the
      operands' product truncates toward zero. */
  lemma SignedQuotient(a: int, b: int, Q: int, R: int)
    requires b != 0 && Q >= 0 && 0 <= R < Abs(b)
    requires Abs(a) == Q * Abs(b) + R
    ensures IsTruncQuotient(a, b, if (a < 0) == (b < 0) then Q else -Q)
  {
    MulSigns(Q, b);
    var q := if (a < 0) == (b < 0) then Q else -Q;
    if a >= 0 && b > 0 {
      assert a - q * b == R;
    } else if a < 0 && b < 0 {
      assert Q * Abs(b) == -(Q * b);
      assert a - q * b == -R;
    } else if a >= 0 {
      assert Q * Abs(b) == -(Q * b);
      assert a - q * b == R;
    } else {
      assert a - q * b == -R;
    }
  }

  /** TruncDiv meets the truncating-quotient specification. */
  lemma TruncDivIsTruncQuotient(a: int, b: int)
    requires b != 0
    ensures IsTruncQuotient(a, b, TruncDiv(a, b))
  {
    var A: int, B: int := Abs(a), Abs(b);
    SignedQuotient(a, b, A / B, A % B);
  }

  /** A non-zero multiple of `b` is at least `b` in magnitude. */
  lemma NonZeroMultiple(d: int, b: int)
    requires d != 0
    ensures Abs(d * b) >= Abs(b)
  {
    if d > 0 && b >= 0 {
      assert d * b >= 1 * b;
    } else if d > 0 {
      assert d * b <= 1 * b;
    } else if b >= 0 {
      assert d * b <= (-1) * b;
    } else {
      assert d * b >= (-1) * b;
    }
  }

  /** At most one quotient meets the truncating-quotient specification. */
  lemma TruncQuotientUnique(a: int, b: int, q1: int, q2: int)
    requires b != 0
    requires IsTruncQuotient(a, b, q1) && IsTruncQuotient(a, b, q2)
    ensures q1 == q2
  {
    var r1, r2 := a - q1 * b, a - q2 * b;
    // Both remainders lie on the dividend's side of zero, so their difference
    // is smaller than the divisor in magnitude.
    assert Abs(r2 - r1) < Abs(b);
    assert r2 - r1 == (q1 - q2) * b;
    if q1 != q2 {
      NonZeroMultiple(q1 - q2, b);
    }
  }

  /** TruncDiv is exactly the truncating quotient: it meets the specification,
      and any quotient that meets it is TruncDiv's. */
  lemma TruncDivCharacterized(a: int, b: int, q: int)
    requires b != 0
    ensures IsTruncQuotient(a, b, q) <==> q == TruncDiv(a, b)
  {
    TruncDivIsTruncQuotient(a, b);
    if IsTruncQuotient(a, b, q) {
      TruncQuotientUnique(a, b, q, TruncDiv(a, b));
    }
  }
}
