/** The Int atom: a Java 32-bit int, its literal syntax, its printed form and
    its arithmetic (wrap-around for + - *, truncation toward zero for / and %). */
module Ints {
  import opened Results

  const MIN: int := -0x8000_0000
  const MAX: int := 0x7fff_ffff
  const MODULUS: int := 0x1_0000_0000

  newtype i32 = x: int | -0x8000_0000 <= x <= 0x7fff_ffff

  function Abs(x: int): nat { if x < 0 then -x else x }

  /** Two integers are congruent modulo 2^32, as Java int arithmetic sees them. */
  predicate Congruent(x: int, y: int) { (x - y) % MODULUS == 0 }

  /** Reduces an exact result to the 32-bit int Java stores. */
  function Wrap(x: int): (r: i32)
    ensures Congruent(r as int, x)
    ensures MIN <= x <= MAX ==> r as int == x
  {
    var k := (x - MIN) / MODULUS;
    assert (x - MIN) % MODULUS == x - MIN - k * MODULUS;
    (x - MIN - k * MODULUS + MIN) as i32
  }

  /** Division rounding toward zero, as Java's / on int. */
  function TruncDiv(a: int, b: int): int
    requires b != 0
  {
    var q := Abs(a) / Abs(b);
    if (a < 0) == (b < 0) then q else -q
  }

  /** Remainder taking the sign of the dividend, as Java's % on int. */
  function TruncMod(a: int, b: int): int
    requires b != 0
  {
    var m := Abs(a) % Abs(b);
    if a < 0 then -m else m
  }

  /** The defining properties of Java's / and %: quotient times divisor plus
      remainder gives back the dividend, the remainder is smaller than the
      divisor and has the dividend's sign, and the quotient rounds toward zero. */
  lemma TruncDivMod(a: int, b: int)
    requires b != 0
    ensures TruncDiv(a, b) * b + TruncMod(a, b) == a
    ensures Abs(TruncMod(a, b)) < Abs(b)
    ensures TruncMod(a, b) == 0 || ((TruncMod(a, b) < 0) == (a < 0))
    ensures Abs(TruncDiv(a, b) * b) <= Abs(a)
  {
    var p := QuotientProduct(a, b);
    assert TruncMod(a, b) == (if a < 0 then -(Abs(a) % Abs(b)) else Abs(a) % Abs(b));
  }

  /** The product of the truncated quotient and the divisor: the multiple of
      |b| that fits in |a|, with a's sign. */
  lemma QuotientProduct(a: int, b: int) returns (p: int)
    requires b != 0
    ensures 0 <= p <= Abs(a) && Abs(a) == p + Abs(a) % Abs(b)
    ensures TruncDiv(a, b) * b == (if a < 0 then -p else p)
  {
    var A, B: int := Abs(a), Abs(b);
    var q: int := A / B;
    p := q * B;
    assert A == p + A % B && 0 <= A % B;
    assert 0 <= p by { ProductNonNegative(q, B); }
    assert TruncDiv(a, b) == (if (a < 0) != (b < 0) then -q else q);
    assert b == (if b < 0 then -B else B);
    SignedProduct(q, B, (a < 0) != (b < 0), b < 0);
  }

  /** A product of two factors with their signs chosen independently. */
  lemma SignedProduct(x: int, y: int, negX: bool, negY: bool)
    ensures (if negX then -x else x) * (if negY then -y else y) == (if negX == negY then x * y else -(x * y))
  {
    MulSigns(x, y);
  }

  lemma MulSigns(x: int, y: int)
    ensures (-x) * y == -(x * y) && x * (-y) == -(x * y) && (-x) * (-y) == x * y
  {
  }

  lemma ProductNonNegative(x: int, y: int)
    requires 0 <= x && 0 <= y
    ensures 0 <= x * y
  {
  }

  function Plus(a: i32, b: i32): (r: i32)
    ensures Congruent(r as int, a as int + b as int)
    ensures MIN <= a as int + b as int <= MAX ==> r as int == a as int + b as int
  {
    Wrap(a as int + b as int)
  }

  function Minus(a: i32, b: i32): (r: i32)
    ensures Congruent(r as int, a as int - b as int)
    ensures MIN <= a as int - b as int <= MAX ==> r as int == a as int - b as int
  {
    Wrap(a as int - b as int)
  }

  function Multiply(a: i32, b: i32): (r: i32)
    ensures Congruent(r as int, a as int * b as int)
    ensures MIN <= a as int * b as int <= MAX ==> r as int == a as int * b as int
  {
    Wrap(a as int * b as int)
  }

  /** Java's a / b. The only quotient outside 32 bits, MIN / -1, wraps to MIN. */
  function Divide(a: i32, b: i32): (r: i32)
    requires b != 0
    ensures !(a as int == MIN && b == -1) ==> r as int == TruncDiv(a as int, b as int)
    ensures a as int == MIN && b == -1 ==> r as int == MIN
  {
    var q := TruncDiv(a as int, b as int);
    QuotientInRange(a as int, b as int);
    Wrap(q)
  }

  /** A 32-bit quotient only leaves the 32-bit range for MIN / -1. */
  lemma QuotientInRange(a: int, b: int)
    requires b != 0 && MIN <= a <= MAX
    ensures !(a == MIN && b == -1) ==> MIN <= TruncDiv(a, b) <= MAX
  {
    var q := QuotientMagnitude(a, b);
    if Abs(b) == 1 {
      assert b == 1 ==> TruncDiv(a, b) == a;
      assert b == -1 ==> TruncDiv(a, b) == -a;
    }
  }

  /** The magnitude of the truncated quotient: at most |a|, exactly |a| for a
      divisor of magnitude one, and at most half of |a| otherwise. */
  lemma QuotientMagnitude(a: int, b: int) returns (q: int)
    requires b != 0
    ensures TruncDiv(a, b) == q || TruncDiv(a, b) == -q
    ensures 0 <= q <= Abs(a)
    ensures Abs(b) == 1 ==> q == Abs(a)
    ensures Abs(b) >= 2 ==> 2 * q <= Abs(a)
  {
    q := Abs(a) / Abs(b);
    NatQuotient(Abs(a), Abs(b));
  }

  lemma NatQuotient(x: int, y: int)
    requires 0 <= x && 1 <= y
    ensures 0 <= x / y <= x
    ensures y == 1 ==> x / y == x
    ensures y >= 2 ==> 2 * (x / y) <= x
  {
    var q: int := x / y;
    assert q * y + x % y == x && 0 <= x % y;
    assert 0 <= q;
    assert q * 1 <= q * y by { MulMonotone(q, 1, y); }
    if y >= 2 {
      assert q * 2 <= q * y by { MulMonotone(q, 2, y); }
    }
  }

  lemma MulMonotone(x: int, y: int, z: int)
    requires 0 <= x && y <= z
    ensures x * y <= x * z
  {
  }

  /** Java's a % b; never overflows. */
  function Mod(a: i32, b: i32): (r: i32)
    requires b != 0
    ensures r as int == TruncMod(a as int, b as int)
  {
    TruncDivMod(a as int, b as int);
    TruncMod(a as int, b as int) as i32
  }

  /** Java's identity (a / b) * b + a % b == a holds for the 32-bit
      operations too, MIN / -1 included. */
  lemma DivideModIdentity(a: i32, b: i32)
    requires b != 0
    ensures Plus(Multiply(Divide(a, b), b), Mod(a, b)) == a
  {
    TruncDivMod(a as int, b as int);
    var q, m := TruncDiv(a as int, b as int), TruncMod(a as int, b as int);
    if a as int == MIN && b == -1 {
      assert Divide(a, b) as int == MIN;
      assert m == 0;
    } else {
      assert Divide(a, b) as int == q;
      assert MIN <= q * (b as int) <= MAX;
    }
  }

  /** Int.largerThan: strict comparison. */
  function LargerThan(a: i32, b: i32): bool { a > b }

  // ---- literal syntax -------------------------------------------------------

  predicate IsDigit(c: char) { '0' <= c <= '9' }

  predicate AllDigits(s: string) { forall i :: 0 <= i < |s| ==> IsDigit(s[i]) }

  /** Int.isNumber: the whole text matches -?\d+ (\d is an ASCII digit). */
  predicate IsNumber(s: string)
  {
    if |s| > 0 && s[0] == '-' then |s| > 1 && AllDigits(s[1..]) else |s| > 0 && AllDigits(s)
  }

  /** The value of a decimal digit string, most significant digit first. */
  function DigitsValue(s: string): nat
    requires AllDigits(s)
  {
    if s == [] then 0 else DigitsValue(s[..|s| - 1]) * 10 + (s[|s| - 1] as int - '0' as int)
  }

  /** Integer.parseInt on a literal that isNumber accepted. */
  function ParseInt(s: string): (r: Result<i32>)
    requires IsNumber(s)
  {
    var v: int := if s[0] == '-' then -(DigitsValue(s[1..]) as int) else DigitsValue(s);
    if MIN <= v <= MAX then Ok(v as i32) else Err(HostError(NumberFormat))
  }

  function DigitChar(d: nat): char
    requires d < 10
  {
    ('0' as int + d) as char
  }

  /** The decimal digits of n, without leading zeros. */
  function NatToString(n: nat): (s: string)
    ensures |s| > 0 && AllDigits(s)
  {
    if n < 10 then [DigitChar(n)] else NatToString(n / 10) + [DigitChar(n % 10)]
  }

  /** Integer.toString. */
  function ToString(v: i32): string
  {
    if v < 0 then "-" + NatToString(-(v as int)) else NatToString(v as int)
  }

  lemma {:induction false} NatToStringValue(n: nat)
    ensures DigitsValue(NatToString(n)) == n
  {
    if n >= 10 {
      NatToStringValue(n / 10);
      var s := NatToString(n);
      assert s[..|s| - 1] == NatToString(n / 10);
    }
  }

  /** Printing an Int and reading it back gives the same Int. */
  lemma ToStringRoundTrip(v: i32)
    ensures IsNumber(ToString(v))
    ensures ParseInt(ToString(v)) == Ok(v)
  {
    if v < 0 {
      var s := ToString(v);
      assert s[1..] == NatToString(-(v as int));
      NatToStringValue(-(v as int));
    } else {
      NatToStringValue(v as int);
    }
  }
}
