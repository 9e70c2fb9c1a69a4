/** Java's 32-bit `int` arithmetic, as far as the filter uses it: the value
    range, two's complement wrap-around, `Math.abs(int)` and the `%` operator. */
module JavaInt {

  const MIN_VALUE: int := -0x8000_0000
  const MAX_VALUE: int := 0x7fff_ffff
  const MODULUS: int := 0x1_0000_0000

  /** A value of Java type `int`. */
  type Int32 = x: int | MIN_VALUE <= x <= MAX_VALUE

  /** The magnitude of an unbounded integer. */
  function Mag(x: int): nat {
    if x < 0 then -x else x
  }

  /** The `int` that two's complement arithmetic leaves for the mathematical value `x`:
      the unique representative of `x` modulo 2^32 in the `int` range. */
  function Wrap(x: int): (r: Int32)
    ensures (x - r) % MODULUS == 0
    ensures MIN_VALUE <= x <= MAX_VALUE ==> r == x
  {
    (x - MIN_VALUE) % MODULUS + MIN_VALUE
  }

  /** `Math.abs(int)`: the magnitude of `x`, except that `Integer.MIN_VALUE`,
      whose magnitude is not an `int`, overflows to itself. */
  function Abs(x: Int32): (r: Int32)
    ensures x != MIN_VALUE ==> r >= 0 && r == Mag(x)
    ensures x == MIN_VALUE ==> r == MIN_VALUE
  {
    Wrap(Mag(x))
  }

  /** The `%` operator on `int` operands: the remainder of the division that
      rounds toward zero, so it takes the sign of the dividend. The ensures
      clauses are the characterisation of section 15.17.3 of the Java Language
      Specification, and they determine the result uniquely. */
  function Rem(a: Int32, b: Int32): (r: Int32)
    requires b != 0
    ensures Mag(r) < Mag(b)
    ensures a >= 0 ==> r >= 0
    ensures a <= 0 ==> r <= 0
    ensures (a - r) % Mag(b) == 0
  {
    RemainderDivides(Mag(a), Mag(b));
    if a < 0 then -(Mag(a) % Mag(b)) else Mag(a) % Mag(b)
  }

  /** Taking away the remainder leaves a multiple of the divisor, of either sign. */
  lemma RemainderDivides(a: nat, b: nat)
    requires b > 0
    ensures (a - a % b) % b == 0
    ensures (a % b - a) % b == 0
  {
    var q := a / b;
    assert a - a % b == q * b;
    assert a % b - a == (-q) * b;
    MultipleMod(q, b);
    MultipleMod(-q, b);
  }

  /** A multiple of a positive `b` leaves remainder 0 modulo `b`. */
  lemma MultipleMod(q: int, b: int)
    requires b > 0
    ensures (q * b) % b == 0
  {
    var x := q * b;
    var k := q - x / b;
    assert k * b == x % b;
  }
}
