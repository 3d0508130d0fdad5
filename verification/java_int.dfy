/** Java's 32-bit `int` arithmetic written out over Dafny's unbounded integers:
    the saturating cast `(int) Math.floor(d)`, two's-complement wrap-around of
    `+` and `*`, and `/`, which rounds toward zero. */
module JavaInt {

  const IntMin: int := -0x8000_0000
  const IntMax: int := 0x7FFF_FFFF
  const Modulus: int := 0x1_0000_0000

  /** True when `x` is a value of Java's `int`. */
  predicate InRange(x: int) {
    IntMin <= x <= IntMax
  }

  function Abs(x: int): nat {
    if x < 0 then -x else x
  }

  /** The `int` that a Java `+` or `*` yields when the exact result is `x`. */
  function Wrap(x: int): (r: int)
    ensures InRange(r)
    ensures InRange(x) ==> r == x
  {
    (x - IntMin) % Modulus + IntMin
  }

  /** The wrapped value differs from the exact one by a multiple of 2^32;
      with `InRange` this determines it (see `WrapCongruent`). */
  lemma WrapIsCongruent(x: int)
    ensures (x - Wrap(x)) % Modulus == 0
  {
  }

  /** Two exact values that differ by a multiple of 2^32 wrap to the same `int`. */
  lemma WrapCongruent(a: int, b: int)
    requires (a - b) % Modulus == 0
    ensures Wrap(a) == Wrap(b)
  {
    WrapIsCongruent(a);
    WrapIsCongruent(b);
    var d := Wrap(a) - Wrap(b);
    assert d % Modulus == 0;
    assert -Modulus < d < Modulus;
  }

  /** Wrapping an intermediate sum does not change the wrapped total, so
      Java's `a + b + c` is the wrap of the exact sum. */
  lemma WrapOfPartialSum(a: int, b: int, c: int)
    ensures Wrap(Wrap(a + b) + c) == Wrap(a + b + c)
  {
    WrapIsCongruent(a + b);
    WrapCongruent(Wrap(a + b) + c, a + b + c);
  }

  /** `(int) Math.floor(v)`: the greatest integer not above `v`, saturated at
      the bounds of `int` as Java's narrowing conversion does. */
  function FloorToInt(v: real): (r: int)
    ensures InRange(r)
    ensures r == IntMin || r as real <= v
    ensures r == IntMax || v < (r + 1) as real
  {
    if v.Floor < IntMin then IntMin
    else if v.Floor > IntMax then IntMax
    else v.Floor
  }

  /** Java's integer `/`: the quotient rounded toward zero, so the remainder
      takes the sign of the dividend (Dafny's own `/` is Euclidean). The one
      overflowing case, `IntMin / -1`, is not reached by this model, which
      only divides by 100. */
  function TruncDiv(a: int, b: int): (q: int)
    requires b != 0
    ensures a >= 0 ==> 0 <= a - q * b < Abs(b)
    ensures a < 0 ==> 0 <= q * b - a < Abs(b)
  {
    if (a >= 0) == (b > 0) then Abs(a) / Abs(b) else -(Abs(a) / Abs(b))
  }

  /** On a non-negative dividend and a positive divisor the two divisions agree. */
  lemma TruncDivOfNonNegative(a: int, b: int)
    requires a >= 0 && b > 0
    ensures TruncDiv(a, b) == a / b
  {
  }

  /** The quotient rounded toward zero is unique: any `q` whose remainder lies
      on the dividend's side of zero, within one divisor, is `TruncDiv(a, b)`. */
  lemma TruncDivUnique(a: int, b: int, q: int)
    requires b > 0
    requires a >= 0 ==> 0 <= a - q * b < b
    requires a < 0 ==> 0 <= q * b - a < b
    ensures q == TruncDiv(a, b)
  {
    var t := TruncDiv(a, b);
    var d := (q - t) * b;
    assert d == q * b - t * b;
    assert -b < d < b;
    if q < t {
      MultipleAtLeastDivisor(t - q, b);
    } else if q > t {
      MultipleAtLeastDivisor(q - t, b);
    }
  }

  lemma MultipleAtLeastDivisor(k: int, b: int)
    requires k >= 1 && b > 0
    ensures k * b >= b
  {
  }
}
