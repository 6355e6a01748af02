/** The behaviour of Go's `int` on a 64-bit platform: its range, the
    two's-complement wrap-around of `+`, `-` and `*`, and the `/` operator,
    which truncates toward zero (Dafny's own `/` on `int` is Euclidean). */
module GoInt {

  const MinInt64: int := -0x8000_0000_0000_0000
  const MaxInt64: int := 0x7fff_ffff_ffff_ffff
  const Modulus: int := 0x1_0000_0000_0000_0000

  /** A value a Go `int` variable can hold. */
  type Int64 = x: int | MinInt64 <= x <= MaxInt64

  /** The two's-complement reduction of a mathematical integer into the
      `int` range, as Go's arithmetic does on overflow. */
  function Wrap(x: int): (r: Int64)
    ensures (r - x) % Modulus == 0
    ensures MinInt64 <= x <= MaxInt64 ==> r == x
  {
    (x - MinInt64) % Modulus + MinInt64
  }

  function Abs(x: int): (r: int)
    ensures 0 <= r && (r == x || r == -x)
  {
    if x < 0 then -x else x
  }

  /** Go's integer quotient: the mathematical quotient truncated toward
      zero, so the remainder `a - q * b` has the sign of `a` and is smaller
      than `b` in magnitude. */
  function TruncDiv(a: int, b: int): (q: int)
    requires b != 0
    ensures 0 <= a ==> 0 <= a - q * b < Abs(b)
    ensures a < 0 ==> -Abs(b) < a - q * b <= 0
    ensures Abs(q) <= Abs(a)
  {
    var m := Abs(a) / Abs(b);
    DivBounds(Abs(a), Abs(b));
    if (a < 0) == (b < 0) then
      SameSignProduct(a, b, m);
      m
    else
      OppositeSignProduct(a, b, m);
      -m
  }

  /** Euclidean division of naturals, in the form the sign cases use. */
  lemma DivBounds(x: int, y: int)
    requires 0 <= x && 0 < y
    ensures x == (x / y) * y + x % y && 0 <= x % y < y
    ensures 0 <= x / y <= x
  {
    var m := x / y;
    assert x == m * y + x % y;
    MulMono(m, y);
  }

  lemma MulMono(m: int, y: int)
    requires 0 <= m && 1 <= y
    ensures m <= m * y
  {
    assert m * y == m * (y - 1) + m;
    assert m * (y - 1) >= 0;
  }

  lemma SameSignProduct(a: int, b: int, m: int)
    requires b != 0 && (a < 0) == (b < 0)
    ensures a < 0 ==> m * b == -(m * Abs(b))
    ensures 0 <= a ==> m * b == m * Abs(b)
  {
  }

  lemma OppositeSignProduct(a: int, b: int, m: int)
    requires b != 0 && (a < 0) != (b < 0)
    ensures a < 0 ==> (-m) * b == -(m * Abs(b))
    ensures 0 <= a ==> (-m) * b == m * Abs(b)
  {
  }

  /** The conditions above determine the quotient: any `q` that leaves a
      remainder of the dividend's sign and smaller than the divisor is
      `TruncDiv(a, b)`. */
  lemma TruncDivUnique(a: int, b: int, q: int)
    requires b != 0
    requires 0 <= a ==> 0 <= a - q * b < Abs(b)
    requires a < 0 ==> -Abs(b) < a - q * b <= 0
    ensures q == TruncDiv(a, b)
  {
    var t := TruncDiv(a, b);
    var r1, r2 := a - t * b, a - q * b;
    assert -Abs(b) < r1 - r2 < Abs(b);
    if q != t {
      Distribute(q, t, b);
      MulAtLeast(q - t, b);
    }
  }

  lemma Distribute(q: int, t: int, b: int)
    ensures q * b - t * b == (q - t) * b
  {
  }

  lemma MulAtLeast(d: int, b: int)
    requires d != 0 && b != 0
    ensures Abs(d * b) >= Abs(b)
  {
    if b > 0 {
      if d > 0 { assert d * b >= 1 * b; } else { assert d * b <= (-1) * b; }
    } else {
      if d > 0 { assert d * b <= 1 * b; } else { assert d * b >= (-1) * b; }
    }
  }

  /** Go's `/` on `int`: the truncated quotient, except that the one
      overflowing case, `MinInt64 / -1`, wraps back to `MinInt64`. */
  function GoDiv(a: Int64, b: Int64): (q: Int64)
    requires b != 0
    ensures !(a == MinInt64 && b == -1) ==> q == TruncDiv(a, b)
    ensures a == MinInt64 && b == -1 ==> q == MinInt64
  {
    if a == MinInt64 && b == -1 then
      TruncDivUnique(a, b, -MinInt64);
      Wrap(TruncDiv(a, b))
    else
      QuotientInRange(a, b);
      TruncDiv(a, b)
  }

  /** Apart from `MinInt64 / -1`, the quotient of two `int` values is an `int`. */
  lemma QuotientInRange(a: Int64, b: Int64)
    requires b != 0 && !(a == MinInt64 && b == -1)
    ensures MinInt64 <= TruncDiv(a, b) <= MaxInt64
  {
  }
}
