/** Integer powers and congruences modulo a positive m, shared by the
    number-theory days. */
module Modular {
  import opened Common

  /** The `%` of Kotlin, Java and Go: the remainder takes the sign of the
      dividend. */
  function TRem(a: int, b: int): int
    requires b != 0
  {
    if a >= 0 then a % Abs(b) else -((-a) % Abs(b))
  }

  /** The `/` of Kotlin, Java and Go: the quotient is truncated toward zero. */
  function TDiv(a: int, b: int): int
    requires b != 0
  {
    var q := if a >= 0 then a / Abs(b) else -((-a) / Abs(b));
    if b > 0 then q else -q
  }

  lemma TDivRem(a: int, b: int)
    requires b != 0
    ensures a == TDiv(a, b) * b + TRem(a, b)
    ensures Abs(TRem(a, b)) < Abs(b)
    ensures a >= 0 ==> TRem(a, b) >= 0
    ensures a < 0 ==> TRem(a, b) <= 0
  {
    var m := Abs(b);
    if a >= 0 {
      assert a == (a / m) * m + a % m;
    } else {
      assert -a == ((-a) / m) * m + (-a) % m;
    }
  }

  /** Java's `Math.floorMod`: the remainder takes the sign of the divisor. */
  function FloorMod(a: int, b: int): int
    requires b != 0
  {
    if b > 0 then a % b else -((-a) % (-b))
  }

  /** d divides a, for a nonzero d of either sign. */
  predicate Divides(d: int, a: int)
  {
    d != 0 && a % Abs(d) == 0
  }

  lemma DividesMultiple(d: int, k: int)
    requires d != 0
    ensures Divides(d, k * d)
  {
    var m := Abs(d);
    if d > 0 {
      ModUnique(k * d, m, k, 0);
    } else {
      assert k * d == (-k) * m;
      ModUnique(k * d, m, -k, 0);
    }
  }

  lemma DividesWitness(d: int, a: int)
    requires Divides(d, a)
    ensures a == (a / Abs(d)) * Abs(d)
  {
  }

  /** A common divisor of a and b divides q·a + p·b. */
  lemma DividesCombination(d: int, a: int, b: int, q: int, p: int)
    requires Divides(d, a) && Divides(d, b)
    ensures Divides(d, q * a + p * b)
  {
    var m := Abs(d);
    var ka, kb := a / m, b / m;
    assert a == ka * m && b == kb * m;
    assert q * a + p * b == (q * ka + p * kb) * m;
    ModUnique(q * a + p * b, m, q * ka + p * kb, 0);
  }
  function Pow(b: int, e: nat): int
  {
    if e == 0 then 1 else b * Pow(b, e - 1)
  }

  lemma MulAtLeast(d: int, m: int)
    requires d >= 1 && m > 0
    ensures d * m >= m
  {
    assert d * m == (d - 1) * m + m;
  }

  /** Division with a non-negative remainder below m is unique. */
  lemma ModUnique(a: int, m: int, q: int, r: int)
    requires m > 0 && a == q * m + r && 0 <= r < m
    ensures a % m == r && a / m == q
  {
    var q', r' := a / m, a % m;
    assert (q - q') * m == r' - r;
    if q > q' {
      MulAtLeast(q - q', m);
    } else if q < q' {
      MulAtLeast(q' - q, m);
    }
  }

  lemma AddMultiple(x: int, k: int, m: int)
    requires m > 0
    ensures (x + k * m) % m == x % m
  {
    assert x + k * m == (x / m + k) * m + x % m;
    ModUnique(x + k * m, m, x / m + k, x % m);
  }

  lemma MulMod(a: int, b: int, m: int)
    requires m > 0
    ensures ((a % m) * b) % m == (a * b) % m
  {
    var q := a / m;
    assert a * b == (a % m) * b + (q * b) * m;
    AddMultiple((a % m) * b, q * b, m);
  }

  lemma {:induction false} PowAdd(b: int, x: nat, y: nat)
    ensures Pow(b, x + y) == Pow(b, x) * Pow(b, y)
  {
    if x > 0 {
      PowAdd(b, x - 1, y);
    }
  }

  lemma {:induction false} PowMul(b: int, x: nat, y: nat)
    ensures Pow(b, x * y) == Pow(Pow(b, x), y)
  {
    if y > 0 {
      PowMul(b, x, y - 1);
      assert x * y == x * (y - 1) + x;
      PowAdd(b, x * (y - 1), x);
    }
  }

  /** Congruent bases have congruent powers. */
  lemma {:induction false} PowCongruent(a: int, b: int, n: nat, m: int)
    requires m > 0 && a % m == b % m
    ensures Pow(a, n) % m == Pow(b, n) % m
  {
    if n > 0 {
      PowCongruent(a, b, n - 1, m);
      MulMod(a, Pow(a, n - 1), m);
      MulMod(b, Pow(b, n - 1), m);
      MulMod(Pow(a, n - 1), a % m, m);
      MulMod(Pow(b, n - 1), b % m, m);
      assert (a % m) * Pow(a, n - 1) == Pow(a, n - 1) * (a % m);
    }
  }
}
