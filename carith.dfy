/** C and C++ integer arithmetic as the pendant's firmware sees it.
    Dafny's `/` and `%` are Euclidean; C++ truncates toward zero, and
    assigning to an `int16_t` keeps the low sixteen bits. */
module CArith {

  const INT16_MIN: int := -0x8000
  const INT16_MAX: int := 0x7FFF

  predicate IsInt16(x: int) { INT16_MIN <= x <= INT16_MAX }

  function Abs(x: int): (r: nat)
    ensures r == x || r == -x
  {
    if x < 0 then -x else x
  }

  /** C++ `a / b`: the quotient rounded toward zero. */
  function TDiv(a: int, b: int): (q: int)
    requires b != 0
    ensures Abs(b) * Abs(q) <= Abs(a) < Abs(b) * Abs(q) + Abs(b)
    ensures q == 0 || ((q > 0) <==> ((a > 0) == (b > 0)))
  {
    TDivBounds(a, b);
    if (a < 0) == (b < 0) then Abs(a) / Abs(b) else -(Abs(a) / Abs(b))
  }

  lemma TDivBounds(a: int, b: int)
    requires b != 0
    ensures var m := Abs(a) / Abs(b);
            Abs(b) * m <= Abs(a) < Abs(b) * m + Abs(b) && m >= 0 && (m > 0 ==> a != 0)
  {
    var n, d := Abs(a), Abs(b);
    EuclidNat(n, d);
    if a == 0 {
      assert n == 0;
      ZeroDiv(d);
    }
  }

  lemma ZeroDiv(d: nat)
    requires d > 0
    ensures 0 / d == 0
  {
  }

  lemma EuclidNat(n: nat, d: nat)
    requires d > 0
    ensures n / d >= 0
    ensures n == d * (n / d) + n % d && 0 <= n % d < d
    ensures d * (n / d) <= n < d * (n / d) + d
  {
  }

  /** C++ `a % b`: what is left after truncating division; its sign is
      the sign of the dividend. */
  function TMod(a: int, b: int): (r: int)
    requires b != 0
    ensures a == b * TDiv(a, b) + r
    ensures Abs(r) < Abs(b)
    ensures r == 0 || ((r > 0) <==> (a > 0))
  {
    var m := Abs(a) % Abs(b);
    var q := TDiv(a, b);
    TModIdentity(a, b);
    if a < 0 then -m else m
  }

  lemma TModIdentity(a: int, b: int)
    requires b != 0
    ensures a == b * TDiv(a, b) + (if a < 0 then -(Abs(a) % Abs(b)) else Abs(a) % Abs(b))
  {
    var n: int, d: int := Abs(a), Abs(b);
    var m, r := n / d, n % d;
    EuclidNat(n, d);
    var p := d * m;
    assert n == p + r;
    var q := TDiv(a, b);
    assert q == if (a < 0) == (b < 0) then m else -m;
    if b > 0 {
      assert b == d;
      if a < 0 { assert b * q == -p; } else { assert b * q == p; }
    } else {
      assert b == -d;
      if a < 0 { assert q == m; NegMul(d, m); assert b * q == -p; }
      else { assert q == -m; NegNegMul(d, m); assert b * q == p; }
    }
  }

  lemma NegMul(d: int, m: int)
    ensures (-d) * m == -(d * m)
  {
  }

  lemma NegNegMul(d: int, m: int)
    ensures (-d) * (-m) == d * m
  {
  }

  /** The value an `int16_t` receives when `x` is assigned to it. */
  function Wrap16(x: int): (r: int)
    ensures IsInt16(r)
    ensures (r - x) % 0x1_0000 == 0
    ensures IsInt16(x) ==> r == x
  {
    (x + 0x8000) % 0x1_0000 - 0x8000
  }

  /** The value a 32-bit `unsigned long` receives when `x` is converted
      to it, as C++ converts the `int32_t` operand of a subtraction whose
      other operand is an `unsigned long`. */
  function U32(x: int): (r: nat)
    ensures r < 0x1_0000_0000 && (r - x) % 0x1_0000_0000 == 0
  {
    x % 0x1_0000_0000
  }

  /** A deadline not yet reached, tested by the sign of `now - deadline`
      taken as a signed difference. */
  predicate Pending(now: int, deadline: int)
  {
    now - deadline < 0
  }

  /** The same test when `now` is an `unsigned long`: the difference is
      taken modulo 2^32 and so is never negative. */
  function PendingUnsigned(now: int, deadline: int): (b: bool)
    ensures !b
  {
    U32(now - deadline) < 0
  }

  /** Dafny's `%` and `/` are determined by the quotient-remainder pair. */
  lemma ModUnique(x: int, q: int, r: int, n: int)
    requires n > 0 && x == q * n + r && 0 <= r < n
    ensures x % n == r && x / n == q
  {
    var q2, r2 := x / n, x % n;
    assert x == q2 * n + r2;
    if q2 != q {
      var m := q2 - q;
      SubMul(q2, q, n);
      assert m * n == r - r2;
      if m > 0 { MulAtLeast(m, n); } else { MulAtLeast(-m, n); NegMul(m, n); }
    }
  }

  lemma SubMul(a: int, b: int, n: int)
    ensures (a - b) * n == a * n - b * n
  {
  }

  lemma MulAtLeast(m: int, n: int)
    requires m >= 1 && n > 0
    ensures m * n >= n
  {
    assert m * n == (m - 1) * n + n;
  }

  /** Reducing before adding does not change the residue. */
  lemma ModAddMod(x: int, s: int, n: int)
    requires n > 0
    ensures ((x % n) + s) % n == (x + s) % n
  {
    var q, r := x / n, x % n;
    var q2, r2 := (r + s) / n, (r + s) % n;
    assert r + s == q2 * n + r2;
    assert q * n + q2 * n == (q + q2) * n;
    assert x + s == (q + q2) * n + r2;
    ModUnique(x + s, q + q2, r2, n);
  }

  lemma MulSucc(q: int, n: int)
    ensures (q + 1) * n == q * n + n
  {
  }

  lemma MulLeR(a: int, b: int, m: int)
    requires a <= b && m >= 0
    ensures a * m <= b * m
  {
    SubMul(b, a, m);
    assert (b - a) * m >= 0;
  }

  /** A quotient of a number at most `c` times the divisor is at most `c`. */
  lemma MulLtCancel(a: int, b: int, m: int)
    requires m > 0 && a * m < b * m
    ensures a < b
  {
    if a >= b {
      MulLeR(b, a, m);
    }
  }

  lemma DivBounded(x: int, m: int, c: int)
    requires m > 0 && 0 <= x <= c * m
    ensures 0 <= x / m <= c
  {
    var q, r := x / m, x % m;
    EuclidNat(x, m);
    if q > c {
      MulLeR(c + 1, q, m);
      MulSucc(c, m);
      assert false;
    }
  }

  /** Division by a positive number is monotone. */
  lemma DivMono(a: int, b: int, m: int)
    requires m > 0 && 0 <= a <= b
    ensures a / m <= b / m
  {
    var qa, qb := a / m, b / m;
    EuclidNat(a, m);
    EuclidNat(b, m);
    if qb < qa {
      MulLeR(qb + 1, qa, m);
      MulSucc(qb, m);
      assert false;
    }
  }
}
