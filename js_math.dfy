/** Integer division and remainder as the JavaScript code computes them.
    Dafny's `/` and `%` are Euclidean, which for a positive divisor is
    `Math.floor(a / d)` and a remainder in `0..d-1`; JavaScript's `%` and
    dayjs's day difference instead truncate toward zero. */
module JsMath {

  /** `a / d` rounded toward zero (dayjs's rounding of a day difference). */
  function TruncDiv(a: int, d: int): (q: int)
    requires d > 0
    ensures q >= 0 <==> a > -d
    ensures q <= 0 <==> a < d
  {
    if a >= 0 then DivSign(a, d); a / d
    else DivSign(-a, d); -((-a) / d)
  }

  /** The floor quotient of a non-negative number is non-negative, and zero
      exactly below the divisor. */
  lemma DivSign(n: int, d: int)
    requires n >= 0 && d > 0
    ensures n / d >= 0 && (n / d == 0 <==> n < d)
  {
    var q, r := n / d, n % d;
    assert n == d * q + r && 0 <= r < d;
    if q >= 1 {
      MulAtLeast(d, q);
    }
  }

  /** JavaScript's `a % d`: the remainder takes the sign of the dividend. */
  function Rem(a: int, d: int): (r: int)
    requires d > 0
    ensures a == d * TruncDiv(a, d) + r
    ensures a >= 0 ==> 0 <= r < d
    ensures a < 0 ==> -d < r <= 0
  {
    if a >= 0 then a % d else -((-a) % d)
  }

  /** Euclidean division is determined by its quotient-remainder equation. */
  lemma DivUnique(x: int, d: int, q: int, r: int)
    requires d > 0 && x == d * q + r && 0 <= r < d
    ensures x / d == q && x % d == r
  {
    var q', r' := x / d, x % d;
    assert x == d * q' + r';
    assert d * (q - q') == r' - r;
    if q > q' {
      MulAtLeast(d, q - q');
    } else if q < q' {
      MulAtLeast(d, q' - q);
    }
  }

  lemma MulAtLeast(d: int, k: int)
    requires d > 0 && k >= 1
    ensures d * k >= d
  {
    assert d * k == d + d * (k - 1);
  }

  /** Two successive `Math.floor` divisions equal one division by the product,
      for negative dividends as well. */
  lemma NestedFloor(x: int, a: int, b: int)
    requires a > 0 && b > 0
    ensures (x / a) / b == x / (a * b)
  {
    var q, r := x / a, x % a;
    var q2, r2 := q / b, q % b;
    assert x == a * q + r;
    assert q == b * q2 + r2;
    Regroup(a, b, q2, r2);
    assert x == (a * b) * q2 + (a * r2 + r);
    RemainderBelowProduct(a, b, r2, r);
    DivUnique(x, a * b, q2, a * r2 + r);
  }

  lemma Regroup(a: int, b: int, q: int, r: int)
    ensures a * (b * q + r) == (a * b) * q + a * r
  {
  }

  lemma RemainderBelowProduct(a: int, b: int, r2: int, r: int)
    requires a > 0 && 0 <= r2 < b && 0 <= r < a
    ensures 0 <= a * r2 + r < a * b
  {
    assert a * r2 <= a * (b - 1);
    assert a * (b - 1) + a == a * b;
  }

  /** Truncation and flooring agree on non-negative dividends; on a negative
      dividend that is not a multiple of `d` truncation is one above the floor. */
  lemma TruncVersusFloor(a: int, d: int)
    requires d > 0
    ensures a >= 0 ==> TruncDiv(a, d) == a / d
    ensures a < 0 && a % d == 0 ==> TruncDiv(a, d) == a / d
    ensures a < 0 && a % d != 0 ==> TruncDiv(a, d) == a / d + 1
  {
    if a < 0 {
      var q, r := a / d, a % d;
      var n := -a;
      if r == 0 {
        DivUnique(n, d, -q, 0);
      } else {
        assert n == d * (-q - 1) + (d - r);
        DivUnique(n, d, -q - 1, d - r);
      }
    }
  }

  /** Flooring `-a` against truncating `a`: the same magnitude when `a` is not
      positive or is a multiple of `d`, one further down otherwise. */
  lemma FloorOfNegation(a: int, d: int)
    requires d > 0
    ensures a <= 0 ==> (-a) / d == -TruncDiv(a, d)
    ensures a > 0 && a % d == 0 ==> (-a) / d == -TruncDiv(a, d)
    ensures a > 0 && a % d != 0 ==> (-a) / d == -TruncDiv(a, d) - 1
  {
    if a > 0 {
      TruncVersusFloor(-a, d);
      var q, r := a / d, a % d;
      assert a == d * q + r;
      if r == 0 {
        DivUnique(-a, d, -q, 0);
      } else {
        assert -a == d * (-q - 1) + (d - r);
        DivUnique(-a, d, -q - 1, d - r);
      }
    }
  }
}
