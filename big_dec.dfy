/**
 * java.math.BigDecimal as an unscaled integer and a scale: the number unscaled / 10^scale.
 * Addition, subtraction and multiplication are exact, as in Java; compareTo and max compare
 * values and ignore the scale; setScale(n, RoundingMode.HALF_UP) rounds to the nearest multiple
 * of 10^-n, ties away from zero.
 */
module BigDec {

  function Pow10(n: nat): (p: nat)
    ensures p >= 1
  {
    if n == 0 then 1 else 10 * Pow10(n - 1)
  }

  lemma {:induction false} Pow10Add(a: nat, b: nat)
    ensures Pow10(a + b) == Pow10(a) * Pow10(b)
  {
    if b > 0 {
      Pow10Add(a, b - 1);
      assert Pow10(a + b) == 10 * Pow10(a + b - 1);
    }
  }

  datatype Dec = Dec(unscaled: int, scale: nat)

  /** The number a BigDecimal stands for. */
  function Val(d: Dec): real {
    d.unscaled as real / Pow10(d.scale) as real
  }

  function Abs(x: real): real {
    if x < 0.0 then -x else x
  }

  /** BigDecimal.ZERO and BigDecimal.ONE. */
  const Zero: Dec := Dec(0, 0)
  const One: Dec := Dec(1, 0)

  lemma ValSign(d: Dec)
    ensures Val(d) >= 0.0 <==> d.unscaled >= 0
    ensures Val(d) <= 0.0 <==> d.unscaled <= 0
    ensures Val(d) == 0.0 <==> d.unscaled == 0
  {
  }

  lemma CancelCommonFactor(a: real, b: real, c: real)
    requires b > 0.0 && c > 0.0
    ensures (a * c) / (b * c) == a / b
  {
  }

  lemma QuotientProduct(x: real, y: real, p: real, q: real)
    requires p > 0.0 && q > 0.0
    ensures (x * y) / (p * q) == (x / p) * (y / q)
  {
  }

  /** The same value written with a larger scale, as BigDecimal aligns operands. */
  function Upscale(d: Dec, s: nat): (r: Dec)
    requires d.scale <= s
    ensures r.scale == s && Val(r) == Val(d)
  {
    var k := s - d.scale;
    Pow10Add(d.scale, k);
    CancelCommonFactor(d.unscaled as real, Pow10(d.scale) as real, Pow10(k) as real);
    Dec(d.unscaled * Pow10(k), s)
  }

  function MaxNat(a: nat, b: nat): nat {
    if a >= b then a else b
  }

  /** BigDecimal.add. */
  function Add(a: Dec, b: Dec): (r: Dec)
    ensures Val(r) == Val(a) + Val(b)
  {
    var s := MaxNat(a.scale, b.scale);
    var x, y := Upscale(a, s), Upscale(b, s);
    Dec(x.unscaled + y.unscaled, s)
  }

  /** BigDecimal.subtract. */
  function Sub(a: Dec, b: Dec): (r: Dec)
    ensures Val(r) == Val(a) - Val(b)
  {
    var s := MaxNat(a.scale, b.scale);
    var x, y := Upscale(a, s), Upscale(b, s);
    Dec(x.unscaled - y.unscaled, s)
  }

  lemma QuotientOfProducts(u: int, v: int, p: nat, q: nat)
    requires p >= 1 && q >= 1
    ensures (u * v) as real / (p * q) as real == (u as real / p as real) * (v as real / q as real)
  {
    var x, y := u as real, v as real;
    var pr, qr := p as real, q as real;
    assert (u * v) as real == x * y;
    assert (p * q) as real == pr * qr;
    QuotientProduct(x, y, pr, qr);
  }

  /** Two more places divide the value: Dec(u, s + k) is Dec(u, s) / 10^k. */
  lemma ValShift(u: int, s: nat, k: nat)
    ensures Val(Dec(u, s + k)) == Val(Dec(u, s)) / Pow10(k) as real
  {
    var ps, pk := Pow10(s), Pow10(k);
    Pow10Add(s, k);
    RealOfProduct(ps, pk);
    DivideTwice(u as real, ps as real, pk as real);
  }

  lemma RealOfProduct(a: int, b: int)
    ensures (a * b) as real == a as real * b as real
  {
  }

  lemma DivideTwice(x: real, p: real, q: real)
    requires p > 0.0 && q > 0.0
    ensures x / (p * q) == (x / p) / q
  {
  }

  lemma MulVal(a: Dec, b: Dec)
    ensures Val(Dec(a.unscaled * b.unscaled, a.scale + b.scale)) == Val(a) * Val(b)
  {
    Pow10Add(a.scale, b.scale);
    QuotientOfProducts(a.unscaled, b.unscaled, Pow10(a.scale), Pow10(b.scale));
  }

  /** BigDecimal.multiply. */
  function Mul(a: Dec, b: Dec): (r: Dec)
    ensures Val(r) == Val(a) * Val(b)
  {
    MulVal(a, b);
    Dec(a.unscaled * b.unscaled, a.scale + b.scale)
  }

  /** A product of two numbers of at least 1 is at least 1. */
  lemma MulAtLeastOne(a: Dec, b: Dec)
    requires Val(a) >= 1.0 && Val(b) >= 1.0
    ensures Val(Mul(a, b)) >= 1.0
  {
    var x, y := Val(a), Val(b);
    assert x * y >= x * 1.0;
  }

  /** A product of non-negative numbers is non-negative; a product with zero is zero. */
  lemma MulSign(a: Dec, b: Dec)
    ensures Val(a) >= 0.0 && Val(b) >= 0.0 ==> Val(Mul(a, b)) >= 0.0
    ensures Val(a) == 0.0 ==> Val(Mul(a, b)) == 0.0
  {
    var x, y := Val(a), Val(b);
    assert Val(Mul(a, b)) == x * y;
    if x >= 0.0 && y >= 0.0 {
      assert x * y >= 0.0 * y;
    }
  }

  /** Multiplying by a number worth 1 keeps the value. */
  lemma MulByOne(a: Dec, b: Dec)
    requires Val(b) == 1.0
    ensures Val(Mul(a, b)) == Val(a)
  {
  }

  /**
   * n / d rounded HALF_UP: to the nearest integer, and away from zero on a tie. The two
   * ensures on r * d - n pin the result down uniquely.
   */
  function HalfUp(n: int, d: int): (r: int)
    requires d >= 1
    ensures n >= 0 ==> r >= 0 && -d < 2 * (r * d - n) <= d
    ensures n < 0 ==> r <= 0 && -d <= 2 * (r * d - n) < d
  {
    if n >= 0 then HalfUpNat(n, d) else -HalfUpNat(-n, d)
  }

  function HalfUpNat(n: int, d: int): (r: int)
    requires n >= 0 && d >= 1
    ensures r >= 0 && -d < 2 * (r * d - n) <= d
  {
    var q, m := n / d, n % d;
    assert n == q * d + m;
    assert q >= 0;
    if 2 * m >= d then
      assert (q + 1) * d - n == d - m;
      q + 1
    else
      assert q * d - n == -m;
      q
  }

  lemma ScaledError(u: int, q: int, ps: nat, pk: nat)
    requires ps >= 1 && pk >= 1
    requires -(pk as int) <= 2 * (q * pk - u) <= pk
    ensures 2.0 * Abs(q as real / ps as real - u as real / (ps * pk) as real) * ps as real <= 1.0
  {
    HalfStepAsReal(u, q, pk);
    ScaledErrorReal(q as real, u as real, ps as real, pk as real);
    RealOfProduct(ps, pk);
  }

  lemma HalfStepAsReal(u: int, q: int, pk: int)
    requires -pk <= 2 * (q * pk - u) <= pk
    ensures -(pk as real) <= 2.0 * (q as real * pk as real - u as real) <= pk as real
  {
    RealOfProduct(q, pk);
  }

  lemma ScaledErrorReal(q: real, u: real, p: real, k: real)
    requires p > 0.0 && k > 0.0
    requires -k <= 2.0 * (q * k - u) <= k
    ensures 2.0 * Abs(q / p - u / (p * k)) * p <= 1.0
  {
    var e := q / p - u / (p * k);
    ErrorTimesScale(q, u, p, k);
    AbsTimesPositive(e, p);
    HalfStepBound(q * k - u, k);
    assert 2.0 * Abs(e) * p == 2.0 * (Abs(e) * p);
  }

  lemma ErrorTimesScale(q: real, u: real, p: real, k: real)
    requires p > 0.0 && k > 0.0
    ensures (q / p - u / (p * k)) * p == (q * k - u) / k
  {
    assert (q / p) * p == q;
    assert (u / (p * k)) * p == u / k;
    assert q == (q * k) / k;
  }

  lemma AbsTimesPositive(e: real, p: real)
    requires p > 0.0
    ensures Abs(e) * p == Abs(e * p)
  {
    if e < 0.0 {
      assert e * p < 0.0;
    } else {
      assert e * p >= 0.0;
    }
  }

  lemma HalfStepBound(x: real, k: real)
    requires k > 0.0 && -k <= 2.0 * x <= k
    ensures 2.0 * Abs(x / k) <= 1.0
  {
    var y := x / k;
    assert x == y * k;
    assert (2.0 * y - 1.0) * k == 2.0 * x - k;
    assert (2.0 * y + 1.0) * k == 2.0 * x + k;
    SignOfProduct(2.0 * y - 1.0, k);
    SignOfProduct(2.0 * y + 1.0, k);
  }

  lemma SignOfProduct(a: real, k: real)
    requires k > 0.0
    ensures a * k <= 0.0 ==> a <= 0.0
    ensures a * k >= 0.0 ==> a >= 0.0
  {
  }

  /**
   * setScale(s, RoundingMode.HALF_UP). Widening is exact; narrowing moves the value by at most
   * half a unit of the new last place and never changes its sign. That a tie goes away from zero
   * is stated by SetScaleTiesAwayFromZero.
   */
  function SetScale(d: Dec, s: nat): (r: Dec)
    ensures r.scale == s
    ensures s >= d.scale ==> Val(r) == Val(d)
    ensures 2.0 * Abs(Val(r) - Val(d)) * Pow10(s) as real <= 1.0
    ensures Val(d) >= 0.0 ==> Val(r) >= 0.0
    ensures Val(d) <= 0.0 ==> Val(r) <= 0.0
  {
    ValSign(d);
    if s >= d.scale then
      Upscale(d, s)
    else
      var k := d.scale - s;
      var q := HalfUp(d.unscaled, Pow10(k));
      var r := Dec(q, s);
      Pow10Add(s, k);
      ScaledError(d.unscaled, q, Pow10(s), Pow10(k));
      ValSign(r);
      r
  }

  /**
   * HALF_UP breaks a tie away from zero: when narrowing leaves the value exactly half a unit of
   * the new last place from where it was, the rounded value is the larger in magnitude.
   */
  lemma SetScaleTiesAwayFromZero(d: Dec, s: nat)
    ensures s < d.scale && IsTie(Val(SetScale(d, s)), Val(d), Pow10(s) as real) ==>
              FartherFromZero(Val(SetScale(d, s)), Val(d))
  {
    if s < d.scale {
      var k := d.scale - s;
      var q := HalfUp(d.unscaled, Pow10(k));
      assert SetScale(d, s) == Dec(q, s);
      Pow10Add(s, k);
      TieAwayFromZero(d.unscaled, q, Pow10(s), Pow10(k), Val(SetScale(d, s)), Val(d));
    }
  }

  /** `a` lies exactly half a unit of 1 / p away from `b`. */
  predicate IsTie(a: real, b: real, p: real)
  {
    2.0 * Abs(a - b) * p == 1.0
  }

  /** `a` is farther from zero than `b`. */
  predicate FartherFromZero(a: real, b: real)
  {
    Abs(a) > Abs(b)
  }

  /**
   * When u / (ps * pk) lies exactly half a unit of 1 / ps away from q / ps, and q was rounded
   * HALF_UP, q / ps is the one farther from zero.
   */
  lemma TieAwayFromZero(u: int, q: int, ps: nat, pk: nat, a: real, b: real)
    requires ps >= 1 && pk >= 1
    requires u >= 0 ==> -(pk as int) < 2 * (q * pk - u)
    requires u < 0 ==> 2 * (q * pk - u) < pk
    requires a == q as real / ps as real && b == u as real / (ps * pk) as real
    ensures IsTie(a, b, ps as real) ==> FartherFromZero(a, b)
  {
    RealOfProduct(ps, pk);
    RealOfProduct(q, pk);
    TieReal(q as real, u as real, ps as real, pk as real);
  }

  /** TieAwayFromZero over the reals. */
  lemma TieReal(Q: real, U: real, P: real, K: real)
    requires P > 0.0 && K > 0.0
    requires U >= 0.0 ==> -K < 2.0 * (Q * K - U)
    requires U < 0.0 ==> 2.0 * (Q * K - U) < K
    ensures 2.0 * Abs(Q / P - U / (P * K)) * P == 1.0 ==> Abs(Q / P) > Abs(U / (P * K))
  {
    var e := Q / P - U / (P * K);
    if 2.0 * Abs(e) * P == 1.0 {
      ErrorTimesScale(Q, U, P, K);
      AbsTimesPositive(e, P);
      assert 2.0 * Abs(e) * P == 2.0 * (Abs(e) * P);
      HalfStepExactly(Q * K - U, K);
      TieAwayReal(Q, U, P, K);
    }
  }

  /** x / k at a distance of exactly one half from zero. */
  lemma HalfStepExactly(x: real, k: real)
    requires k > 0.0 && 2.0 * Abs(x / k) == 1.0
    ensures 2.0 * x == k || 2.0 * x == -k
  {
    var y := x / k;
    assert x == y * k;
    assert y == 0.5 || y == -0.5;
  }

  /** The real-number half of TieAwayFromZero. */
  lemma TieAwayReal(Q: real, U: real, P: real, K: real)
    requires P > 0.0 && K > 0.0
    requires U >= 0.0 ==> 2.0 * (Q * K - U) == K
    requires U < 0.0 ==> 2.0 * (Q * K - U) == -K
    ensures Abs(Q / P) > Abs(U / (P * K))
  {
    CancelCommonFactor(Q, P, K);
    var PK := P * K;
    assert PK > 0.0;
    if U >= 0.0 {
      assert Q * K > U;
      DivideStrictly(U, Q * K, PK);
    } else {
      assert Q * K < U;
      DivideStrictly(Q * K, U, PK);
    }
  }

  lemma DivideStrictly(a: real, b: real, p: real)
    requires p > 0.0 && a < b
    ensures a / p < b / p
  {
  }

  /** Rounding never crosses a number of the target scale: setScale is monotone around it. */
  lemma SetScaleKeepsSide(d: Dec, s: nat, m: int)
    ensures Val(d) >= Val(Dec(m, s)) ==> Val(SetScale(d, s)) >= Val(Dec(m, s))
    ensures Val(d) <= Val(Dec(m, s)) ==> Val(SetScale(d, s)) <= Val(Dec(m, s))
  {
    if s < d.scale {
      var k := d.scale - s;
      var pk := Pow10(k);
      var q := HalfUp(d.unscaled, pk);
      assert SetScale(d, s) == Dec(q, s);
      OrderAcrossScales(d.unscaled, m, s, k);
      RoundedKeepsSide(d.unscaled, q, m, pk);
      DivideKeepsOrder(q, m, Pow10(s) as real);
    }
  }

  /** Comparing a number of scale s + k with one of scale s compares their unscaled values. */
  lemma OrderAcrossScales(u: int, m: int, s: nat, k: nat)
    ensures Val(Dec(u, s + k)) >= Val(Dec(m, s)) <==> u >= m * Pow10(k)
    ensures Val(Dec(u, s + k)) <= Val(Dec(m, s)) <==> u <= m * Pow10(k)
  {
    var w := Upscale(Dec(m, s), s + k);
    assert w == Dec(m * Pow10(k), s + k);
    DivideKeepsOrder(u, m * Pow10(k), Pow10(s + k) as real);
  }

  lemma DivideKeepsOrder(a: int, b: int, p: real)
    requires p > 0.0
    ensures a as real / p >= b as real / p <==> a >= b
    ensures a as real / p <= b as real / p <==> a <= b
  {
    assert a as real / p - b as real / p == (a - b) as real / p;
  }

  /** An integer within half a step of `u` does not cross the multiple `m * pk`. */
  lemma RoundedKeepsSide(u: int, q: int, m: int, pk: int)
    requires pk >= 1 && -pk <= 2 * (q * pk - u) <= pk
    ensures u >= m * pk ==> q >= m
    ensures u <= m * pk ==> q <= m
  {
    var e := q - m;
    assert q * pk - m * pk == e * pk;
    if e >= 1 {
      NonNegativeProduct(e - 1, pk);
      assert e * pk == (e - 1) * pk + pk;
    } else if e <= -1 {
      NonNegativeProduct(-e - 1, pk);
      assert e * pk == -((-e - 1) * pk) - pk;
    }
  }

  lemma NonNegativeProduct(a: int, b: int)
    requires a >= 0 && b >= 0
    ensures a * b >= 0
  {
  }

  /** A value that already has at most `s` places is left unchanged by setScale(s). */
  lemma SetScaleExact(d: Dec, s: nat, m: int)
    requires Val(d) == Val(Dec(m, s))
    ensures Val(SetScale(d, s)) == Val(d)
  {
    SetScaleKeepsSide(d, s, m);
  }

  /** BigDecimal.max: this value when it compares at least as large, the argument otherwise. */
  function Max(a: Dec, b: Dec): (r: Dec)
    ensures r == a || r == b
    ensures Val(r) >= Val(a) && Val(r) >= Val(b)
  {
    if Val(a) >= Val(b) then a else b
  }

  /** A value held at scale two is a whole number of hundredths: its unscaled integer. */
  lemma HundredthsOfScaleTwo(d: Dec)
    requires d.scale == 2
    ensures 100.0 * Val(d) == d.unscaled as real
  {
    assert Pow10(2) == 100;
  }

  /**
   * Values parsed from decimal text: new BigDecimal("0.275") is Dec(275, 3), "10432.32" is
   * Dec(1043232, 2) and "100" is Dec(100, 0).
   */
  lemma LiteralValues()
    ensures Val(Dec(275, 3)) == 0.275
    ensures Val(Dec(1043232, 2)) == 10432.32
    ensures Val(Dec(100, 0)) == 100.0
  {
  }
}
