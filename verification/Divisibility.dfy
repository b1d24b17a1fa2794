/** Divisibility, greatest common divisors and least common multiples of natural numbers. */
module Divisibility {

  predicate Divides(d: nat, n: nat) { d > 0 && n % d == 0 }

  lemma MulMod(d: nat, q: int)
    requires d > 0
    ensures d * q % d == 0
  {
    assert d * q == q * d + 0;
    MulModUnique(d * q, d, q, 0);
  }

  lemma SuccMod(n: nat, m: nat)
    requires m > 0
    ensures (n + 1) % m == if n % m + 1 == m then 0 else n % m + 1
  {
    var q, r := n / m, n % m;
    assert n == q * m + r;
    if r + 1 == m {
      assert n + 1 == (q + 1) * m;
      MulModUnique(n + 1, m, q + 1, 0);
    } else {
      MulModUnique(n + 1, m, q, r + 1);
    }
  }

  lemma MulModUnique(n: int, d: nat, q: int, r: int)
    requires d > 0 && n == q * d + r && 0 <= r < d
    ensures n % d == r && n / d == q
  {
    var q', r' := n / d, n % d;
    assert n == q' * d + r';
    assert (q - q') * d == r' - r;
    if q > q' {
      assert (q - q') * d >= d by { MulAtLeast(q - q', d); }
    } else if q < q' {
      assert (q' - q) * d >= d by { MulAtLeast(q' - q, d); }
    }
  }

  lemma MulAtLeast(k: int, d: nat)
    requires k >= 1
    ensures k * d >= d
  {}

  lemma DividesMul(d: nat, q: nat)
    requires d > 0
    ensures Divides(d, d * q) && Divides(d, q * d)
  {
    MulMod(d, q);
    assert d * q == q * d;
  }

  /** The quotient that witnesses divisibility. */
  lemma Quotient(d: nat, n: nat)
    requires Divides(d, n)
    ensures n == d * (n / d)
  {}

  lemma DividesTrans(a: nat, b: nat, c: nat)
    requires Divides(a, b) && Divides(b, c)
    ensures Divides(a, c)
  {
    var x, y := b / a, c / b;
    Quotient(a, b);
    Quotient(b, c);
    assert c == a * (x * y) by { assert (a * x) * y == a * (x * y); }
    DividesMul(a, x * y);
  }

  lemma DividesCombination(d: nat, a: nat, b: nat, x: int, y: int)
    requires Divides(d, a) && Divides(d, b)
    ensures (a * x + b * y) % d == 0
  {
    var p, q := a / d, b / d;
    Quotient(d, a);
    Quotient(d, b);
    assert a * x == d * (p * x) by { assert (d * p) * x == d * (p * x); }
    assert b * y == d * (q * y) by { assert (d * q) * y == d * (q * y); }
    assert a * x + b * y == d * (p * x + q * y) by {
      assert d * (p * x + q * y) == d * (p * x) + d * (q * y);
    }
    MulMod(d, p * x + q * y);
  }

  lemma DividesLe(d: nat, n: nat)
    requires Divides(d, n) && n > 0
    ensures d <= n
  {}

  // ----- gcd -----

  function Gcd(a: nat, b: nat): nat
    decreases b
  {
    if b == 0 then a else Gcd(b, a % b)
  }

  /** Extended Euclid. */
  lemma {:induction false} Bezout(a: nat, b: nat) returns (x: int, y: int)
    ensures a * x + b * y == Gcd(a, b)
    decreases b
  {
    if b == 0 {
      x, y := 1, 0;
    } else {
      var x', y' := Bezout(b, a % b);
      var q := a / b;
      x, y := y', x' - q * y';
      assert a == q * b + a % b;
      calc {
        a * x + b * y;
        (q * b + a % b) * y' + b * (x' - q * y');
        { Rearrange(q, b, a % b, x', y'); }
        b * x' + (a % b) * y';
      }
    }
  }

  lemma Rearrange(q: int, b: int, r: int, x: int, y: int)
    ensures (q * b + r) * y + b * (x - q * y) == b * x + r * y
  {
    assert (q * b + r) * y == q * b * y + r * y;
    assert b * (x - q * y) == b * x - b * (q * y);
    assert q * b * y == b * (q * y);
  }

  lemma {:induction false} GcdDivides(a: nat, b: nat)
    requires a > 0 || b > 0
    ensures Gcd(a, b) > 0 && Divides(Gcd(a, b), a) && Divides(Gcd(a, b), b)
    decreases b
  {
    if b > 0 {
      GcdDivides(b, a % b);
      var g := Gcd(b, a % b);
      assert a == b * (a / b) + (a % b) * 1;
      DividesCombination(g, b, a % b, a / b, 1);
    }
  }

  lemma GcdGreatest(d: nat, a: nat, b: nat)
    requires (a > 0 || b > 0) && Divides(d, a) && Divides(d, b)
    ensures Divides(d, Gcd(a, b))
  {
    var x, y := Bezout(a, b);
    DividesCombination(d, a, b, x, y);
  }

  // ----- lcm -----

  function Lcm(a: nat, b: nat): nat
    requires a > 0 && b > 0
  {
    GcdDivides(a, b);
    a / Gcd(a, b) * b
  }

  lemma LcmShape(a: nat, b: nat, g: nat, p: nat, q: nat)
    requires a == g * p && b == g * q
    ensures p * b == a * q && p * b * g == a * b
  {
    assert p * (g * q) == (g * p) * q;
    assert p * b * g == (g * p) * b;
  }

  lemma LcmMultiple(a: nat, b: nat)
    requires a > 0 && b > 0
    ensures Lcm(a, b) > 0 && Divides(a, Lcm(a, b)) && Divides(b, Lcm(a, b))
    ensures Lcm(a, b) * Gcd(a, b) == a * b
  {
    GcdDivides(a, b);
    var g := Gcd(a, b);
    Quotient(g, a);
    Quotient(g, b);
    LcmShape(a, b, g, a / g, b / g);
    DividesMul(a, b / g);
    DividesMul(b, a / g);
    assert a * b > 0;
  }

  lemma LcmCombination(a: nat, b: nat, m: nat, p: nat, q: nat, x: int, y: int)
    requires m == a * p && m == b * q
    ensures m * (a * x + b * y) == a * b * (q * x + p * y)
  {
    assert m * (a * x) == (b * q) * (a * x) == a * b * (q * x);
    assert m * (b * y) == (a * p) * (b * y) == a * b * (p * y);
  }

  lemma LcmLeast(a: nat, b: nat, m: nat)
    requires a > 0 && b > 0 && Divides(a, m) && Divides(b, m)
    ensures Divides(Lcm(a, b), m)
  {
    LcmMultiple(a, b);
    GcdDivides(a, b);
    var l, g := Lcm(a, b), Gcd(a, b);
    var x, y := Bezout(a, b);
    var p, q := m / a, m / b;
    Quotient(a, m);
    Quotient(b, m);
    LcmCombination(a, b, m, p, q, x, y);
    CancelRight(m, l, q * x + p * y, g);
    MulMod(l, q * x + p * y);
  }

  lemma CancelRight(m: int, l: int, k: int, g: nat)
    requires g > 0 && m * g == l * g * k
    ensures m == l * k
  {
    assert l * g * k == (l * k) * g;
    assert (m - l * k) * g == 0;
  }

  // ----- powers of two in a least common multiple -----

  function Pow2(k: nat): (r: nat)
    ensures r > 0
  {
    if k == 0 then 1 else 2 * Pow2(k - 1)
  }

  lemma HalfProduct(a: nat, x: nat, q: nat, p: nat)
    requires x % 2 == 1 && a * x == 2 * p * q
    ensures a % 2 == 0 && (a / 2) * x == p * q
  {
    var h, e, y := a / 2, a % 2, x / 2;
    assert a * x == 2 * (p * q);
    assert a * x == (2 * h + e) * (2 * y + 1) == 2 * (2 * h * y + h + e * y) + e;
    assert 2 * (h * x) == a * x;
  }

  /** An odd factor carries no power of two. */
  lemma {:induction false} OddFactor(k: nat, a: nat, x: nat)
    requires x % 2 == 1 && Divides(Pow2(k), a * x)
    ensures Divides(Pow2(k), a)
  {
    if k > 0 {
      var q := a * x / Pow2(k);
      Quotient(Pow2(k), a * x);
      HalfProduct(a, x, q, Pow2(k - 1));
      DividesMul(Pow2(k - 1), q);
      OddFactor(k - 1, a / 2, x);
      Quotient(Pow2(k - 1), a / 2);
      DividesTwice(Pow2(k - 1), a / 2);
    }
  }

  lemma DividesTwice(d: nat, n: nat)
    requires Divides(d, n)
    ensures Divides(2 * d, 2 * n)
  {
    Quotient(d, n);
    assert 2 * n == (2 * d) * (n / d);
    DividesMul(2 * d, n / d);
  }

  lemma HalfStillMultiple(k: nat, a: nat, l: nat)
    requires a > 0 && Divides(a, l) && l % 2 == 0 && Divides(Pow2(k), l) && !Divides(Pow2(k), a)
    ensures Divides(a, l / 2)
  {
    var x := l / a;
    Quotient(a, l);
    if x % 2 == 1 {
      OddFactor(k, a, x);
    } else {
      assert l / 2 == a * (x / 2) by { assert l == a * (2 * (x / 2)) == 2 * (a * (x / 2)); }
      DividesMul(a, x / 2);
    }
  }

  /** A power of two that divides a least common multiple divides one of the two numbers. */
  lemma PowerOfTwoInLcm(k: nat, a: nat, b: nat)
    requires a > 0 && b > 0 && k > 0 && Divides(Pow2(k), Lcm(a, b))
    ensures Divides(Pow2(k), a) || Divides(Pow2(k), b)
  {
    var l := Lcm(a, b);
    LcmMultiple(a, b);
    Quotient(Pow2(k), l);
    assert l == 2 * (Pow2(k - 1) * (l / Pow2(k)));
    if !Divides(Pow2(k), a) && !Divides(Pow2(k), b) {
      HalfStillMultiple(k, a, l);
      HalfStillMultiple(k, b, l);
      LcmLeast(a, b, l / 2);
      DividesLe(l, l / 2);
      assert false;
    }
  }
}
