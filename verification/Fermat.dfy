// Fermat's little theorem for a symbolic prime: the fact that makes `a^(P-2)` the inverse of `a`.

module Fermat {
  import opened ModArith

  ghost predicate IsPrime(p: int) {
    2 <= p && forall d :: 2 <= d < p ==> p % d != 0
  }

  lemma {:induction false} EuclidSmall(p: int, x: int, y: int)
    requires IsPrime(p) && 0 < x < p && Cong(x * y, 0, p)
    ensures Cong(y, 0, p)
    decreases x
  {
    if x > 1 {
      var q, r := p / x, p % x;
      var k := Witness(x * y, 0, p);
      assert r * y == p * (y - q * k) by {
        assert (q * x + r) * y == q * (x * y) + r * y;
        assert q * (p * k) == p * (q * k);
        assert p * (y - q * k) == p * y - p * (q * k);
      }
      CongByWitness(r * y, 0, p, y - q * k);
      EuclidSmall(p, r, y);
    }
  }

  /** A prime that divides a product divides a factor. */
  lemma Euclid(p: int, x: int, y: int)
    requires IsPrime(p) && Cong(x * y, 0, p)
    ensures Cong(x, 0, p) || Cong(y, 0, p)
  {
    if x % p != 0 {
      CongMod(x, p);
      CongRefl(y, p);
      CongMul(x % p, x, y, y, p);
      CongTrans((x % p) * y, x * y, 0, p);
      EuclidSmall(p, x % p, y);
    }
  }

  function Choose(n: nat, k: nat): nat {
    if k == 0 then 1 else if n == 0 then 0 else Choose(n - 1, k - 1) + Choose(n - 1, k)
  }

  lemma {:induction false} ChooseBeyond(n: nat, k: nat)
    requires n < k
    ensures Choose(n, k) == 0
  {
    if n > 0 {
      ChooseBeyond(n - 1, k - 1);
      ChooseBeyond(n - 1, k);
    }
  }

  lemma {:induction false} ChooseAll(n: nat)
    ensures Choose(n, n) == 1
  {
    if n > 0 {
      ChooseAll(n - 1);
      ChooseBeyond(n - 1, n);
    }
  }

  lemma {:induction false} Absorb(n: nat, k: nat)
    requires 1 <= n && 1 <= k
    ensures k * Choose(n, k) == n * Choose(n - 1, k - 1)
  {
    if n == 1 {
      if k > 1 {
        ChooseBeyond(0, k - 1);
        ChooseBeyond(0, k);
      }
    } else if k == 1 {
      Absorb(n - 1, 1);
    } else {
      Absorb(n - 1, k - 1);
      Absorb(n - 1, k);
      AbsorbStep(n, k, Choose(n - 1, k - 1), Choose(n - 1, k), Choose(n - 2, k - 2), Choose(n - 2, k - 1));
    }
  }

  lemma AbsorbStep(n: int, k: int, c: int, d: int, e: int, f: int)
    requires (k - 1) * c == (n - 1) * e && k * d == (n - 1) * f && c == e + f
    ensures k * (c + d) == n * c
  {
    assert k * (c + d) == c + (k - 1) * c + k * d;
    assert (n - 1) * (e + f) == (n - 1) * e + (n - 1) * f;
  }

  /** `sum over i <= k of Choose(n, i) * a^i`. */
  function Binomial(n: nat, k: nat, a: int): int {
    Choose(n, k) * Pow(a, k) + if k == 0 then 0 else Binomial(n, k - 1, a)
  }

  lemma {:induction false} BinomialPascal(n: nat, k: nat, a: int)
    ensures Binomial(n + 1, k + 1, a) == Binomial(n, k + 1, a) + a * Binomial(n, k, a)
  {
    var c, d, q := Choose(n, k), Choose(n, k + 1), Pow(a, k);
    if k == 0 {
      PascalStep(c, d, a, q, 0);
    } else {
      BinomialPascal(n, k - 1, a);
      PascalStep(c, d, a, q, Binomial(n, k - 1, a));
    }
  }

  lemma PascalStep(c: int, d: int, a: int, q: int, below: int)
    ensures (c + d) * (a * q) == d * (a * q) + a * (c * q)
    ensures a * (c * q + below) == a * (c * q) + a * below
  {
    Dist(c, d, a * q);
    assert c * (a * q) == a * (c * q);
  }

  lemma {:induction false} BinomialTheorem(n: nat, a: int)
    ensures Pow(a + 1, n) == Binomial(n, n, a)
  {
    if n > 0 {
      BinomialTheorem(n - 1, a);
      BinomialPascal(n - 1, n - 1, a);
      ChooseBeyond(n - 1, n);
    }
  }

  /** The inner binomial coefficients of a prime vanish modulo it. */
  lemma InnerVanish(p: int, k: nat)
    requires IsPrime(p) && 0 < k < p
    ensures Cong(Choose(p, k), 0, p)
  {
    Absorb(p, k);
    CongByWitness(k * Choose(p, k), 0, p, Choose(p - 1, k - 1));
    EuclidSmall(p, k, Choose(p, k));
  }

  lemma {:induction false} BinomialMod(p: int, k: nat, a: int)
    requires IsPrime(p) && k < p
    ensures Cong(Binomial(p, k, a), 1, p)
  {
    if k == 0 {
      CongRefl(1, p);
    } else {
      BinomialMod(p, k - 1, a);
      InnerVanish(p, k);
      CongRefl(Pow(a, k), p);
      CongMul(Choose(p, k), 0, Pow(a, k), Pow(a, k), p);
      CongAdd(Choose(p, k) * Pow(a, k), 0, Binomial(p, k - 1, a), 1, p);
    }
  }

  lemma {:induction false} FermatNat(p: int, a: nat)
    requires IsPrime(p)
    ensures Cong(Pow(a, p), a, p)
  {
    if a == 0 {
      CongRefl(0, p);
    } else {
      FermatNat(p, a - 1);
      BinomialTheorem(p, a - 1);
      BinomialMod(p, p - 1, a - 1);
      ChooseAll(p);
      CongAdd(Pow(a - 1, p), a - 1, Binomial(p, p - 1, a - 1), 1, p);
    }
  }

  /** Fermat's little theorem. */
  lemma LittleTheorem(p: int, a: nat)
    requires IsPrime(p) && a % p != 0
    ensures Cong(Pow(a, p - 1), 1, p)
  {
    FermatNat(p, a);
    var w := Pow(a, p - 1);
    assert a * (w - 1) == Pow(a, p) - a;
    CongRefl(a, p);
    CongSub(Pow(a, p), a, a, a, p);
    Euclid(p, a, w - 1);
  }

  /** For a prime `p = 4m + 3`, a sum of two squares vanishes only when both terms do. */
  lemma SumOfSquares(p: int, m: nat, a: nat, b: nat)
    requires IsPrime(p) && p == 4 * m + 3 && Cong(a * a + b * b, 0, p)
    ensures a % p == 0 && b % p == 0
  {
    var h := 2 * m + 1;
    CongRefl(b * b, p); CongRefl(a * a, p);
    CongSub(a * a + b * b, 0, b * b, b * b, p);
    CongSub(a * a + b * b, 0, a * a, a * a, p);
    if a % p != 0 && b % p != 0 {
      LittleTheorem(p, a);
      LittleTheorem(p, b);
      CongPow(a * a, -(b * b), h, p);
      PowSquare(a, h);
      PowSquare(b, h);
      PowNegOdd(b * b, m);
      CongSym(Pow(a, p - 1), 1, p);
      CongTrans(1, Pow(a, p - 1), -Pow(b, p - 1), p);
      CongRefl(Pow(b, p - 1), p);
      CongAdd(1, -Pow(b, p - 1), Pow(b, p - 1), Pow(b, p - 1), p);
      CongAdd(Pow(b, p - 1), 1, 1, 1, p);
      CongSym(1 + Pow(b, p - 1), 2, p);
      CongTrans(2, 1 + Pow(b, p - 1), 0, p);
    } else if a % p != 0 {
      SquareVanishes(p, a, b);
    } else if b % p != 0 {
      SquareVanishes(p, b, a);
    }
  }

  /** If `b` vanishes and `a^2 = -b^2`, then `a` vanishes. */
  lemma SquareVanishes(p: int, a: int, b: int)
    requires IsPrime(p) && b % p == 0 && Cong(a * a, -(b * b), p)
    ensures a % p == 0
  {
    CongRefl(-b, p);
    CongMul(b, 0, -b, -b, p);
    assert b * -b == -(b * b);
    CongTrans(a * a, -(b * b), 0, p);
    Euclid(p, a, a);
  }

  lemma {:induction false} PowSquare(a: int, h: nat)
    ensures Pow(a * a, h) == Pow(a, 2 * h)
  {
    if h > 0 {
      PowSquare(a, h - 1);
      assert Pow(a, 2 * h) == a * (a * Pow(a, 2 * h - 2));
      assert (a * a) * Pow(a, 2 * h - 2) == a * (a * Pow(a, 2 * h - 2));
    }
  }

  lemma {:induction false} PowNegOdd(x: int, m: nat)
    ensures Pow(-x, 2 * m + 1) == -Pow(x, 2 * m + 1)
  {
    if m > 0 {
      PowNegOdd(x, m - 1);
      assert Pow(-x, 2 * m + 1) == -x * (-x * Pow(-x, 2 * m - 1));
      assert Pow(x, 2 * m + 1) == x * (x * Pow(x, 2 * m - 1));
      assert -x * (-x * -Pow(x, 2 * m - 1)) == -(x * (x * Pow(x, 2 * m - 1)));
    }
  }
}
