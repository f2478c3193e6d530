// The integer polynomials that elements of the extension tower stand for: in u with u^2 = -1, in v with v^3 = 9 + u,
// and in w with w^2 = v. Their laws hold over the integers, before any reduction modulo P.

module Polynomials {
  import opened ModArith

  /** Integer polynomials in u (with u^2 = -1), in v (with v^3 = 9+u) and in w (with w^2 = v). */
  datatype Z2 = Z2(re: int, im: int)
  datatype Z6 = Z6(c0: Z2, c1: Z2, c2: Z2)
  datatype Z12 = Z12(c0: Z6, c1: Z6)

  const Z2_ZERO := Z2(0, 0)
  const Z6_ZERO := Z6(Z2_ZERO, Z2_ZERO, Z2_ZERO)

  function Add2(a: Z2, b: Z2): Z2 { Z2(a.re + b.re, a.im + b.im) }
  function Sub2(a: Z2, b: Z2): Z2 { Z2(a.re - b.re, a.im - b.im) }
  function Mul2(a: Z2, b: Z2): Z2 { Z2(a.re * b.re - a.im * b.im, a.re * b.im + a.im * b.re) }
  function Xi2(a: Z2): Z2 { Z2(9 * a.re - a.im, 9 * a.im + a.re) }

  function Add6(a: Z6, b: Z6): Z6 { Z6(Add2(a.c0, b.c0), Add2(a.c1, b.c1), Add2(a.c2, b.c2)) }
  function Sub6(a: Z6, b: Z6): Z6 { Z6(Sub2(a.c0, b.c0), Sub2(a.c1, b.c1), Sub2(a.c2, b.c2)) }

  function Mul6(a: Z6, b: Z6): Z6 {
    Z6(Add2(Mul2(a.c0, b.c0), Xi2(Add2(Mul2(a.c1, b.c2), Mul2(a.c2, b.c1)))),
       Add2(Add2(Mul2(a.c0, b.c1), Mul2(a.c1, b.c0)), Xi2(Mul2(a.c2, b.c2))),
       Add2(Add2(Mul2(a.c0, b.c2), Mul2(a.c1, b.c1)), Mul2(a.c2, b.c0)))
  }

  function V6(a: Z6): Z6 { Z6(Xi2(a.c2), a.c0, a.c1) }

  function Mul12(a: Z12, b: Z12): Z12 {
    Z12(Add6(Mul6(a.c0, b.c0), V6(Mul6(a.c1, b.c1))), Add6(Mul6(a.c0, b.c1), Mul6(a.c1, b.c0)))
  }

  function Scale6(a: Z6, s: Z2): Z6 { Z6(Mul2(a.c0, s), Mul2(a.c1, s), Mul2(a.c2, s)) }

  // --- Z[u]/(u^2 + 1) --------------------------------------------------------------------------------------

  lemma SumProduct(p: int, q: int, r: int, s: int)
    ensures (p + q) * (r + s) == (p * s + q * r) + (p * r + q * s)
  {
  }

  lemma ConjugateProduct(n: int, m: int, k: int)
    ensures n * (n * k) - m * (0 - m * k) == (n * n + m * m) * k
    ensures n * (0 - m * k) + m * (n * k) == 0
  {
  }

  lemma ConjugateProduct2(n: int, m: int, k: int)
    ensures Mul2(Z2(n, m), Z2(n * k, 0 - m * k)) == Z2((n * n + m * m) * k, 0)
  {
    ConjugateProduct(n, m, k);
  }

  lemma SquareProducts(p: int, q: int)
    ensures (p - q) * (p + q) == p * p - q * q && (p + p) * q == p * q + q * p
  {
  }

  lemma Mul2Comm(a: Z2, b: Z2)
    ensures Mul2(a, b) == Mul2(b, a)
  {
  }

  lemma Add2Comm(a: Z2, b: Z2)
    ensures Add2(a, b) == Add2(b, a)
  {
  }

  lemma RotateSum(a: Z2, b: Z2, c: Z2)
    ensures Add2(b, Add2(a, c)) == Add2(Add2(a, b), c)
  {
  }

  lemma Mul2AddLeft(p: Z2, q: Z2, r: Z2)
    ensures Mul2(Add2(p, q), r) == Add2(Mul2(p, r), Mul2(q, r))
    ensures Mul2(Sub2(p, q), r) == Sub2(Mul2(p, r), Mul2(q, r))
  {
    Dist(p.re, q.re, r.re); Dist(p.re, q.re, r.im);
    Dist(p.im, q.im, r.re); Dist(p.im, q.im, r.im);
  }

  lemma Mul2Distributes(p: Z2, q: Z2, r: Z2)
    ensures Mul2(Add2(p, q), r) == Add2(Mul2(p, r), Mul2(q, r))
    ensures Mul2(r, Add2(p, q)) == Add2(Mul2(r, p), Mul2(r, q))
    ensures Mul2(Sub2(p, q), r) == Sub2(Mul2(p, r), Mul2(q, r))
    ensures Mul2(r, Sub2(p, q)) == Sub2(Mul2(r, p), Mul2(r, q))
  {
    hide Mul2, Add2, Sub2;
    Mul2AddLeft(p, q, r);
    Mul2Comm(r, Add2(p, q)); Mul2Comm(r, Sub2(p, q)); Mul2Comm(r, p); Mul2Comm(r, q);
  }

  lemma Mul2Assoc(a: Z2, b: Z2, c: Z2)
    ensures Mul2(Mul2(a, b), c) == Mul2(a, Mul2(b, c))
  {
  }

  /** Karatsuba's cross term over the Gaussian integers. */
  lemma Karatsuba2(p: Z2, q: Z2, r: Z2, s: Z2)
    ensures Sub2(Sub2(Mul2(Add2(p, q), Add2(r, s)), Mul2(p, r)), Mul2(q, s)) == Add2(Mul2(p, s), Mul2(q, r))
  {
    hide Mul2;
    Mul2AddLeft(p, q, Add2(r, s));
    Mul2Distributes(r, s, p);
    Mul2Distributes(r, s, q);
  }

  lemma XiIsProduct(z: Z2)
    ensures Mul2(Z2(9, 1), z) == Xi2(z)
  {
  }

  lemma Xi2Linear(a: Z2, b: Z2)
    ensures Mul2(a, Xi2(b)) == Xi2(Mul2(a, b)) && Mul2(Xi2(a), b) == Xi2(Mul2(a, b))
    ensures Xi2(Sub2(a, b)) == Sub2(Xi2(a), Xi2(b)) && Xi2(Add2(a, b)) == Add2(Xi2(a), Xi2(b))
  {
  }

  lemma SquarePulls(a: Z2, b: Z2)
    ensures Mul2(a, Mul2(a, b)) == Mul2(b, Mul2(a, a)) && Mul2(a, Mul2(b, a)) == Mul2(b, Mul2(a, a))
  {
    Mul2Assoc(a, a, b);
    Mul2Comm(b, a);
    Mul2Comm(Mul2(a, a), b);
  }

  lemma ZeroProducts(p: Z2)
    ensures Mul2(p, Z2(0, 0)) == Z2(0, 0) && Mul2(Z2(0, 0), p) == Z2(0, 0)
  {
  }

  lemma MinusProducts(p: Z2)
    ensures Mul2(p, Z2(-1, 0)) == Z2(-p.re, -p.im)
  {
  }

  lemma MinusSquared()
    ensures Mul2(Z2(-1, 0), Z2(-1, 0)) == Z2(1, 0)
  {
    MinusProducts(Z2(-1, 0));
  }

  lemma MinusByOne()
    ensures Mul2(Z2(-1, 0), Z2(1, 0)) == Z2(-1, 0)
  {
    Mul2Comm(Z2(-1, 0), Z2(1, 0));
    MinusProducts(Z2(1, 0));
  }

  lemma MinusOne()
    ensures Sub2(Z2_ZERO, Z2(1, 0)) == Z2(-1, 0)
  {
  }

  lemma SumsOfZero()
    ensures Xi2(Z2_ZERO) == Z2_ZERO && Add2(Z2_ZERO, Z2_ZERO) == Z2_ZERO && Sub2(Z2_ZERO, Z2_ZERO) == Z2_ZERO
  {
    var xi, sum, difference := Xi2(Z2_ZERO), Add2(Z2_ZERO, Z2_ZERO), Sub2(Z2_ZERO, Z2_ZERO);
    assert xi.re == 0 && xi.im == 0;
    assert sum.re == 0 && sum.im == 0;
    assert difference.re == 0 && difference.im == 0;
  }

  // --- Z[u, v]/(u^2 + 1, v^3 - (9 + u)) --------------------------------------------------------------------

  lemma Mul6Distributes(p: Z6, q: Z6, r: Z6)
    ensures Mul6(Add6(p, q), r) == Add6(Mul6(p, r), Mul6(q, r))
  {
    Mul2Distributes(p.c0, q.c0, r.c0); Mul2Distributes(p.c0, q.c0, r.c1); Mul2Distributes(p.c0, q.c0, r.c2);
    Mul2Distributes(p.c1, q.c1, r.c0); Mul2Distributes(p.c1, q.c1, r.c1); Mul2Distributes(p.c1, q.c1, r.c2);
    Mul2Distributes(p.c2, q.c2, r.c0); Mul2Distributes(p.c2, q.c2, r.c1); Mul2Distributes(p.c2, q.c2, r.c2);
  }

  lemma SubAdd(a: Z6, b: Z6)
    ensures Add6(Sub6(a, b), b) == a
  {
  }

  lemma DifferenceFromSum(d: Z6, b: Z6, a: Z6)
    requires Add6(d, b) == a
    ensures d == Sub6(a, b)
  {
  }

  lemma SubMul6(p: Z6, q: Z6, r: Z6)
    ensures Mul6(Sub6(p, q), r) == Sub6(Mul6(p, r), Mul6(q, r))
  {
    hide Mul6;
    Mul6Distributes(Sub6(p, q), q, r);
    SubAdd(p, q);
    DifferenceFromSum(Mul6(Sub6(p, q), r), Mul6(q, r), Mul6(p, r));
  }

  lemma Mul6Comm(a: Z6, b: Z6)
    ensures Mul6(a, b) == Mul6(b, a)
  {
    Mul2Comm(a.c0, b.c0); Mul2Comm(a.c0, b.c1); Mul2Comm(a.c0, b.c2);
    Mul2Comm(a.c1, b.c0); Mul2Comm(a.c1, b.c1); Mul2Comm(a.c1, b.c2);
    Mul2Comm(a.c2, b.c0); Mul2Comm(a.c2, b.c1); Mul2Comm(a.c2, b.c2);
  }

  lemma Karatsuba6(p: Z6, q: Z6, r: Z6, s: Z6)
    ensures Sub6(Sub6(Mul6(Add6(p, q), Add6(r, s)), Mul6(p, r)), Mul6(q, s)) == Add6(Mul6(p, s), Mul6(q, r))
  {
    Mul6Distributes(p, q, Add6(r, s));
    Mul6Comm(p, Add6(r, s)); Mul6Comm(q, Add6(r, s));
    Mul6Distributes(r, s, p); Mul6Distributes(r, s, q);
    Mul6Comm(r, p); Mul6Comm(s, p); Mul6Comm(r, q); Mul6Comm(s, q);
    CancelEnds(Mul6(p, r), Mul6(p, s), Mul6(q, r), Mul6(q, s));
  }

  lemma CancelEnds(a: Z6, b: Z6, c: Z6, d: Z6)
    ensures Sub6(Sub6(Add6(Add6(a, b), Add6(c, d)), a), d) == Add6(b, c)
  {
  }

  /** Multiplication by `a` is a combination of scalings and shifts by `v`. */
  lemma Decompose(a: Z6, b: Z6)
    ensures Mul6(a, b) == Add6(Scale6(b, a.c0), Add6(V6(Scale6(b, a.c1)), V6(V6(Scale6(b, a.c2)))))
  {
    Mul2Comm(a.c0, b.c0); Mul2Comm(a.c0, b.c1); Mul2Comm(a.c0, b.c2);
    Mul2Comm(a.c1, b.c0); Mul2Comm(a.c1, b.c1); Mul2Comm(a.c1, b.c2);
    Mul2Comm(a.c2, b.c0); Mul2Comm(a.c2, b.c1); Mul2Comm(a.c2, b.c2);
    Xi2Linear(Mul2(b.c2, a.c1), Mul2(b.c1, a.c2));
  }

  lemma ShiftOut(a: Z6, b: Z6)
    ensures Mul6(V6(a), b) == V6(Mul6(a, b))
  {
    var m00, m01, m02 := Mul2(a.c0, b.c0), Mul2(a.c0, b.c1), Mul2(a.c0, b.c2);
    var m10, m11, m12 := Mul2(a.c1, b.c0), Mul2(a.c1, b.c1), Mul2(a.c1, b.c2);
    var m20, m21, m22 := Mul2(a.c2, b.c0), Mul2(a.c2, b.c1), Mul2(a.c2, b.c2);
    Xi2Linear(a.c2, b.c0); Xi2Linear(a.c2, b.c1); Xi2Linear(a.c2, b.c2);
    ShiftSums(m00, m01, m02, m10, m11, m12, m20, m21, m22);
  }

  lemma ShiftSums(m00: Z2, m01: Z2, m02: Z2, m10: Z2, m11: Z2, m12: Z2, m20: Z2, m21: Z2, m22: Z2)
    ensures Add2(Xi2(m20), Xi2(Add2(m02, m11))) == Xi2(Add2(Add2(m02, m11), m20))
    ensures Add2(Add2(Xi2(m21), m00), Xi2(m12)) == Add2(m00, Xi2(Add2(m12, m21)))
    ensures Add2(Add2(Xi2(m22), m01), m10) == Add2(Add2(m01, m10), Xi2(m22))
  {
  }

  lemma ScaleOut(a: Z6, b: Z6, s: Z2)
    ensures Mul6(a, Scale6(b, s)) == Scale6(Mul6(a, b), s)
  {
    Mul2Assoc(a.c0, b.c0, s); Mul2Assoc(a.c0, b.c1, s); Mul2Assoc(a.c0, b.c2, s);
    Mul2Assoc(a.c1, b.c0, s); Mul2Assoc(a.c1, b.c1, s); Mul2Assoc(a.c1, b.c2, s);
    Mul2Assoc(a.c2, b.c0, s); Mul2Assoc(a.c2, b.c1, s); Mul2Assoc(a.c2, b.c2, s);
    ScaleSums(Mul2(a.c0, b.c0), Mul2(a.c1, b.c2), Mul2(a.c2, b.c1), s);
    ScaleSums(Mul2(a.c0, b.c1), Mul2(a.c1, b.c0), Mul2(a.c2, b.c2), s);
    ScaleSums(Mul2(a.c0, b.c2), Mul2(a.c1, b.c1), Mul2(a.c2, b.c0), s);
  }

  lemma ScaleSums(p: Z2, q: Z2, r: Z2, s: Z2)
    ensures Mul2(Add2(p, Xi2(Add2(q, r))), s) == Add2(Mul2(p, s), Xi2(Add2(Mul2(q, s), Mul2(r, s))))
    ensures Mul2(Add2(Add2(p, q), Xi2(r)), s) == Add2(Add2(Mul2(p, s), Mul2(q, s)), Xi2(Mul2(r, s)))
    ensures Mul2(Add2(Add2(p, q), r), s) == Add2(Add2(Mul2(p, s), Mul2(q, s)), Mul2(r, s))
  {
    Mul2Distributes(p, Xi2(Add2(q, r)), s); Mul2Distributes(q, r, s); Mul2Distributes(p, q, s);
    Mul2Distributes(Add2(p, q), Xi2(r), s); Mul2Distributes(Add2(p, q), r, s);
    Xi2Linear(Add2(q, r), s); Xi2Linear(r, s);
  }

  lemma ScaleIn(a: Z6, s: Z2, b: Z6)
    ensures Mul6(Scale6(a, s), b) == Scale6(Mul6(a, b), s)
  {
    Mul6Comm(Scale6(a, s), b);
    ScaleOut(b, a, s);
    Mul6Comm(a, b);
  }

  lemma Mul6Assoc(a: Z6, b: Z6, c: Z6)
    ensures Mul6(Mul6(a, b), c) == Mul6(a, Mul6(b, c))
  {
    var p, q, r := Scale6(b, a.c0), Scale6(b, a.c1), Scale6(b, a.c2);
    Decompose(a, b);
    Decompose(a, Mul6(b, c));
    Mul6Distributes(p, Add6(V6(q), V6(V6(r))), c);
    Mul6Distributes(V6(q), V6(V6(r)), c);
    ShiftOut(q, c); ShiftOut(V6(r), c); ShiftOut(r, c);
    ScaleIn(b, a.c0, c); ScaleIn(b, a.c1, c); ScaleIn(b, a.c2, c);
  }

  lemma ScaledToZero(q: Z6)
    ensures Scale6(q, Z2_ZERO) == Z6_ZERO
  {
    hide Mul2;
    ZeroProducts(q.c0); ZeroProducts(q.c1); ZeroProducts(q.c2);
  }

  lemma ShiftedZero(s: Z6)
    ensures V6(Z6_ZERO) == Z6_ZERO && Add6(Z6_ZERO, Z6_ZERO) == Z6_ZERO && Add6(s, Z6_ZERO) == s
  {
    SumsOfZero();
    AddZero(s.c0); AddZero(s.c1); AddZero(s.c2);
    hide Xi2, Add2;
  }

  lemma AddZero(a: Z2)
    ensures Add2(a, Z2_ZERO) == a
  {
  }

  lemma AxisProduct6(p: Z2, q: Z6)
    ensures Mul6(Z6(p, Z2_ZERO, Z2_ZERO), q) == Scale6(q, p)
  {
    hide Mul6, Mul2, Scale6, Add6, V6;
    Decompose(Z6(p, Z2_ZERO, Z2_ZERO), q);
    ScaledToZero(q);
    ShiftedZero(Scale6(q, p));
  }

  lemma Mul6Negates(a: Z6, b: Z6)
    ensures Mul6(a, Sub6(Z6_ZERO, b)) == Sub6(Z6_ZERO, Mul6(a, b))
  {
    Mul6Distributes(Sub6(Z6_ZERO, b), b, a);
    Mul6Comm(a, b); Mul6Comm(a, Sub6(Z6_ZERO, b));
    assert Add6(Sub6(Z6_ZERO, b), b) == Z6_ZERO;
    AdditiveInverse(Mul6(Sub6(Z6_ZERO, b), a), Mul6(b, a));
    assert Mul6(Z6_ZERO, a) == Z6_ZERO;
  }

  lemma AdditiveInverse(a: Z6, b: Z6)
    requires Add6(a, b) == Z6_ZERO
    ensures a == Sub6(Z6_ZERO, b)
  {
  }

  lemma ConjugateProduct6(a: Z6, b: Z6, t: Z6)
    ensures Mul12(Z12(a, b), Z12(Mul6(a, t), Sub6(Z6_ZERO, Mul6(b, t))))
         == Z12(Mul6(Sub6(Mul6(a, a), V6(Mul6(b, b))), t), Z6_ZERO)
  {
    var bb, ab := Mul6(Mul6(b, b), t), Mul6(Mul6(a, b), t);
    Mul6Negates(b, Mul6(b, t)); Mul6Negates(a, Mul6(b, t));
    Mul6Assoc(a, a, t); Mul6Assoc(b, b, t); Mul6Assoc(a, b, t); Mul6Assoc(b, a, t);
    Mul6Comm(a, b);
    ShiftOut(Mul6(b, b), t);
    Mul6Distributes(Sub6(Mul6(a, a), V6(Mul6(b, b))), V6(Mul6(b, b)), t);
    SubAdd(Mul6(a, a), V6(Mul6(b, b)));
    DifferenceFromSum(Mul6(Sub6(Mul6(a, a), V6(Mul6(b, b))), t), V6(bb), Mul6(Mul6(a, a), t));
    NegateShift(bb, Mul6(Mul6(a, a), t), ab);
  }

  lemma NegateShift(b: Z6, a: Z6, c: Z6)
    ensures Add6(a, V6(Sub6(Z6_ZERO, b))) == Sub6(a, V6(b))
    ensures Add6(Sub6(Z6_ZERO, c), c) == Z6_ZERO
  {
  }

  // --- Cofactors and the norm ------------------------------------------------------------------------------

  function Cofactors6(a: Z6): (Z6, Z2) {
    var A := Sub2(Mul2(a.c0, a.c0), Xi2(Mul2(a.c1, a.c2)));
    var B := Sub2(Xi2(Mul2(a.c2, a.c2)), Mul2(a.c0, a.c1));
    var C := Sub2(Mul2(a.c1, a.c1), Mul2(a.c0, a.c2));
    (Z6(A, B, C), Add2(Mul2(a.c0, A), Add2(Xi2(Mul2(a.c2, B)), Xi2(Mul2(a.c1, C)))))
  }

  /** Over the integers: multiplying by the cofactors leaves only the norm. */
  lemma CofactorIdentity(x: Z6)
    ensures Mul6(x, Cofactors6(x).0) == Z6(Cofactors6(x).1, Z2_ZERO, Z2_ZERO)
  {
    var a, b, c := x.c0, x.c1, x.c2;
    var (cof, D) := Cofactors6(x);
    var A, B, C := cof.c0, cof.c1, cof.c2;
    assert Mul6(x, cof).c0 == D by {
      Xi2Linear(Mul2(b, C), Mul2(c, B));
      Add2Comm(Xi2(Mul2(b, C)), Xi2(Mul2(c, B)));
    }
    var aac, aab := Mul2(c, Mul2(a, a)), Mul2(b, Mul2(a, a));
    var bba, bbc := Mul2(a, Mul2(b, b)), Mul2(c, Mul2(b, b));
    var cca, ccb := Mul2(a, Mul2(c, c)), Mul2(b, Mul2(c, c));
    assert Mul2(a, B) == Sub2(Xi2(cca), aab) && Mul2(b, B) == Sub2(Xi2(ccb), bba) by {
      Mul2Distributes(Xi2(Mul2(c, c)), Mul2(a, b), a); Mul2Distributes(Xi2(Mul2(c, c)), Mul2(a, b), b);
      Xi2Linear(a, Mul2(c, c)); Xi2Linear(b, Mul2(c, c));
      SquarePulls(a, b); SquarePulls(b, a);
    }
    assert Mul2(b, A) == Sub2(aab, Xi2(bbc)) && Mul2(c, A) == Sub2(aac, Xi2(ccb)) by {
      Mul2Distributes(Mul2(a, a), Xi2(Mul2(b, c)), b); Mul2Distributes(Mul2(a, a), Xi2(Mul2(b, c)), c);
      Xi2Linear(b, Mul2(b, c)); Xi2Linear(c, Mul2(b, c));
      SquarePulls(b, c); SquarePulls(c, b);
    }
    assert Mul2(c, C) == Sub2(bbc, cca) && Mul2(a, C) == Sub2(bba, aac) by {
      Mul2Distributes(Mul2(b, b), Mul2(a, c), c); Mul2Distributes(Mul2(b, b), Mul2(a, c), a);
      SquarePulls(c, a); SquarePulls(a, c);
    }
    Xi2Linear(bbc, cca);
    Telescope(Xi2(cca), aab, Xi2(bbc));
    Telescope(bba, aac, Xi2(ccb));
  }

  lemma Telescope(p: Z2, q: Z2, r: Z2)
    ensures Add2(Add2(Sub2(p, q), Sub2(q, r)), Sub2(r, p)) == Z2_ZERO
    ensures Add2(Add2(Sub2(p, q), Sub2(r, p)), Sub2(q, r)) == Z2_ZERO
  {
  }

  lemma CofactorsOfZero6(z: Z2)
    requires Mul2(z, z) == z && Xi2(z) == z && Add2(z, z) == z && Sub2(z, z) == z
    ensures Cofactors6(Z6(z, z, z)).1 == z
  {
    hide Mul2, Xi2, Add2, Sub2;
  }

  function Linear6(p: Z2): Z6 {
    Z6(p, Z2(-1, 0), Z2_ZERO)
  }

  lemma LinearNorm(p: Z2)
    ensures Cofactors6(Linear6(p)).1 == Sub2(Mul2(p, Mul2(p, p)), Z2(9, 1)) && Cofactors6(Linear6(p)).0.c2 == Z2(1, 0)
  {
    hide Cofactors6, Mul2, Sub2;
    ZeroProducts(p); ZeroProducts(Z2_ZERO); ZeroProducts(Z2(-1, 0));
    MinusProducts(p); MinusSquared(); MinusByOne();
    LinearNormOf(p, Z2(-1, 0), Z2_ZERO, Z2(1, 0));
  }

  lemma LinearNormOf(p: Z2, m: Z2, z: Z2, e: Z2)
    requires m.re == -1 && m.im == 0 && z.re == 0 && z.im == 0 && e.re == 1 && e.im == 0
    requires Mul2(m, z) == z && Mul2(z, z) == z && Mul2(p, z) == z && Mul2(z, p) == z && Mul2(m, m) == e
        && Mul2(m, e) == m
    requires Mul2(p, m) == Z2(-p.re, -p.im)
    ensures Cofactors6(Z6(p, m, z)).1 == Sub2(Mul2(p, Mul2(p, p)), Z2(9, 1)) && Cofactors6(Z6(p, m, z)).0.c2 == e
  {
    hide Mul2;
    var cof := Cofactors6(Z6(p, m, z)).0;
    assert cof == Z6(Mul2(p, p), p, e);
  }

  /**
    * Over the integers: with `(A, B, C)` the cofactors of `a + b v + c v^2`, `(c v - b) (a + b v + c v^2) = B - C v`.
    */
  lemma EliminationIdentity(x: Z6, y: Z6)
    ensures var cof, xy := Cofactors6(x).0, Mul6(x, y);
            Sub6(Scale6(V6(xy), x.c2), Scale6(xy, x.c1)) == Sub6(Scale6(y, cof.c1), V6(Scale6(y, cof.c2)))
  {
    var cof := Cofactors6(x).0;
    var p, q := Scale6(V6(x), x.c2), Scale6(x, x.c1);
    var z := Sub6(p, q);
    assert z == Z6(cof.c1, Sub2(Z2_ZERO, cof.c2), Z2_ZERO) by {
      Xi2Linear(x.c2, x.c2);
      Mul2Comm(x.c1, x.c2);
    }
    LinearProduct(y, cof.c1, cof.c2);
    hide Mul2, Xi2, Mul6, Scale6, V6, Cofactors6, Sub6;
    ShiftOut(x, y); ScaleIn(V6(x), x.c2, y); ScaleIn(x, x.c1, y);
    SubMul6(p, q, y);
  }

  lemma LinearProduct(y: Z6, b: Z2, c: Z2)
    ensures Mul6(Z6(b, Sub2(Z2_ZERO, c), Z2_ZERO), y) == Sub6(Scale6(y, b), V6(Scale6(y, c)))
  {
    hide Mul6;
    Decompose(Z6(b, Sub2(Z2_ZERO, c), Z2_ZERO), y);
    Mul2Distributes(Z2_ZERO, c, y.c0); Mul2Distributes(Z2_ZERO, c, y.c1); Mul2Distributes(Z2_ZERO, c, y.c2);
    ScaledToZero(y);
  }
}
