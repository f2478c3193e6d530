// When the inversions of Fp6 and Fp12 fail on zero alone (zk_verifier.rs, `fp6_invert` and `fp12_invert`).

module TowerInverses {
  import opened Polynomials
  import opened Fermat
  import opened Common
  import opened Montgomery
  import opened Tower

  const FP12_ZERO := Fp12(FP6_ZERO, FP6_ZERO)

  /** `9 + u` is no cube in Fp2: the polynomial that defines Fp6 has no root. */
  ghost predicate XiNoCube() {
    forall y: Fp2 :: Fp2Mul(y, Fp2Mul(y, y)) != XI
  }

  /** `v` is no square in Fp6: the polynomial that defines Fp12 has no root. */
  ghost predicate VNoSquare() {
    forall t: Fp6 :: Fp6Mul(t, t) != V
  }

  // --- Fp2 as a ring ------------------------------------------------------------------------------------

  lemma Reps2Zero()
    ensures Reps2(FP2_ZERO, Z2_ZERO) && Reps2(FP2_ONE, Z2(1, 0)) && Reps6(FP6_ZERO, Z6_ZERO)
  {
    hide Reps;
    ZeroRepresents();
  }

  lemma Fp2Comm(x: Fp2, y: Fp2)
    ensures Fp2Mul(x, y) == Fp2Mul(y, x)
  {
    hide Reps2, Fp2Mul, Mul2;
    var p, q := Decode2(x), Decode2(y);
    Reps2Mul(x, p, y, q); Reps2Mul(y, q, x, p);
    Mul2Comm(p, q);
    Reps2Unique(Fp2Mul(x, y), Fp2Mul(y, x), Mul2(p, q));
  }

  lemma Fp2Assoc(x: Fp2, y: Fp2, z: Fp2)
    ensures Fp2Mul(Fp2Mul(x, y), z) == Fp2Mul(x, Fp2Mul(y, z))
  {
    hide Reps2, Fp2Mul, Mul2;
    var p, q, r := Decode2(x), Decode2(y), Decode2(z);
    Reps2Mul(x, p, y, q); Reps2Mul(Fp2Mul(x, y), Mul2(p, q), z, r);
    Reps2Mul(y, q, z, r); Reps2Mul(x, p, Fp2Mul(y, z), Mul2(q, r));
    Mul2Assoc(p, q, r);
    Reps2Unique(Fp2Mul(Fp2Mul(x, y), z), Fp2Mul(x, Fp2Mul(y, z)), Mul2(p, Mul2(q, r)));
  }

  lemma Fp2Units(x: Fp2)
    ensures Fp2Mul(x, FP2_ONE) == x && Fp2Mul(x, FP2_ZERO) == FP2_ZERO && Fp2Mul(FP2_ZERO, x) == FP2_ZERO
    ensures Fp2Square(x) == Fp2Mul(x, x)
  {
    hide Reps2, Fp2Mul, Fp2Square;
    var p := Decode2(x);
    Reps2Zero();
    Reps2Mul(x, p, FP2_ONE, Z2(1, 0));
    Reps2Unique(Fp2Mul(x, FP2_ONE), x, p);
    Reps2Mul(x, p, FP2_ZERO, Z2_ZERO);
    Reps2Unique(Fp2Mul(x, FP2_ZERO), FP2_ZERO, Z2_ZERO);
    Fp2Comm(x, FP2_ZERO);
    Fp2SquareIsSelfProduct(x);
  }

  /** Multiplication by `9 + u` is `fp2_mul_xi`, and moves out of products. */
  lemma Fp2XiOut(x: Fp2, y: Fp2)
    ensures Fp2Mul(XI, x) == Fp2MulXi(x) && Fp2Mul(Fp2MulXi(x), y) == Fp2MulXi(Fp2Mul(x, y))
  {
    hide Fp2Mul, Fp2MulXi, School2;
    Fp2MulXiIsProduct(x); Fp2MulXiIsProduct(Fp2Mul(x, y));
    Fp2MulIsSchoolbook(XI, x); Fp2MulIsSchoolbook(XI, Fp2Mul(x, y));
    Fp2Assoc(XI, x, y);
  }

  lemma FpSubZero(x: Fp, y: Fp)
    ensures FpSub(x, y) == FP_ZERO <==> x == y
  {
    hide Reps, FpSub;
    var n, m := Decode(x), Decode(y);
    RepsDecode(x); RepsDecode(y);
    ZeroRepresents();
    RepsSub(x, n, y, m);
    RepsUnique(FpSub(x, y), n - m, FP_ZERO, 0);
    RepsUnique(x, n, y, m);
  }

  lemma Fp2SubZero(x: Fp2, y: Fp2)
    ensures Fp2Sub(x, y) == FP2_ZERO <==> x == y
  {
    hide FpSub;
    FpSubZero(x.c0, y.c0); FpSubZero(x.c1, y.c1);
  }

  /** `(p q) (r s) = (p r) (q s)` */
  lemma Fp2Regroup(p: Fp2, q: Fp2, r: Fp2, s: Fp2)
    ensures Fp2Mul(Fp2Mul(p, q), Fp2Mul(r, s)) == Fp2Mul(Fp2Mul(p, r), Fp2Mul(q, s))
  {
    hide Fp2Mul;
    Fp2Assoc(p, q, Fp2Mul(r, s)); Fp2Assoc(q, r, s); Fp2Comm(q, r);
    Fp2Assoc(r, q, s); Fp2Assoc(p, r, Fp2Mul(q, s));
  }

  /** Non-zero elements cancel. */
  lemma Fp2NoZeroDivisors(x: Fp2, y: Fp2)
    requires IsPrime(P) && Fp2Mul(x, y) == FP2_ZERO
    ensures x == FP2_ZERO || y == FP2_ZERO
  {
    hide Fp2Mul, Fp2Inverse, IsPrime;
    Fp2InverseTotal(x);
    if x != FP2_ZERO {
      var s := Fp2Inverse(x).value;
      Fp2InverseCorrect(x);
      Fp2Assoc(s, x, y); Fp2Comm(s, x); Fp2Comm(FP2_ONE, y);
      Fp2Units(y); Fp2Units(s);
    }
  }

  // --- Fp6 ----------------------------------------------------------------------------------------------

  function Fp6Scale(x: Fp6, s: Fp2): Fp6 {
    Fp6(Fp2Mul(x.c0, s), Fp2Mul(x.c1, s), Fp2Mul(x.c2, s))
  }

  /** If `b^2 = a c` and `a b = (9 + u) c^2`, then `b / c` is a cube root of `9 + u`. */
  lemma RatioIsRoot(a: Fp2, b: Fp2, c: Fp2)
    requires IsPrime(P) && Fp2Mul(b, b) == Fp2Mul(a, c) && Fp2MulXi(Fp2Mul(c, c)) == Fp2Mul(a, b)
    requires c != FP2_ZERO
    ensures exists y: Fp2 :: Fp2Mul(y, Fp2Mul(y, y)) == XI
  {
    hide Fp2Mul, Fp2MulXi, Fp2Inverse, IsPrime;
    Fp2InverseTotal(c);
    var s := Fp2Inverse(c).value;
    var y, ss := Fp2Mul(b, s), Fp2Mul(s, s);
    Fp2InverseCorrect(c);
    Fp2Regroup(b, s, b, s);
    Fp2Regroup(a, c, s, s);
    Fp2Units(Fp2Mul(a, s));
    assert Fp2Mul(y, y) == Fp2Mul(a, s);
    Fp2Regroup(b, s, a, s); Fp2Comm(a, b);
    Fp2XiOut(Fp2Mul(c, c), ss);
    Fp2Regroup(c, c, s, s);
    Fp2Units(FP2_ONE);
    Fp2XiOut(FP2_ONE, FP2_ONE); Fp2Units(XI);
    assert Fp2Mul(y, Fp2Mul(y, y)) == XI;
  }

  /** When `9 + u` is no cube there is no such ratio. */
  lemma RootFromRatio(a: Fp2, b: Fp2, c: Fp2)
    requires IsPrime(P) && XiNoCube() && Fp2Mul(b, b) == Fp2Mul(a, c) && Fp2MulXi(Fp2Mul(c, c)) == Fp2Mul(a, b)
    ensures c == FP2_ZERO
  {
    hide Fp2Mul, Fp2MulXi, IsPrime;
    if c != FP2_ZERO {
      RatioIsRoot(a, b, c);
    }
  }

  /** All cofactors vanish at zero only. */
  lemma CofactorsVanish(x: Fp6)
    requires IsPrime(P) && XiNoCube() && Fp6Cofactors(x).0 == FP6_ZERO
    ensures x == FP6_ZERO
  {
    hide Fp2Mul, Fp2MulXi, Fp2Square, Fp2Sub, Fp2Add, IsPrime;
    var a, b, c := x.c0, x.c1, x.c2;
    Fp2Units(a); Fp2Units(b); Fp2Units(c);
    Fp2SubZero(Fp2Square(a), Fp2MulXi(Fp2Mul(b, c)));
    Fp2SubZero(Fp2MulXi(Fp2Square(c)), Fp2Mul(a, b));
    Fp2SubZero(Fp2Square(b), Fp2Mul(a, c));
    RootFromRatio(a, b, c);
    hide XiNoCube;
    Fp2NoZeroDivisors(b, b);
    Fp2XiOut(FP2_ZERO, FP2_ZERO); Fp2Units(XI);
    Fp2NoZeroDivisors(a, a);
  }

  lemma Reps6Scale(x: Fp6, a: Z6, s: Fp2, z: Z2)
    requires Reps6(x, a) && Reps2(s, z)
    ensures Reps6(Fp6Scale(x, s), Scale6(a, z))
  {
    hide Reps2, Fp2Mul, Mul2;
    Reps2Mul(x.c0, a.c0, s, z); Reps2Mul(x.c1, a.c1, s, z); Reps2Mul(x.c2, a.c2, s, z);
  }

  lemma Fp6SubZero(x: Fp6, y: Fp6)
    ensures Fp6Sub(x, y) == FP6_ZERO <==> x == y
  {
    hide Fp2Sub;
    Fp2SubZero(x.c0, y.c0); Fp2SubZero(x.c1, y.c1); Fp2SubZero(x.c2, y.c2);
  }

  /** If `x y = 0`, then `B y = C v y`. */
  lemma Eliminate(x: Fp6, y: Fp6)
    requires Fp6Mul(x, y) == FP6_ZERO
    ensures var cof := Fp6Cofactors(x).0; Fp6Scale(y, cof.c1) == Fp6MulV(Fp6Scale(y, cof.c2))
  {
    hide Reps6, Fp6Mul, Fp6Cofactors, Fp6Scale, Fp6Sub, Fp6MulV, Mul6, Scale6, V6, Cofactors6, Sub6, Reps2;
    var p, q := Decode6(x), Decode6(y);
    var cof, cz, zero, pq := Fp6Cofactors(x).0, Cofactors6(p).0, FP6_ZERO, Mul6(p, q);
    Components(x, p);
    Reps6Cofactors(x, p);
    Components(cof, cz);
    Reps6Mul(x, p, y, q);
    Reps6MulV(zero, pq);
    Reps6Scale(Fp6MulV(zero), V6(pq), x.c2, p.c2);
    Reps6Scale(zero, pq, x.c1, p.c1);
    Reps6Add(Fp6Scale(Fp6MulV(zero), x.c2), Scale6(V6(pq), p.c2), Fp6Scale(zero, x.c1), Scale6(pq, p.c1));
    Reps6Scale(y, q, cof.c1, cz.c1);
    Reps6Scale(y, q, cof.c2, cz.c2);
    Reps6MulV(Fp6Scale(y, cof.c2), Scale6(q, cz.c2));
    Reps6Add(Fp6Scale(y, cof.c1), Scale6(q, cz.c1), Fp6MulV(Fp6Scale(y, cof.c2)), V6(Scale6(q, cz.c2)));
    EliminationIdentity(p, q);
    Reps6Unique(Fp6Sub(Fp6Scale(Fp6MulV(zero), x.c2), Fp6Scale(zero, x.c1)),
                Fp6Sub(Fp6Scale(y, cof.c1), Fp6MulV(Fp6Scale(y, cof.c2))),
                Sub6(Scale6(q, cz.c1), V6(Scale6(q, cz.c2))));
    ZeroScales(x.c2); ZeroScales(x.c1);
    Fp6SubZero(zero, zero);
    Fp6SubZero(Fp6Scale(y, cof.c1), Fp6MulV(Fp6Scale(y, cof.c2)));
  }

  lemma Components(x: Fp6, z: Z6)
    requires Reps6(x, z)
    ensures Reps2(x.c0, z.c0) && Reps2(x.c1, z.c1) && Reps2(x.c2, z.c2)
  {
  }

  lemma ZeroScales(s: Fp2)
    ensures Fp6MulV(FP6_ZERO) == FP6_ZERO && Fp6Scale(FP6_ZERO, s) == FP6_ZERO
  {
    hide Fp2Mul, Fp2MulXi;
    Fp2Units(s); Fp2Units(XI);
    Fp2XiOut(FP2_ZERO, FP2_ZERO);
  }

  lemma Fp2Cancel(p: Fp2, q: Fp2, c: Fp2)
    requires IsPrime(P) && c != FP2_ZERO && Fp2Mul(p, c) == Fp2Mul(q, c)
    ensures p == q
  {
    hide Fp2Mul, Fp2Inverse, IsPrime;
    Fp2InverseTotal(c);
    Fp2InverseCorrect(c);
    var s := Fp2Inverse(c).value;
    Fp2Assoc(p, c, s); Fp2Assoc(q, c, s);
    Fp2Units(p); Fp2Units(q);
  }

  /** `p q r = p r q` */
  lemma Fp2SwapLast(p: Fp2, q: Fp2, r: Fp2)
    ensures Fp2Mul(Fp2Mul(p, q), r) == Fp2Mul(Fp2Mul(p, r), q)
  {
    hide Fp2Mul;
    Fp2Assoc(p, q, r); Fp2Assoc(p, r, q); Fp2Comm(q, r);
  }

  /** `B y = C v y` with `C` other than zero holds for `y = 0` only. */
  lemma OnlyZeroIsShifted(y: Fp6, B: Fp2, C: Fp2)
    requires IsPrime(P) && XiNoCube() && C != FP2_ZERO && Fp6Scale(y, B) == Fp6MulV(Fp6Scale(y, C))
    ensures y == FP6_ZERO
  {
    hide Fp2Mul, Fp2MulXi, IsPrime, XiNoCube;
    var a, b, c := y.c0, y.c1, y.c2;
    assert Fp2Mul(b, b) == Fp2Mul(a, c) by {
      Fp2SwapLast(b, b, C); Fp2SwapLast(c, B, b); Fp2SwapLast(b, B, c); Fp2SwapLast(a, C, c);
      Fp2Comm(Fp2Mul(b, C), b); Fp2Comm(b, c);
      assert Fp2Mul(Fp2Mul(b, b), C) == Fp2Mul(Fp2Mul(c, B), b) == Fp2Mul(Fp2Mul(b, B), c) == Fp2Mul(Fp2Mul(a, c), C);
      Fp2Cancel(Fp2Mul(b, b), Fp2Mul(a, c), C);
    }
    assert Fp2MulXi(Fp2Mul(c, c)) == Fp2Mul(a, b) by {
      Fp2XiOut(Fp2Mul(c, c), C); Fp2SwapLast(c, c, C); Fp2XiOut(Fp2Mul(c, C), c);
      Fp2SwapLast(a, B, c); Fp2SwapLast(c, B, a); Fp2Comm(a, c); Fp2SwapLast(b, C, a); Fp2Comm(a, b);
      assert Fp2Mul(Fp2MulXi(Fp2Mul(c, c)), C) == Fp2Mul(Fp2Mul(a, B), c) == Fp2Mul(Fp2Mul(c, B), a)
          == Fp2Mul(Fp2Mul(a, b), C);
      Fp2Cancel(Fp2MulXi(Fp2Mul(c, c)), Fp2Mul(a, b), C);
    }
    RootFromRatio(a, b, c);
    Fp2Units(B);
    Fp2NoZeroDivisors(b, C);
    Fp2NoZeroDivisors(a, C);
  }

  lemma ScaleVanishes(y: Fp6, s: Fp2)
    requires IsPrime(P) && Fp6Scale(y, s) == FP6_ZERO
    ensures s == FP2_ZERO || y == FP6_ZERO
  {
    hide Fp2Mul, IsPrime;
    Fp2NoZeroDivisors(y.c0, s); Fp2NoZeroDivisors(y.c1, s); Fp2NoZeroDivisors(y.c2, s);
  }

  lemma ScaleByZero(y: Fp6)
    ensures Fp6Scale(y, FP2_ZERO) == FP6_ZERO
  {
    hide Fp2Mul;
    Fp2Units(y.c0); Fp2Units(y.c1); Fp2Units(y.c2);
  }

  /** A product with an element of Fp2 is a scaling. */
  lemma AxisProduct(a: Fp2, y: Fp6)
    ensures Fp6Mul(Fp6(a, FP2_ZERO, FP2_ZERO), y) == Fp6Scale(y, a)
  {
    hide Fp6Mul, Fp6Scale, Mul6, Scale6, Reps2, Mul2;
    var x, p, q := Fp6(a, FP2_ZERO, FP2_ZERO), Decode2(a), Decode6(y);
    var z := Z6(p, Z2_ZERO, Z2_ZERO);
    Reps2Zero();
    Reps6Mul(x, z, y, q);
    Reps6Scale(y, q, a, p);
    AxisProduct6(p, q);
    Reps6Unique(Fp6Mul(x, y), Fp6Scale(y, a), Scale6(q, p));
  }

  /** When `9 + u` is no cube, Fp6 has no zero divisors. */
  lemma Fp6NoZeroDivisors(x: Fp6, y: Fp6)
    requires IsPrime(P) && XiNoCube() && Fp6Mul(x, y) == FP6_ZERO
    ensures x == FP6_ZERO || y == FP6_ZERO
  {
    hide Fp6Scale, Fp6MulV, Fp6Cofactors, IsPrime, Fp6Mul, XiNoCube;
    Eliminate(x, y);
    var cof := Fp6Cofactors(x).0;
    if cof.c2 != FP2_ZERO {
      OnlyZeroIsShifted(y, cof.c1, cof.c2);
    } else if y != FP6_ZERO {
      ScaleByZero(y);
      ZeroScales(FP2_ZERO);
      ScaleVanishes(y, cof.c1);
      CofactorsOnAxis(x);
      AxisProduct(x.c0, y);
      ScaleVanishes(y, x.c0);
    }
  }

  lemma CofactorsOnAxis(x: Fp6)
    requires IsPrime(P) && XiNoCube() && Fp6Cofactors(x).0.c1 == FP2_ZERO && Fp6Cofactors(x).0.c2 == FP2_ZERO
    ensures x.c1 == FP2_ZERO && x.c2 == FP2_ZERO
  {
    hide Fp2Mul, Fp2MulXi, Fp2Square, Fp2Sub, Fp2Add, IsPrime;
    var a, b, c := x.c0, x.c1, x.c2;
    Fp2Units(a); Fp2Units(b); Fp2Units(c);
    Fp2SubZero(Fp2MulXi(Fp2Square(c)), Fp2Mul(a, b));
    Fp2SubZero(Fp2Square(b), Fp2Mul(a, c));
    RootFromRatio(a, b, c);
    hide XiNoCube;
    Fp2NoZeroDivisors(b, b);
  }

  lemma CofactorsOfZero()
    ensures Fp6Cofactors(FP6_ZERO).1 == FP2_ZERO
  {
    hide Reps2, Fp6Cofactors, Cofactors6, Mul2, Xi2, Add2, Sub2;
    Reps2Zero();
    Reps6Cofactors(FP6_ZERO, Z6_ZERO);
    ZeroProducts(Z2_ZERO);
    SumsOfZero();
    CofactorsOfZero6(Z2_ZERO);
    Reps2Unique(Fp6Cofactors(FP6_ZERO).1, FP2_ZERO, Z2_ZERO);
  }

  /** When `9 + u` is no cube the norm of `fp6_invert` vanishes at zero only. */
  lemma Fp6InverseOnlyZero(x: Fp6)
    requires IsPrime(P) && XiNoCube()
    ensures Fp6Inverse(x).None? <==> x == FP6_ZERO
  {
    hide Fp6Cofactors, Fp6Mul, IsPrime, XiNoCube, Fp2Inverse;
    var (cof, D) := Fp6Cofactors(x);
    Fp2InverseTotal(D);
    CofactorsOfZero();
    if D == FP2_ZERO {
      Fp6CofactorsCorrect(x);
      Fp6NoZeroDivisors(x, cof);
      if cof == FP6_ZERO {
        CofactorsVanish(x);
      }
    }
  }

  /** `y - v` */
  function Linear(y: Fp2): Fp6 {
    Fp6(y, Fp2Sub(FP2_ZERO, FP2_ONE), FP2_ZERO)
  }

  lemma LinearReps(y: Fp2, p: Z2)
    requires Reps2(y, p)
    ensures Reps6(Linear(y), Linear6(p))
  {
    hide Reps2, Fp2Sub, Sub2, Add2;
    Reps2Zero();
    Reps2Add(FP2_ZERO, Z2_ZERO, FP2_ONE, Z2(1, 0));
    MinusOne();
  }

  /** The norm of `y - v` is `y^3 - (9 + u)`, and its cofactors are not all zero. */
  lemma NormOfLinear(y: Fp2)
    ensures Fp6Cofactors(Linear(y)).1 == Fp2Sub(Fp2Mul(y, Fp2Mul(y, y)), XI)
    ensures Fp6Cofactors(Linear(y)).0.c2 == FP2_ONE
  {
    hide Reps2, Reps6, Fp6Cofactors, Fp2Mul, Fp2Sub, Mul2, Sub2, Cofactors6, Linear, Linear6;
    var p := Decode2(y);
    LinearReps(y, p);
    Reps6Cofactors(Linear(y), Linear6(p));
    Components(Fp6Cofactors(Linear(y)).0, Cofactors6(Linear6(p)).0);
    LinearNorm(p);
    Reps2Mul(y, p, y, p); Reps2Mul(y, p, Fp2Mul(y, y), Mul2(p, p));
    RepsXi();
    Reps2Add(Fp2Mul(y, Fp2Mul(y, y)), Mul2(p, Mul2(p, p)), XI, Z2(9, 1));
    Reps2Unique(Fp6Cofactors(Linear(y)).1, Fp2Sub(Fp2Mul(y, Fp2Mul(y, y)), XI), Sub2(Mul2(p, Mul2(p, p)), Z2(9, 1)));
    Reps2Zero();
    Reps2Unique(Fp6Cofactors(Linear(y)).0.c2, FP2_ONE, Z2(1, 0));
  }

  /** If P is prime, `fp6_invert` fails on zero alone if and only if `9 + u` is no cube in Fp2. */
  lemma Fp6InverseTotalIff()
    requires IsPrime(P)
    ensures XiNoCube() <==> (forall x: Fp6 :: Fp6Inverse(x).None? <==> x == FP6_ZERO)
  {
    hide Fp6Inverse, Fp2Mul, IsPrime;
    if XiNoCube() {
      forall x: Fp6
        ensures Fp6Inverse(x).None? <==> x == FP6_ZERO
      {
        Fp6InverseOnlyZero(x);
      }
    } else {
      var y: Fp2 :| Fp2Mul(y, Fp2Mul(y, y)) == XI;
      LinearNotInvertible(y);
    }
  }

  lemma LinearNotInvertible(y: Fp2)
    requires IsPrime(P) && Fp2Mul(y, Fp2Mul(y, y)) == XI
    ensures Fp6Inverse(Linear(y)).None? && Linear(y) != FP6_ZERO
  {
    hide Fp6Cofactors, Fp2Mul, IsPrime, Fp2Inverse, Fp2Sub;
    NormOfLinear(y);
    Fp2SubZero(XI, XI);
    Fp2SubZero(FP2_ZERO, FP2_ONE);
    Fp2InverseTotal(FP2_ZERO);
    OneIsNotZero();
  }

  lemma OneIsNotZero()
    ensures FP2_ONE != FP2_ZERO
  {
  }

  // --- Fp12 ---------------------------------------------------------------------------------------------

  lemma Fp6Comm(x: Fp6, y: Fp6)
    ensures Fp6Mul(x, y) == Fp6Mul(y, x)
  {
    hide Reps6, Fp6Mul, Mul6;
    var p, q := Decode6(x), Decode6(y);
    Reps6Mul(x, p, y, q); Reps6Mul(y, q, x, p);
    Mul6Comm(p, q);
    Reps6Unique(Fp6Mul(x, y), Fp6Mul(y, x), Mul6(p, q));
  }

  lemma Fp6Assoc(x: Fp6, y: Fp6, z: Fp6)
    ensures Fp6Mul(Fp6Mul(x, y), z) == Fp6Mul(x, Fp6Mul(y, z))
  {
    hide Reps6, Fp6Mul, Mul6;
    var p, q, r := Decode6(x), Decode6(y), Decode6(z);
    Reps6Mul(x, p, y, q); Reps6Mul(Fp6Mul(x, y), Mul6(p, q), z, r);
    Reps6Mul(y, q, z, r); Reps6Mul(x, p, Fp6Mul(y, z), Mul6(q, r));
    Mul6Assoc(p, q, r);
    Reps6Unique(Fp6Mul(Fp6Mul(x, y), z), Fp6Mul(x, Fp6Mul(y, z)), Mul6(p, Mul6(q, r)));
  }

  lemma Fp6Units(x: Fp6)
    ensures Fp6Mul(x, FP6_ONE) == x && Fp6Mul(x, FP6_ZERO) == FP6_ZERO
  {
    hide Fp6Mul, Fp2Mul;
    Fp6Comm(x, FP6_ONE); Fp6Comm(x, FP6_ZERO);
    AxisProduct(FP2_ONE, x); AxisProduct(FP2_ZERO, x);
    Fp2Units(x.c0); Fp2Units(x.c1); Fp2Units(x.c2);
  }

  lemma Fp6ShiftOut(x: Fp6, y: Fp6)
    ensures Fp6Mul(Fp6MulV(x), y) == Fp6MulV(Fp6Mul(x, y))
  {
    hide Reps6, Fp6Mul, Fp6MulV, Mul6, V6;
    var p, q := Decode6(x), Decode6(y);
    Reps6Mul(x, p, y, q); Reps6MulV(Fp6Mul(x, y), Mul6(p, q));
    Reps6MulV(x, p); Reps6Mul(Fp6MulV(x), V6(p), y, q);
    ShiftOut(p, q);
    Reps6Unique(Fp6Mul(Fp6MulV(x), y), Fp6MulV(Fp6Mul(x, y)), V6(Mul6(p, q)));
  }

  lemma ShiftedOne()
    ensures Fp6MulV(FP6_ONE) == V
  {
    hide Fp2MulXi;
    ZeroScales(FP2_ZERO);
    Fp2XiOut(FP2_ZERO, FP2_ZERO); Fp2Units(XI);
  }

  /** `(p q) (r s) = (p r) (q s)` */
  lemma Fp6Regroup(p: Fp6, q: Fp6, r: Fp6, s: Fp6)
    ensures Fp6Mul(Fp6Mul(p, q), Fp6Mul(r, s)) == Fp6Mul(Fp6Mul(p, r), Fp6Mul(q, s))
  {
    hide Fp6Mul;
    Fp6Assoc(p, q, Fp6Mul(r, s)); Fp6Assoc(q, r, s); Fp6Comm(q, r);
    Fp6Assoc(r, q, s); Fp6Assoc(p, r, Fp6Mul(q, s));
  }

  /** If `a^2 = v b^2`, then `a / b` is a square root of `v`. */
  lemma RatioIsSquareRoot(a: Fp6, b: Fp6)
    requires IsPrime(P) && Fp6Mul(a, a) == Fp6MulV(Fp6Mul(b, b)) && Fp6Inverse(b).Some?
    ensures exists t: Fp6 :: Fp6Mul(t, t) == V
  {
    hide Fp6Mul, Fp6MulV, Fp6Inverse, IsPrime;
    var s := Fp6Inverse(b).value;
    var t := Fp6Mul(a, s);
    Fp6InverseCorrect(b);
    Fp6Regroup(a, s, a, s);
    Fp6ShiftOut(Fp6Mul(b, b), Fp6Mul(s, s));
    Fp6Regroup(b, b, s, s);
    Fp6Units(FP6_ONE);
    ShiftedOne();
    assert Fp6Mul(t, t) == V;
  }

  lemma Norm12Zero(x: Fp12)
    ensures Norm12(x) == FP6_ZERO <==> Fp6Mul(x.c0, x.c0) == Fp6MulV(Fp6Mul(x.c1, x.c1))
  {
    hide Fp6Mul, Fp6MulV, Fp6Square, Fp6Sub;
    Fp6SquareIsSelfProduct(x.c0); Fp6SquareIsSelfProduct(x.c1);
    Fp6SubZero(Fp6Square(x.c0), Fp6MulV(Fp6Square(x.c1)));
  }

  /** When `v` is no square either, the norm of `fp12_invert` vanishes at zero only. */
  lemma Fp12InverseOnlyZero(x: Fp12)
    requires IsPrime(P) && XiNoCube() && VNoSquare()
    ensures Fp12Inverse(x).None? <==> x == FP12_ZERO
  {
    hide Fp6Inverse, Fp6Mul, Fp6MulV, Norm12, IsPrime, XiNoCube;
    Norm12Zero(x);
    Fp6InverseOnlyZero(Norm12(x));
    Fp6InverseOnlyZero(x.c1);
    Fp6Units(FP6_ZERO);
    ZeroScales(FP2_ZERO);
    if Norm12(x) == FP6_ZERO {
      if x.c1 == FP6_ZERO {
        Fp6NoZeroDivisors(x.c0, x.c0);
      } else {
        RatioIsSquareRoot(x.c0, x.c1);
      }
    }
  }

  lemma SquareRootNotInvertible(t: Fp6)
    requires IsPrime(P) && Fp6Mul(t, t) == V
    ensures Fp12Inverse(Fp12(t, FP6_ONE)).None? && Fp12(t, FP6_ONE) != FP12_ZERO
  {
    hide Fp6Mul, Fp6MulV, Norm12, IsPrime, Fp6Cofactors, Fp2Inverse;
    Norm12Zero(Fp12(t, FP6_ONE));
    Fp6Units(FP6_ONE);
    ShiftedOne();
    CofactorsOfZero();
    Fp2InverseTotal(FP2_ZERO);
    OneIsNotZero();
  }

  lemma SquareNotInvertible(x: Fp6)
    requires IsPrime(P) && Fp6Inverse(x).None? && Fp6Cofactors(x).0 != FP6_ZERO
    ensures Fp6Inverse(Fp6Square(x)).None?
  {
    hide Fp6Mul, IsPrime, Fp6Cofactors, Fp2Inverse, Fp6Square;
    var (cof, D) := Fp6Cofactors(x);
    Fp2InverseTotal(D);
    Fp6CofactorsCorrect(x);
    Fp6SquareIsSelfProduct(x);
    Fp6InverseCorrect(Fp6Square(x));
    if Fp6Inverse(Fp6Square(x)).Some? {
      NothingTimesZeroIsOne(x, cof, Fp6Inverse(Fp6Square(x)).value);
    }
  }

  lemma NothingTimesZeroIsOne(x: Fp6, cof: Fp6, i: Fp6)
    requires Fp6Mul(x, cof) == FP6_ZERO && Fp6Mul(Fp6Mul(x, x), i) == FP6_ONE
    ensures cof == FP6_ZERO
  {
    hide Fp6Mul;
    Fp6Assoc(x, x, i); Fp6Assoc(cof, x, Fp6Mul(x, i)); Fp6Comm(cof, x);
    Fp6Units(cof); Fp6Units(Fp6Mul(x, i)); Fp6Comm(FP6_ZERO, Fp6Mul(x, i));
  }

  lemma LinearOnAxisNotInvertible(y: Fp2)
    requires IsPrime(P) && Fp2Mul(y, Fp2Mul(y, y)) == XI
    ensures var x := Fp12(Linear(y), FP6_ZERO); Fp12Inverse(x).None? && x != FP12_ZERO
  {
    hide Fp6Mul, IsPrime, Fp6Cofactors, Fp2Mul, Fp2Sub, Fp6Inverse, Fp6Square, Fp6MulV, Fp6Sub;
    var x := Linear(y);
    hide Linear;
    LinearNotInvertible(y);
    NormOfLinear(y);
    OneIsNotZero();
    SquareNotInvertible(x);
    Fp6SquareIsSelfProduct(FP6_ZERO);
    Fp6Units(FP6_ZERO);
    ZeroScales(FP2_ZERO);
    MinusZero(Fp6Square(x));
  }

  lemma MinusZero(x: Fp6)
    ensures Fp6Sub(x, FP6_ZERO) == x
  {
    hide Reps6, Fp6Sub;
    var p := Decode6(x);
    Reps2Zero();
    Reps6Add(x, p, FP6_ZERO, Z6_ZERO);
    assert Sub6(p, Z6_ZERO) == p;
    Reps6Unique(Fp6Sub(x, FP6_ZERO), x, p);
  }

  /**
    * If P is prime, `fp12_invert` fails on zero alone if and only if `9 + u` is no cube in Fp2 and `v` is no square in
    * Fp6.
    */
  lemma Fp12InverseTotalIff()
    requires IsPrime(P)
    ensures XiNoCube() && VNoSquare() <==> (forall x: Fp12 :: Fp12Inverse(x).None? <==> x == FP12_ZERO)
  {
    hide Fp12Inverse, Fp2Mul, Fp6Mul, IsPrime;
    if !XiNoCube() {
      var y: Fp2 :| Fp2Mul(y, Fp2Mul(y, y)) == XI;
      LinearOnAxisNotInvertible(y);
    } else if !VNoSquare() {
      var t: Fp6 :| Fp6Mul(t, t) == V;
      SquareRootNotInvertible(t);
    } else {
      forall x: Fp12
        ensures Fp12Inverse(x).None? <==> x == FP12_ZERO
      {
        Fp12InverseOnlyZero(x);
      }
    }
  }
}
