// The extension tower Fp2 = Fp[u]/(u^2+1), Fp6 = Fp2[v]/(v^3-(9+u)), Fp12 = Fp6[w]/(w^2-v)
// (zk_verifier.rs, "Fp2 Arithmetic" to "Fp12 Arithmetic").

module Tower {
  import opened ModArith
  import opened Polynomials
  import opened Fermat
  import opened Common
  import Limbs
  import opened Montgomery

  datatype Fp2 = Fp2(c0: Fp, c1: Fp)
  datatype Fp6 = Fp6(c0: Fp2, c1: Fp2, c2: Fp2)
  datatype Fp12 = Fp12(c0: Fp6, c1: Fp6)

  const FP2_ZERO := Fp2(FP_ZERO, FP_ZERO)
  const FP6_ZERO := Fp6(FP2_ZERO, FP2_ZERO, FP2_ZERO)
  const FP12_ONE := Fp12(Fp6(Fp2(R_MOD_P, FP_ZERO), FP2_ZERO, FP2_ZERO), FP6_ZERO)

  // --- Fp2 --------------------------------------------------------------------------------------

  function Fp2Add(a: Fp2, b: Fp2): Fp2 {
    Fp2(FpAdd(a.c0, b.c0), FpAdd(a.c1, b.c1))
  }

  function Fp2Sub(a: Fp2, b: Fp2): Fp2 {
    Fp2(FpSub(a.c0, b.c0), FpSub(a.c1, b.c1))
  }

  function Fp2Mul(a: Fp2, b: Fp2): Fp2 {
    var v0 := FpMul(a.c0, b.c0);
    var v1 := FpMul(a.c1, b.c1);
    var re := FpSub(v0, v1);
    var im := FpSub(FpMul(FpAdd(a.c0, a.c1), FpAdd(b.c0, b.c1)), FpAdd(v0, v1));
    Fp2(re, im)
  }

  function Fp2Square(a: Fp2): Fp2 {
    var re := FpMul(FpSub(a.c0, a.c1), FpAdd(a.c0, a.c1));
    var im := FpMul(FpAdd(a.c0, a.c0), a.c1);
    Fp2(re, im)
  }

  const NINE: Fp := (Val4Nine(); NINE_LIMBS)

  function Fp2MulXi(x: Fp2): Fp2 {
    var nineMont := FpMul(NINE, R2_MOD_P);
    var nineX0 := FpMul(x.c0, nineMont);
    var nineX1 := FpMul(x.c1, nineMont);
    Fp2(FpSub(nineX0, x.c1), FpAdd(nineX1, x.c0))
  }

  // --- Fp6 --------------------------------------------------------------------------------------

  function Fp6Add(a: Fp6, b: Fp6): Fp6 {
    Fp6(Fp2Add(a.c0, b.c0), Fp2Add(a.c1, b.c1), Fp2Add(a.c2, b.c2))
  }

  function Fp6Sub(a: Fp6, b: Fp6): Fp6 {
    Fp6(Fp2Sub(a.c0, b.c0), Fp2Sub(a.c1, b.c1), Fp2Sub(a.c2, b.c2))
  }

  function Fp6Mul(x: Fp6, y: Fp6): Fp6 {
    var v0 := Fp2Mul(x.c0, y.c0);
    var v1 := Fp2Mul(x.c1, y.c1);
    var v2 := Fp2Mul(x.c2, y.c2);
    var c0 := Fp2Add(Fp2MulXi(Fp2Sub(Fp2Sub(Fp2Mul(Fp2Add(x.c1, x.c2), Fp2Add(y.c1, y.c2)), v1), v2)), v0);
    var c1 := Fp2Add(Fp2MulXi(v2), Fp2Sub(Fp2Sub(Fp2Mul(Fp2Add(x.c0, x.c1), Fp2Add(y.c0, y.c1)), v0), v1));
    var c2 := Fp2Add(v1, Fp2Sub(Fp2Sub(Fp2Mul(Fp2Add(x.c0, x.c2), Fp2Add(y.c0, y.c2)), v0), v2));
    Fp6(c0, c1, c2)
  }

  function Fp6Square(x: Fp6): Fp6 {
    var ab2 := Fp2Add(Fp2Mul(x.c0, x.c1), Fp2Mul(x.c0, x.c1));
    var bc2 := Fp2Add(Fp2Mul(x.c1, x.c2), Fp2Mul(x.c1, x.c2));
    var ac2 := Fp2Add(Fp2Mul(x.c0, x.c2), Fp2Mul(x.c0, x.c2));
    var c0 := Fp2Add(Fp2Square(x.c0), Fp2MulXi(bc2));
    var c1 := Fp2Add(ab2, Fp2MulXi(Fp2Square(x.c2)));
    var c2 := Fp2Add(Fp2Square(x.c1), ac2);
    Fp6(c0, c1, c2)
  }

  function Fp6MulV(x: Fp6): Fp6 {
    Fp6(Fp2MulXi(x.c2), x.c0, x.c1)
  }

  /** The cofactors (A, B, C) and the norm D that `fp6_invert` computes before dividing. */
  function Fp6Cofactors(x: Fp6): (r: (Fp6, Fp2)) {
    var a, b, c := x.c0, x.c1, x.c2;
    var A := Fp2Sub(Fp2Square(a), Fp2MulXi(Fp2Mul(b, c)));
    var B := Fp2Sub(Fp2MulXi(Fp2Square(c)), Fp2Mul(a, b));
    var C := Fp2Sub(Fp2Square(b), Fp2Mul(a, c));
    var D := Fp2Add(Fp2Mul(a, A), Fp2Add(Fp2MulXi(Fp2Mul(c, B)), Fp2MulXi(Fp2Mul(b, C))));
    (Fp6(A, B, C), D)
  }

  // --- Fp12 -------------------------------------------------------------------------------------

  function Fp12Mul(x: Fp12, y: Fp12): Fp12 {
    var v0 := Fp6Mul(x.c0, y.c0);
    var v1 := Fp6Mul(x.c1, y.c1);
    var c0 := Fp6Add(v0, Fp6MulV(v1));
    var c1 := Fp6Sub(Fp6Sub(Fp6Mul(Fp6Add(x.c0, x.c1), Fp6Add(y.c0, y.c1)), v0), v1);
    Fp12(c0, c1)
  }

  function Fp12Square(x: Fp12): Fp12 {
    var a, b := x.c0, x.c1;
    var ab2 := Fp6Add(Fp6Mul(a, b), Fp6Mul(a, b));
    Fp12(Fp6Add(Fp6Square(a), Fp6MulV(Fp6Square(b))), ab2)
  }

  // --- What the elements stand for ----------------------------------------------------------------

  predicate Reps2(x: Fp2, z: Z2) { Reps(x.c0, z.re) && Reps(x.c1, z.im) }
  predicate Reps6(x: Fp6, z: Z6) { Reps2(x.c0, z.c0) && Reps2(x.c1, z.c1) && Reps2(x.c2, z.c2) }
  predicate Reps12(x: Fp12, z: Z12) { Reps6(x.c0, z.c0) && Reps6(x.c1, z.c1) }

  function Decode2(x: Fp2): (z: Z2)
    ensures Reps2(x, z)
  {
    RepsDecode(x.c0); RepsDecode(x.c1);
    Z2(Decode(x.c0), Decode(x.c1))
  }

  function Decode6(x: Fp6): (z: Z6)
    ensures Reps6(x, z)
  {
    Z6(Decode2(x.c0), Decode2(x.c1), Decode2(x.c2))
  }

  function Decode12(x: Fp12): (z: Z12)
    ensures Reps12(x, z)
  {
    Z12(Decode6(x.c0), Decode6(x.c1))
  }

  lemma Reps2Unique(x: Fp2, y: Fp2, z: Z2)
    requires Reps2(x, z) && Reps2(y, z)
    ensures x == y
  {
    CongRefl(z.re, P); CongRefl(z.im, P);
    RepsUnique(x.c0, z.re, y.c0, z.re);
    RepsUnique(x.c1, z.im, y.c1, z.im);
  }

  lemma Reps6Unique(x: Fp6, y: Fp6, z: Z6)
    requires Reps6(x, z) && Reps6(y, z)
    ensures x == y
  {
    hide Reps, FpAdd, FpSub, FpMul;
    Reps2Unique(x.c0, y.c0, z.c0); Reps2Unique(x.c1, y.c1, z.c1); Reps2Unique(x.c2, y.c2, z.c2);
  }

  lemma Reps2Add(x: Fp2, a: Z2, y: Fp2, b: Z2)
    requires Reps2(x, a) && Reps2(y, b)
    ensures Reps2(Fp2Add(x, y), Add2(a, b)) && Reps2(Fp2Sub(x, y), Sub2(a, b))
  {
    hide Reps, FpAdd, FpSub, FpMul;
    RepsAdd(x.c0, a.re, y.c0, b.re); RepsAdd(x.c1, a.im, y.c1, b.im);
    RepsSub(x.c0, a.re, y.c0, b.re); RepsSub(x.c1, a.im, y.c1, b.im);
  }

  /** The three-multiplication product represents the complex product. */
  lemma Reps2Mul(x: Fp2, a: Z2, y: Fp2, b: Z2)
    requires Reps2(x, a) && Reps2(y, b)
    ensures Reps2(Fp2Mul(x, y), Mul2(a, b))
  {
    hide Reps, FpAdd, FpSub, FpMul;
    RepsMul(x.c0, a.re, y.c0, b.re);
    RepsMul(x.c1, a.im, y.c1, b.im);
    RepsSub(FpMul(x.c0, y.c0), a.re * b.re, FpMul(x.c1, y.c1), a.im * b.im);
    RepsAdd(FpMul(x.c0, y.c0), a.re * b.re, FpMul(x.c1, y.c1), a.im * b.im);
    RepsSumProduct(x, a, y, b);
    RepsSub(FpMul(FpAdd(x.c0, x.c1), FpAdd(y.c0, y.c1)), Mul2(a, b).im + (a.re * b.re + a.im * b.im),
            FpAdd(FpMul(x.c0, y.c0), FpMul(x.c1, y.c1)), a.re * b.re + a.im * b.im);
  }

  lemma RepsSumProduct(x: Fp2, a: Z2, y: Fp2, b: Z2)
    requires Reps2(x, a) && Reps2(y, b)
    ensures Reps(FpMul(FpAdd(x.c0, x.c1), FpAdd(y.c0, y.c1)), Mul2(a, b).im + (a.re * b.re + a.im * b.im))
  {
    hide Reps, FpAdd, FpSub, FpMul;
    SumProduct(a.re, a.im, b.re, b.im);
    RepsMulOfSums(x.c0, a.re, x.c1, a.im, y.c0, b.re, y.c1, b.im);
  }

  lemma RepsMulOfSums(x: Fp, p: int, x': Fp, q: int, y: Fp, r: int, y': Fp, s: int)
    requires Reps(x, p) && Reps(x', q) && Reps(y, r) && Reps(y', s)
    ensures Reps(FpMul(FpAdd(x, x'), FpAdd(y, y')), (p + q) * (r + s))
  {
    hide Reps, FpAdd, FpSub, FpMul;
    RepsAdd(x, p, x', q);
    RepsAdd(y, r, y', s);
    RepsMul(FpAdd(x, x'), p + q, FpAdd(y, y'), r + s);
  }

  lemma Reps2Square(x: Fp2, a: Z2)
    requires Reps2(x, a)
    ensures Reps2(Fp2Square(x), Mul2(a, a))
  {
    hide Reps, FpAdd, FpSub, FpMul;
    RepsSub(x.c0, a.re, x.c1, a.im);
    RepsAdd(x.c0, a.re, x.c1, a.im);
    RepsAdd(x.c0, a.re, x.c0, a.re);
    RepsMul(FpSub(x.c0, x.c1), a.re - a.im, FpAdd(x.c0, x.c1), a.re + a.im);
    RepsMul(FpAdd(x.c0, x.c0), a.re + a.re, x.c1, a.im);
    SquareProducts(a.re, a.im);
  }

  const NINE_LIMBS: seq<Limbs.u64> := [9, 0, 0, 0]

  lemma Val4Nine()
    ensures |NINE_LIMBS| == 4 && Limbs.Val(NINE_LIMBS) == 9
  {
    Val4(NINE_LIMBS);
  }

  lemma Reps2MulXi(x: Fp2, a: Z2)
    requires Reps2(x, a)
    ensures Reps2(Fp2MulXi(x), Xi2(a))
  {
    hide Reps, FpAdd, FpSub, FpMul;
    var nineMont := FpMul(NINE, R2_MOD_P);
    Val4Nine();
    IntoMontgomery(NINE);
    RepsDecode(nineMont);
    RepsMul(x.c0, a.re, nineMont, 9);
    RepsMul(x.c1, a.im, nineMont, 9);
    RepsSub(FpMul(x.c0, nineMont), a.re * 9, x.c1, a.im);
    RepsAdd(FpMul(x.c1, nineMont), a.im * 9, x.c0, a.re);
  }

  // --- Fp6 and Fp12 represent polynomial arithmetic -----------------------------------------------

  lemma Reps6Add(x: Fp6, a: Z6, y: Fp6, b: Z6)
    requires Reps6(x, a) && Reps6(y, b)
    ensures Reps6(Fp6Add(x, y), Add6(a, b)) && Reps6(Fp6Sub(x, y), Sub6(a, b))
  {
    hide Reps, FpAdd, FpSub, FpMul;
    Reps2Add(x.c0, a.c0, y.c0, b.c0);
    Reps2Add(x.c1, a.c1, y.c1, b.c1);
    Reps2Add(x.c2, a.c2, y.c2, b.c2);
  }

  /** One Karatsuba cross term: `(p+q)(r+s) - pr - qs` represents `ps + qr`. */
  lemma Reps2Cross(x: Fp2, p: Z2, y: Fp2, q: Z2, z: Fp2, r: Z2, w: Fp2, s: Z2)
    requires Reps2(x, p) && Reps2(y, q) && Reps2(z, r) && Reps2(w, s)
    ensures Reps2(Fp2Sub(Fp2Sub(Fp2Mul(Fp2Add(x, y), Fp2Add(z, w)), Fp2Mul(x, z)), Fp2Mul(y, w)),
                  Add2(Mul2(p, s), Mul2(q, r)))
  {
    hide Reps, FpAdd, FpSub, FpMul;
    Reps2Add(x, p, y, q);
    Reps2Add(z, r, w, s);
    Reps2Mul(Fp2Add(x, y), Add2(p, q), Fp2Add(z, w), Add2(r, s));
    Reps2Mul(x, p, z, r);
    Reps2Mul(y, q, w, s);
    var t := Fp2Mul(Fp2Add(x, y), Fp2Add(z, w));
    var tz := Mul2(Add2(p, q), Add2(r, s));
    Reps2Add(t, tz, Fp2Mul(x, z), Mul2(p, r));
    Reps2Add(Fp2Sub(t, Fp2Mul(x, z)), Sub2(tz, Mul2(p, r)), Fp2Mul(y, w), Mul2(q, s));
    Karatsuba2(p, q, r, s);
  }

  lemma Reps6Mul(x: Fp6, a: Z6, y: Fp6, b: Z6)
    requires Reps6(x, a) && Reps6(y, b)
    ensures Reps6(Fp6Mul(x, y), Mul6(a, b))
  {
    hide Reps, FpAdd, FpSub, FpMul;
    Reps6Mul0(x, a, y, b); Reps6Mul1(x, a, y, b); Reps6Mul2(x, a, y, b);
  }

  lemma Reps6Mul0(x: Fp6, a: Z6, y: Fp6, b: Z6)
    requires Reps6(x, a) && Reps6(y, b)
    ensures Reps2(Fp6Mul(x, y).c0, Mul6(a, b).c0)
  {
    hide Reps, FpAdd, FpSub, FpMul;
    var cross := Fp2Sub(Fp2Sub(Fp2Mul(Fp2Add(x.c1, x.c2), Fp2Add(y.c1, y.c2)), Fp2Mul(x.c1, y.c1)), Fp2Mul(x.c2, y.c2));
    var crossZ := Add2(Mul2(a.c1, b.c2), Mul2(a.c2, b.c1));
    Reps2Cross(x.c1, a.c1, x.c2, a.c2, y.c1, b.c1, y.c2, b.c2);
    Reps2MulXi(cross, crossZ);
    Reps2Mul(x.c0, a.c0, y.c0, b.c0);
    Reps2Add(Fp2MulXi(cross), Xi2(crossZ), Fp2Mul(x.c0, y.c0), Mul2(a.c0, b.c0));
    Add2Comm(Xi2(crossZ), Mul2(a.c0, b.c0));
  }

  lemma Reps6Mul1(x: Fp6, a: Z6, y: Fp6, b: Z6)
    requires Reps6(x, a) && Reps6(y, b)
    ensures Reps2(Fp6Mul(x, y).c1, Mul6(a, b).c1)
  {
    hide Reps, FpAdd, FpSub, FpMul;
    var cross := Fp2Sub(Fp2Sub(Fp2Mul(Fp2Add(x.c0, x.c1), Fp2Add(y.c0, y.c1)), Fp2Mul(x.c0, y.c0)), Fp2Mul(x.c1, y.c1));
    var crossZ := Add2(Mul2(a.c0, b.c1), Mul2(a.c1, b.c0));
    Reps2Cross(x.c0, a.c0, x.c1, a.c1, y.c0, b.c0, y.c1, b.c1);
    Reps2Mul(x.c2, a.c2, y.c2, b.c2);
    Reps2MulXi(Fp2Mul(x.c2, y.c2), Mul2(a.c2, b.c2));
    Reps2Add(Fp2MulXi(Fp2Mul(x.c2, y.c2)), Xi2(Mul2(a.c2, b.c2)), cross, crossZ);
    Add2Comm(Xi2(Mul2(a.c2, b.c2)), crossZ);
  }

  lemma Reps6Mul2(x: Fp6, a: Z6, y: Fp6, b: Z6)
    requires Reps6(x, a) && Reps6(y, b)
    ensures Reps2(Fp6Mul(x, y).c2, Mul6(a, b).c2)
  {
    hide Reps, FpAdd, FpSub, FpMul;
    var cross := Fp2Sub(Fp2Sub(Fp2Mul(Fp2Add(x.c0, x.c2), Fp2Add(y.c0, y.c2)), Fp2Mul(x.c0, y.c0)), Fp2Mul(x.c2, y.c2));
    var m0, m1, m2 := Mul2(a.c0, b.c2), Mul2(a.c1, b.c1), Mul2(a.c2, b.c0);
    Reps2Cross(x.c0, a.c0, x.c2, a.c2, y.c0, b.c0, y.c2, b.c2);
    Reps2Mul(x.c1, a.c1, y.c1, b.c1);
    Reps2Add(Fp2Mul(x.c1, y.c1), m1, cross, Add2(m0, m2));
    RotateSum(m0, m1, m2);
  }

  lemma Reps6Square(x: Fp6, a: Z6)
    requires Reps6(x, a)
    ensures Reps6(Fp6Square(x), Mul6(a, a))
  {
    hide Reps, FpAdd, FpSub, FpMul;
    Reps2Double(x.c0, a.c0, x.c1, a.c1);
    Reps2Double(x.c1, a.c1, x.c2, a.c2);
    Reps2Double(x.c0, a.c0, x.c2, a.c2);
    Reps2Square(x.c0, a.c0); Reps2Square(x.c1, a.c1); Reps2Square(x.c2, a.c2);
    var bc2, bcZ := Fp2Add(Fp2Mul(x.c1, x.c2), Fp2Mul(x.c1, x.c2)), Add2(Mul2(a.c1, a.c2), Mul2(a.c2, a.c1));
    var ab2, abZ := Fp2Add(Fp2Mul(x.c0, x.c1), Fp2Mul(x.c0, x.c1)), Add2(Mul2(a.c0, a.c1), Mul2(a.c1, a.c0));
    var ac2, acZ := Fp2Add(Fp2Mul(x.c0, x.c2), Fp2Mul(x.c0, x.c2)), Add2(Mul2(a.c0, a.c2), Mul2(a.c2, a.c0));
    Reps2MulXi(bc2, bcZ);
    Reps2Add(Fp2Square(x.c0), Mul2(a.c0, a.c0), Fp2MulXi(bc2), Xi2(bcZ));
    Reps2MulXi(Fp2Square(x.c2), Mul2(a.c2, a.c2));
    Reps2Add(ab2, abZ, Fp2MulXi(Fp2Square(x.c2)), Xi2(Mul2(a.c2, a.c2)));
    Reps2Add(Fp2Square(x.c1), Mul2(a.c1, a.c1), ac2, acZ);
    RotateSum(Mul2(a.c0, a.c2), Mul2(a.c1, a.c1), Mul2(a.c2, a.c0));
  }

  lemma Reps2Double(x: Fp2, a: Z2, y: Fp2, b: Z2)
    requires Reps2(x, a) && Reps2(y, b)
    ensures Reps2(Fp2Add(Fp2Mul(x, y), Fp2Mul(x, y)), Add2(Mul2(a, b), Mul2(b, a)))
  {
    hide Reps, FpAdd, FpSub, FpMul;
    Reps2Mul(x, a, y, b);
    Reps2Add(Fp2Mul(x, y), Mul2(a, b), Fp2Mul(x, y), Mul2(a, b));
    Mul2Comm(a, b);
  }

  lemma Reps6MulV(x: Fp6, a: Z6)
    requires Reps6(x, a)
    ensures Reps6(Fp6MulV(x), V6(a))
  {
    hide Reps, FpAdd, FpSub, FpMul;
    Reps2MulXi(x.c2, a.c2);
  }

  lemma Reps12Mul(x: Fp12, a: Z12, y: Fp12, b: Z12)
    requires Reps12(x, a) && Reps12(y, b)
    ensures Reps12(Fp12Mul(x, y), Mul12(a, b))
  {
    hide Reps6, Fp6Mul, Fp6Add, Fp6Sub, Fp6Square, Fp6MulV, Mul6, Add6, Sub6, V6, School6;
    var v0, v1 := Fp6Mul(x.c0, y.c0), Fp6Mul(x.c1, y.c1);
    var z0, z1 := Mul6(a.c0, b.c0), Mul6(a.c1, b.c1);
    Reps6Mul(x.c0, a.c0, y.c0, b.c0);
    Reps6Mul(x.c1, a.c1, y.c1, b.c1);
    Reps6MulV(v1, z1);
    Reps6Add(v0, z0, Fp6MulV(v1), V6(z1));
    Reps6Add(x.c0, a.c0, x.c1, a.c1);
    Reps6Add(y.c0, b.c0, y.c1, b.c1);
    var t, tz := Fp6Mul(Fp6Add(x.c0, x.c1), Fp6Add(y.c0, y.c1)), Mul6(Add6(a.c0, a.c1), Add6(b.c0, b.c1));
    Reps6Mul(Fp6Add(x.c0, x.c1), Add6(a.c0, a.c1), Fp6Add(y.c0, y.c1), Add6(b.c0, b.c1));
    Reps6Add(t, tz, v0, z0);
    Reps6Add(Fp6Sub(t, v0), Sub6(tz, z0), v1, z1);
    Karatsuba6(a.c0, a.c1, b.c0, b.c1);
  }

  lemma Reps12Square(x: Fp12, a: Z12)
    requires Reps12(x, a)
    ensures Reps12(Fp12Square(x), Mul12(a, a))
  {
    hide Reps, FpAdd, FpSub, FpMul;
    Reps6Square(x.c0, a.c0); Reps6Square(x.c1, a.c1);
    Reps6MulV(Fp6Square(x.c1), Mul6(a.c1, a.c1));
    Reps6Add(Fp6Square(x.c0), Mul6(a.c0, a.c0), Fp6MulV(Fp6Square(x.c1)), V6(Mul6(a.c1, a.c1)));
    Reps6Mul(x.c0, a.c0, x.c1, a.c1);
    Reps6Add(Fp6Mul(x.c0, x.c1), Mul6(a.c0, a.c1), Fp6Mul(x.c0, x.c1), Mul6(a.c0, a.c1));
    Mul6Comm(a.c0, a.c1);
  }

  // --- Main results: Karatsuba equals schoolbook, squaring equals self-multiplication --------------

  /** `9 + u`, the cubic non-residue that `v^3` stands for. */
  const XI := Fp2(FpMul(NINE, R2_MOD_P), R_MOD_P)

  function School2(a: Fp2, b: Fp2): Fp2 {
    Fp2(FpSub(FpMul(a.c0, b.c0), FpMul(a.c1, b.c1)), FpAdd(FpMul(a.c0, b.c1), FpMul(a.c1, b.c0)))
  }

  function School6(x: Fp6, y: Fp6): Fp6 {
    Fp6(Fp2Add(School2(x.c0, y.c0), School2(XI, Fp2Add(School2(x.c1, y.c2), School2(x.c2, y.c1)))),
        Fp2Add(Fp2Add(School2(x.c0, y.c1), School2(x.c1, y.c0)), School2(XI, School2(x.c2, y.c2))),
        Fp2Add(Fp2Add(School2(x.c0, y.c2), School2(x.c1, y.c1)), School2(x.c2, y.c0)))
  }

  /** The element `v` of Fp6. */
  const V := Fp6(FP2_ZERO, Fp2(R_MOD_P, FP_ZERO), FP2_ZERO)

  function School12(x: Fp12, y: Fp12): Fp12 {
    Fp12(Fp6Add(School6(x.c0, y.c0), School6(V, School6(x.c1, y.c1))),
         Fp6Add(School6(x.c0, y.c1), School6(x.c1, y.c0)))
  }

  lemma Fp2MulIsSchoolbook(a: Fp2, b: Fp2)
    ensures Fp2Mul(a, b) == School2(a, b)
  {
    hide Reps, FpAdd, FpSub, FpMul;
    var x, y := Decode2(a), Decode2(b);
    Reps2Mul(a, x, b, y);
    RepsMul(a.c0, x.re, b.c0, y.re); RepsMul(a.c1, x.im, b.c1, y.im);
    RepsMul(a.c0, x.re, b.c1, y.im); RepsMul(a.c1, x.im, b.c0, y.re);
    RepsSub(FpMul(a.c0, b.c0), x.re * y.re, FpMul(a.c1, b.c1), x.im * y.im);
    RepsAdd(FpMul(a.c0, b.c1), x.re * y.im, FpMul(a.c1, b.c0), x.im * y.re);
    Reps2Unique(Fp2Mul(a, b), School2(a, b), Mul2(x, y));
  }

  lemma Fp2SquareIsSelfProduct(a: Fp2)
    ensures Fp2Square(a) == Fp2Mul(a, a)
  {
    hide Reps, FpAdd, FpSub, FpMul;
    Reps2Square(a, Decode2(a));
    Reps2Mul(a, Decode2(a), a, Decode2(a));
    Reps2Unique(Fp2Square(a), Fp2Mul(a, a), Mul2(Decode2(a), Decode2(a)));
  }

  lemma RepsXi()
    ensures Reps2(XI, Z2(9, 1))
  {
    hide Reps, FpAdd, FpSub, FpMul;
    ConstantsRepresent();
    Val4Nine();
    IntoMontgomery(NINE);
    RepsDecode(XI.c0);
  }

  lemma Fp2MulXiIsProduct(x: Fp2)
    ensures Fp2MulXi(x) == School2(XI, x)
  {
    hide Reps, FpAdd, FpSub, FpMul, Mul2, Xi2;
    var z := Decode2(x);
    RepsXi();
    Fp2MulIsSchoolbook(XI, x);
    Reps2Mul(XI, Z2(9, 1), x, z);
    XiIsProduct(z);
    Reps2MulXi(x, z);
    Reps2Unique(Fp2MulXi(x), School2(XI, x), Xi2(z));
  }

  lemma Reps6School(x: Fp6, a: Z6, y: Fp6, b: Z6)
    requires Reps6(x, a) && Reps6(y, b)
    ensures Reps6(School6(x, y), Mul6(a, b))
  {
    hide Reps, FpAdd, FpSub, FpMul;
    Reps2School(x.c0, a.c0, y.c0, b.c0); Reps2School(x.c0, a.c0, y.c1, b.c1); Reps2School(x.c0, a.c0, y.c2, b.c2);
    Reps2School(x.c1, a.c1, y.c0, b.c0); Reps2School(x.c1, a.c1, y.c1, b.c1); Reps2School(x.c1, a.c1, y.c2, b.c2);
    Reps2School(x.c2, a.c2, y.c0, b.c0); Reps2School(x.c2, a.c2, y.c1, b.c1); Reps2School(x.c2, a.c2, y.c2, b.c2);
    var s01, z01 := Fp2Add(School2(x.c1, y.c2), School2(x.c2, y.c1)), Add2(Mul2(a.c1, b.c2), Mul2(a.c2, b.c1));
    Reps2Add(School2(x.c1, y.c2), Mul2(a.c1, b.c2), School2(x.c2, y.c1), Mul2(a.c2, b.c1));
    Fp2MulXiIsProduct(s01);
    Reps2MulXi(s01, z01);
    Reps2Add(School2(x.c0, y.c0), Mul2(a.c0, b.c0), School2(XI, s01), Xi2(z01));
    Fp2MulXiIsProduct(School2(x.c2, y.c2));
    Reps2MulXi(School2(x.c2, y.c2), Mul2(a.c2, b.c2));
    Reps2Add(School2(x.c0, y.c1), Mul2(a.c0, b.c1), School2(x.c1, y.c0), Mul2(a.c1, b.c0));
    Reps2Add(Fp2Add(School2(x.c0, y.c1), School2(x.c1, y.c0)), Add2(Mul2(a.c0, b.c1), Mul2(a.c1, b.c0)),
             School2(XI, School2(x.c2, y.c2)), Xi2(Mul2(a.c2, b.c2)));
    Reps2Add(School2(x.c0, y.c2), Mul2(a.c0, b.c2), School2(x.c1, y.c1), Mul2(a.c1, b.c1));
    Reps2Add(Fp2Add(School2(x.c0, y.c2), School2(x.c1, y.c1)), Add2(Mul2(a.c0, b.c2), Mul2(a.c1, b.c1)),
             School2(x.c2, y.c0), Mul2(a.c2, b.c0));
  }

  lemma Reps2School(x: Fp2, a: Z2, y: Fp2, b: Z2)
    requires Reps2(x, a) && Reps2(y, b)
    ensures Reps2(School2(x, y), Mul2(a, b))
  {
    hide Reps, FpAdd, FpSub, FpMul;
    Reps2Mul(x, a, y, b);
    Fp2MulIsSchoolbook(x, y);
  }

  lemma Fp6MulIsSchoolbook(x: Fp6, y: Fp6)
    ensures Fp6Mul(x, y) == School6(x, y)
  {
    hide Reps, FpAdd, FpSub, FpMul;
    Reps6Mul(x, Decode6(x), y, Decode6(y));
    Reps6School(x, Decode6(x), y, Decode6(y));
    Reps6Unique(Fp6Mul(x, y), School6(x, y), Mul6(Decode6(x), Decode6(y)));
  }

  lemma Fp6SquareIsSelfProduct(x: Fp6)
    ensures Fp6Square(x) == Fp6Mul(x, x)
  {
    hide Reps, FpAdd, FpSub, FpMul;
    Reps6Square(x, Decode6(x));
    Reps6Mul(x, Decode6(x), x, Decode6(x));
    Reps6Unique(Fp6Square(x), Fp6Mul(x, x), Mul6(Decode6(x), Decode6(x)));
  }

  lemma Fp6MulVIsProduct(x: Fp6)
    ensures Fp6MulV(x) == School6(V, x)
  {
    hide Reps, FpAdd, FpSub, FpMul;
    ConstantsRepresent();
    var z := Decode6(x);
    var v := Z6(Z2(0, 0), Z2(1, 0), Z2(0, 0));
    Reps6School(V, v, x, z);
    Reps6MulV(x, z);
    assert Mul6(v, z) == V6(z);
    Reps6Unique(Fp6MulV(x), School6(V, x), V6(z));
  }

  lemma Fp12MulIsSchoolbook(x: Fp12, y: Fp12)
    ensures Fp12Mul(x, y) == School12(x, y)
  {
    hide Reps6, Fp6Mul, Fp6Add, Fp6Sub, Fp6Square, Fp6MulV, Mul6, Add6, Sub6, V6, School6;
    var a, b := Decode12(x), Decode12(y);
    Reps12Mul(x, a, y, b);
    Reps6School(x.c0, a.c0, y.c0, b.c0); Reps6School(x.c1, a.c1, y.c1, b.c1);
    Reps6School(x.c0, a.c0, y.c1, b.c1); Reps6School(x.c1, a.c1, y.c0, b.c0);
    Fp6MulVIsProduct(School6(x.c1, y.c1));
    Reps6MulV(School6(x.c1, y.c1), Mul6(a.c1, b.c1));
    Reps6Add(School6(x.c0, y.c0), Mul6(a.c0, b.c0), School6(V, School6(x.c1, y.c1)), V6(Mul6(a.c1, b.c1)));
    Reps6Add(School6(x.c0, y.c1), Mul6(a.c0, b.c1), School6(x.c1, y.c0), Mul6(a.c1, b.c0));
    Reps6Unique(Fp12Mul(x, y).c0, School12(x, y).c0, Mul12(a, b).c0);
    Reps6Unique(Fp12Mul(x, y).c1, School12(x, y).c1, Mul12(a, b).c1);
  }

  lemma Fp12SquareIsSelfProduct(x: Fp12)
    ensures Fp12Square(x) == Fp12Mul(x, x)
  {
    hide Reps, FpAdd, FpSub, FpMul;
    var a := Decode12(x);
    Reps12Square(x, a);
    Reps12Mul(x, a, x, a);
    Reps6Unique(Fp12Square(x).c0, Fp12Mul(x, x).c0, Mul12(a, a).c0);
    Reps6Unique(Fp12Square(x).c1, Fp12Mul(x, x).c1, Mul12(a, a).c1);
  }

  // --- Inversion ------------------------------------------------------------------------------------

  function Fp2Inverse(a: Fp2): Option<Fp2> {
    match FpInverse(Norm2(a))
    case None => None
    case Some(tInv) => Some(Fp2(FpMul(a.c0, tInv), FpSub(FP_ZERO, FpMul(a.c1, tInv))))
  }

  function Fp6Inverse(x: Fp6): Option<Fp6> {
    var (cof, D) := Fp6Cofactors(x);
    match Fp2Inverse(D)
    case None => None
    case Some(dInv) => Some(Fp6(Fp2Mul(cof.c0, dInv), Fp2Mul(cof.c1, dInv), Fp2Mul(cof.c2, dInv)))
  }

  const FP2_ONE := Fp2(R_MOD_P, FP_ZERO)
  const FP6_ONE := Fp6(FP2_ONE, FP2_ZERO, FP2_ZERO)

  lemma Norm2Represents(a: Fp2)
    ensures Reps(Norm2(a), Decode(a.c0) * Decode(a.c0) + Decode(a.c1) * Decode(a.c1))
  {
    hide Reps, FpAdd, FpSub, FpMul;
    var n, m := Decode(a.c0), Decode(a.c1);
    RepsDecode(a.c0); RepsDecode(a.c1);
    RepsMul(a.c0, n, a.c0, n); RepsMul(a.c1, m, a.c1, m);
    RepsAdd(FpMul(a.c0, a.c0), n * n, FpMul(a.c1, a.c1), m * m);
  }

  lemma NormVanishes(p: int, k: nat, n: nat, m: nat)
    requires IsPrime(p) && p == 4 * k + 3 && n < p && m < p
    ensures Cong(n * n + m * m, 0, p) <==> n == 0 && m == 0
  {
    hide Cong;
    if Cong(n * n + m * m, 0, p) {
      SumOfSquares(p, k, n, m);
      SmallMod(n, p);
      SmallMod(m, p);
    }
    CongRefl(0, p);
  }

  /** `(P - 3) / 4`. */
  const P_QUARTER: int := 0xc19139cb84c680a6e14116da060561765e05aa45a1c72a34f082305b61f3f51

  function Norm2(a: Fp2): Fp {
    FpAdd(FpMul(a.c0, a.c0), FpMul(a.c1, a.c1))
  }

  lemma Norm2Zero(a: Fp2)
    requires IsPrime(P)
    ensures Norm2(a) == FP_ZERO <==> a == FP2_ZERO
  {
    hide Reps, FpAdd, FpSub, FpMul;
    var n, m := Decode(a.c0), Decode(a.c1);
    Norm2Represents(a);
    ZeroRepresents();
    RepsUnique(Norm2(a), n * n + m * m, FP_ZERO, 0);
    NormVanishes(P, P_QUARTER, n, m);
    DecodeZero(a.c0); DecodeZero(a.c1);
  }

  /** `fp2_invert` fails exactly on zero: -1 is not a square modulo the prime P = 4k + 3. */
  lemma Fp2InverseTotal(a: Fp2)
    requires IsPrime(P)
    ensures Fp2Inverse(a).None? <==> a == FP2_ZERO
  {
    hide Reps, FpAdd, FpSub, FpMul;
    Norm2Zero(a);
  }

  lemma ZeroRepresents()
    ensures Reps(FP_ZERO, 0) && Reps(R_MOD_P, 1)
  {
    ConstantsRepresent();
  }

  lemma Fp2InverseCorrect(a: Fp2)
    requires IsPrime(P)
    ensures Fp2Inverse(a).Some? ==> Fp2Mul(a, Fp2Inverse(a).value) == FP2_ONE
  {
    hide Reps, FpAdd, FpSub, FpMul;
    if Fp2Inverse(a).Some? {
      InverseCorrect(Norm2(a));
      ConjugateInverts(a, FpInverse(Norm2(a)).value);
    }
  }

  /** If `s` inverts the norm of `a`, then `conj(a) * s` inverts `a`. */
  lemma ConjugateInverts(a: Fp2, s: Fp)
    requires FpMul(Norm2(a), s) == R_MOD_P
    ensures Fp2Mul(a, Fp2(FpMul(a.c0, s), FpSub(FP_ZERO, FpMul(a.c1, s)))) == FP2_ONE
  {
    hide Reps, FpAdd, FpSub, FpMul;
    var n, m, k := Decode(a.c0), Decode(a.c1), Decode(s);
    var b := Fp2(FpMul(a.c0, s), FpSub(FP_ZERO, FpMul(a.c1, s)));
    RepsDecode(a.c0); RepsDecode(a.c1); RepsDecode(s);
    ZeroRepresents();
    RepsMul(a.c0, n, s, k); RepsMul(a.c1, m, s, k);
    RepsSub(FP_ZERO, 0, FpMul(a.c1, s), m * k);
    Reps2Mul(a, Z2(n, m), b, Z2(n * k, 0 - m * k));
    ConjugateProduct2(n, m, k);
    hide Mul2;
    Norm2Represents(a);
    RepsMul(Norm2(a), n * n + m * m, s, k);
    SameRep(Fp2Mul(a, b).c0, R_MOD_P, (n * n + m * m) * k);
    SameRep(Fp2Mul(a, b).c1, FP_ZERO, 0);
  }

  lemma SameRep(a: Fp, b: Fp, n: int)
    requires Reps(a, n) && Reps(b, n)
    ensures a == b
  {
    CongRefl(n, P);
    RepsUnique(a, n, b, n);
  }

  /** The computed cofactors and norm represent the integer ones. */
  lemma Reps6Cofactors(x: Fp6, z: Z6)
    requires Reps6(x, z)
    ensures Reps6(Fp6Cofactors(x).0, Cofactors6(z).0) && Reps2(Fp6Cofactors(x).1, Cofactors6(z).1)
  {
    hide Reps, FpAdd, FpSub, FpMul;
    var a, b, c, p, q, r := x.c0, x.c1, x.c2, z.c0, z.c1, z.c2;
    var cof, cz := Fp6Cofactors(x).0, Cofactors6(z).0;
    Reps2Mul(b, q, c, r); Reps2MulXi(Fp2Mul(b, c), Mul2(q, r)); Reps2Square(a, p);
    Reps2Add(Fp2Square(a), Mul2(p, p), Fp2MulXi(Fp2Mul(b, c)), Xi2(Mul2(q, r)));
    Reps2Mul(a, p, b, q); Reps2Square(c, r); Reps2MulXi(Fp2Square(c), Mul2(r, r));
    Reps2Add(Fp2MulXi(Fp2Square(c)), Xi2(Mul2(r, r)), Fp2Mul(a, b), Mul2(p, q));
    Reps2Mul(a, p, c, r); Reps2Square(b, q);
    Reps2Add(Fp2Square(b), Mul2(q, q), Fp2Mul(a, c), Mul2(p, r));
    Reps2Mul(a, p, cof.c0, cz.c0); Reps2Mul(c, r, cof.c1, cz.c1); Reps2Mul(b, q, cof.c2, cz.c2);
    Reps2MulXi(Fp2Mul(c, cof.c1), Mul2(r, cz.c1)); Reps2MulXi(Fp2Mul(b, cof.c2), Mul2(q, cz.c2));
    Reps2Add(Fp2MulXi(Fp2Mul(c, cof.c1)), Xi2(Mul2(r, cz.c1)), Fp2MulXi(Fp2Mul(b, cof.c2)), Xi2(Mul2(q, cz.c2)));
    Reps2Add(Fp2Mul(a, cof.c0), Mul2(p, cz.c0), Fp2Add(Fp2MulXi(Fp2Mul(c, cof.c1)), Fp2MulXi(Fp2Mul(b, cof.c2))),
             Add2(Xi2(Mul2(r, cz.c1)), Xi2(Mul2(q, cz.c2))));
  }

  /** `x * (A, B, C) = (D, 0, 0)`. */
  lemma Fp6CofactorsCorrect(x: Fp6)
    ensures Fp6Mul(x, Fp6Cofactors(x).0) == Fp6(Fp6Cofactors(x).1, FP2_ZERO, FP2_ZERO)
  {
    hide Reps, FpAdd, FpSub, FpMul;
    var z := Decode6(x);
    Reps6Cofactors(x, z);
    Reps6Mul(x, z, Fp6Cofactors(x).0, Cofactors6(z).0);
    CofactorIdentity(z);
    ZeroRepresents();
    Reps6Unique(Fp6Mul(x, Fp6Cofactors(x).0), Fp6(Fp6Cofactors(x).1, FP2_ZERO, FP2_ZERO),
                Z6(Cofactors6(z).1, Z2_ZERO, Z2_ZERO));
  }

  lemma Fp6InverseCorrect(x: Fp6)
    requires IsPrime(P)
    ensures Fp6Inverse(x).Some? ==> Fp6Mul(x, Fp6Inverse(x).value) == FP6_ONE
  {
    hide Reps, FpAdd, FpSub, FpMul;
    if Fp6Inverse(x).Some? {
      var (cof, D) := Fp6Cofactors(x);
      Fp2InverseCorrect(D);
      NormInverts(x, Fp2Inverse(D).value);
    }
  }

  lemma NormInverts(x: Fp6, s: Fp2)
    requires Fp2Mul(Fp6Cofactors(x).1, s) == FP2_ONE
    ensures var cof := Fp6Cofactors(x).0;
            Fp6Mul(x, Fp6(Fp2Mul(cof.c0, s), Fp2Mul(cof.c1, s), Fp2Mul(cof.c2, s))) == FP6_ONE
  {
    hide Reps, FpAdd, FpSub, FpMul;
    var z, w := Decode6(x), Decode2(s);
    var (cof, D) := Fp6Cofactors(x);
    Reps6ScaledProduct(x, z, s, w);
    Reps6Cofactors(x, z);
    ScaleOut(z, Cofactors6(z).0, w);
    CofactorIdentity(z);
    AxisIsOne(Fp6Mul(x, Fp6(Fp2Mul(cof.c0, s), Fp2Mul(cof.c1, s), Fp2Mul(cof.c2, s))), D, Cofactors6(z).1, s, w);
  }

  lemma AxisIsOne(y: Fp6, D: Fp2, d: Z2, s: Fp2, w: Z2)
    requires Reps2(D, d) && Reps2(s, w) && Fp2Mul(D, s) == FP2_ONE
    requires Reps6(y, Scale6(Z6(d, Z2_ZERO, Z2_ZERO), w))
    ensures y == FP6_ONE
  {
    hide Reps, FpAdd, FpSub, FpMul;
    Reps2Mul(D, d, s, w);
    ZeroRepresents();
    Reps2Unique(y.c0, FP2_ONE, Mul2(d, w));
    Reps2Unique(y.c1, FP2_ZERO, Z2_ZERO);
    Reps2Unique(y.c2, FP2_ZERO, Z2_ZERO);
  }

  lemma Reps6ScaledProduct(x: Fp6, z: Z6, s: Fp2, w: Z2)
    requires Reps6(x, z) && Reps2(s, w)
    ensures var cof := Fp6Cofactors(x).0;
            Reps6(Fp6Mul(x, Fp6(Fp2Mul(cof.c0, s), Fp2Mul(cof.c1, s), Fp2Mul(cof.c2, s))),
                  Mul6(z, Scale6(Cofactors6(z).0, w)))
  {
    hide Reps, FpAdd, FpSub, FpMul;
    var cof, cz := Fp6Cofactors(x).0, Cofactors6(z).0;
    Reps6Cofactors(x, z);
    Reps2Mul(cof.c0, cz.c0, s, w); Reps2Mul(cof.c1, cz.c1, s, w); Reps2Mul(cof.c2, cz.c2, s, w);
    Reps6Mul(x, z, Fp6(Fp2Mul(cof.c0, s), Fp2Mul(cof.c1, s), Fp2Mul(cof.c2, s)), Scale6(cz, w));
  }

  function Fp12Inverse(x: Fp12): Option<Fp12> {
    var a, b := x.c0, x.c1;
    match Fp6Inverse(Norm12(x))
    case None => None
    case Some(tInv) => Some(Fp12(Fp6Mul(a, tInv), Fp6Sub(FP6_ZERO, Fp6Mul(b, tInv))))
  }

  function Norm12(x: Fp12): Fp6 {
    Fp6Sub(Fp6Square(x.c0), Fp6MulV(Fp6Square(x.c1)))
  }

  lemma Fp12InverseCorrect(x: Fp12)
    requires IsPrime(P)
    ensures Fp12Inverse(x).Some? ==> Fp12Mul(x, Fp12Inverse(x).value) == FP12_ONE
  {
    hide Reps, FpAdd, FpSub, FpMul;
    if Fp12Inverse(x).Some? {
      Fp6InverseCorrect(Norm12(x));
      Norm12Inverts(x, Fp6Inverse(Norm12(x)).value);
    }
  }

  lemma Reps6Zero()
    ensures Reps6(FP6_ZERO, Z6_ZERO)
  {
    hide Reps;
    ZeroRepresents();
  }

  lemma Norm12Inverts(x: Fp12, s: Fp6)
    requires Fp6Mul(Norm12(x), s) == FP6_ONE
    ensures Fp12Mul(x, Fp12(Fp6Mul(x.c0, s), Fp6Sub(FP6_ZERO, Fp6Mul(x.c1, s)))) == FP12_ONE
  {
    hide Reps6, Fp6Mul, Fp6Add, Fp6Sub, Fp6Square, Fp6MulV, Mul6, Add6, Sub6, V6, School6;
    Reps6Zero();
    var a, b, t := Decode6(x.c0), Decode6(x.c1), Decode6(s);
    var y := Fp12(Fp6Mul(x.c0, s), Fp6Sub(FP6_ZERO, Fp6Mul(x.c1, s)));
    var z := Z12(Mul6(a, t), Sub6(Z6_ZERO, Mul6(b, t)));
    ZeroRepresents();
    Reps6Mul(x.c0, a, s, t); Reps6Mul(x.c1, b, s, t);
    Reps6Add(FP6_ZERO, Z6_ZERO, Fp6Mul(x.c1, s), Mul6(b, t));
    Reps12Mul(x, Z12(a, b), y, z);
    ConjugateProduct6(a, b, t);
    Reps6Square(x.c0, a); Reps6Square(x.c1, b);
    Reps6MulV(Fp6Square(x.c1), Mul6(b, b));
    Reps6Add(Fp6Square(x.c0), Mul6(a, a), Fp6MulV(Fp6Square(x.c1)), V6(Mul6(b, b)));
    var n := Sub6(Mul6(a, a), V6(Mul6(b, b)));
    Reps6Mul(Norm12(x), n, s, t);
    Reps6Unique(Fp12Mul(x, y).c0, FP6_ONE, Mul6(n, t));
    Reps6Unique(Fp12Mul(x, y).c1, FP6_ZERO, Z6_ZERO);
  }
}
