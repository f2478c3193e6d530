// Congruence of integers modulo a positive modulus, with the modulus left symbolic so that
// the proofs never meet a 254-bit literal.

module ModArith {

  /** `a` and `b` leave the same remainder modulo `m`. */
  predicate Cong(a: int, b: int, m: int)
    requires 0 < m
  {
    (a - b) % m == 0
  }

  lemma MultipleIsZero(k: int, m: int)
    requires 0 < m
    ensures (m * k) % m == 0
  {
    var q, r := (m * k) / m, (m * k) % m;
    assert m * (k - q) == r;
    if k - q >= 1 {
      MulLe(1, k - q, m);
    } else if k - q <= -1 {
      MulLe(1, q - k, m);
    }
  }

  lemma MulLe(a: int, b: int, c: int)
    requires a <= b && 0 <= c
    ensures a * c <= b * c
  {
  }

  /** Distributivity, one product at a time. */
  lemma Dist(a: int, b: int, c: int)
    ensures (a + b) * c == a * c + b * c
    ensures (a - b) * c == a * c - b * c
  {
  }

  /** A value below the modulus is its own remainder. */
  lemma SmallMod(a: int, m: int)
    requires 0 <= a < m
    ensures a % m == a
  {
    OneSubtraction(a, m);
  }

  /** A witness: the difference is a multiple of the modulus. */
  lemma CongByWitness(a: int, b: int, m: int, k: int)
    requires 0 < m && a - b == m * k
    ensures Cong(a, b, m)
  {
    MultipleIsZero(k, m);
  }

  lemma Witness(a: int, b: int, m: int) returns (k: int)
    requires 0 < m && Cong(a, b, m)
    ensures a == b + m * k
  {
    k := (a - b) / m;
  }

  lemma CongRefl(a: int, m: int)
    requires 0 < m
    ensures Cong(a, a, m)
  {
    CongByWitness(a, a, m, 0);
  }

  lemma CongSym(a: int, b: int, m: int)
    requires 0 < m && Cong(a, b, m)
    ensures Cong(b, a, m)
  {
    var k := Witness(a, b, m);
    CongByWitness(b, a, m, -k);
  }

  lemma CongTrans(a: int, b: int, c: int, m: int)
    requires 0 < m && Cong(a, b, m) && Cong(b, c, m)
    ensures Cong(a, c, m)
  {
    var k := Witness(a, b, m);
    var l := Witness(b, c, m);
    assert m * k + m * l == m * (k + l);
    CongByWitness(a, c, m, k + l);
  }

  lemma CongAdd(a: int, b: int, c: int, d: int, m: int)
    requires 0 < m && Cong(a, b, m) && Cong(c, d, m)
    ensures Cong(a + c, b + d, m)
  {
    var k := Witness(a, b, m);
    var l := Witness(c, d, m);
    assert m * k + m * l == m * (k + l);
    CongByWitness(a + c, b + d, m, k + l);
  }

  lemma CongSub(a: int, b: int, c: int, d: int, m: int)
    requires 0 < m && Cong(a, b, m) && Cong(c, d, m)
    ensures Cong(a - c, b - d, m)
  {
    var k := Witness(a, b, m);
    var l := Witness(c, d, m);
    assert m * k - m * l == m * (k - l);
    CongByWitness(a - c, b - d, m, k - l);
  }

  lemma CongMul(a: int, b: int, c: int, d: int, m: int)
    requires 0 < m && Cong(a, b, m) && Cong(c, d, m)
    ensures Cong(a * c, b * d, m)
  {
    var k := Witness(a, b, m);
    var l := Witness(c, d, m);
    assert (b + m * k) * (d + m * l) - b * d == m * (b * l + k * d + k * (m * l)) by {
      MulExpand(b, k, d, l, m);
    }
    CongByWitness(a * c, b * d, m, b * l + k * d + k * (m * l));
  }

  lemma MulExpand(b: int, k: int, d: int, l: int, m: int)
    ensures (b + m * k) * (d + m * l) - b * d == m * (b * l + k * d + k * (m * l))
  {
    calc {
      (b + m * k) * (d + m * l) - b * d;
      b * (m * l) + (m * k) * d + (m * k) * (m * l);
      m * (b * l) + m * (k * d) + m * (k * (m * l));
      m * (b * l + k * d + k * (m * l));
    }
  }

  /** Every integer is congruent to its remainder. */
  lemma CongMod(a: int, m: int)
    requires 0 < m
    ensures Cong(a % m, a, m) && Cong(a, a % m, m)
  {
    CongByWitness(a % m, a, m, -(a / m));
    CongByWitness(a, a % m, m, a / m);
  }

  /** Congruent values in `[0, m)` are equal. */
  lemma CongUnique(a: int, b: int, m: int)
    requires 0 < m && 0 <= a < m && 0 <= b < m && Cong(a, b, m)
    ensures a == b
  {
    var k := Witness(a, b, m);
    if k >= 1 {
      MulLe(1, k, m);
    } else if k <= -1 {
      MulLe(1, -k, m);
    }
  }

  /** One conditional correction reduces a value that is off by less than one modulus. */
  lemma OneSubtraction(x: int, m: int)
    requires 0 < m && -m <= x < 2 * m
    ensures x % m == if x < 0 then x + m else if x < m then x else x - m
  {
    var y := if x < 0 then x + m else if x < m then x else x - m;
    CongByWitness(x, y, m, if x < 0 then -1 else if x < m then 0 else 1);
    CongMod(x, m);
    CongTrans(x % m, x, y, m);
    CongUnique(x % m, y, m);
  }

  /** A factor with an inverse can be cancelled. */
  lemma CongCancel(a: int, b: int, r: int, inv: int, m: int)
    requires 0 < m && Cong(r * inv, 1, m) && Cong(a * r, b * r, m)
    ensures Cong(a, b, m)
  {
    ScaleByUnit(a, r, inv, m);
    ScaleByUnit(b, r, inv, m);
    CongRefl(inv, m);
    CongMul(a * r, b * r, inv, inv, m);
    CongSym(a * r * inv, a, m);
    CongTrans(a, a * r * inv, b * r * inv, m);
    CongTrans(a, b * r * inv, b, m);
  }

  /** Dividing by a unit is multiplying by its inverse. */
  lemma CongDivide(c: int, x: int, r: int, inv: int, m: int)
    requires 0 < m && Cong(r * inv, 1, m) && Cong(c * r, x, m)
    ensures Cong(c, x * inv, m)
  {
    ScaleByUnit(c, r, inv, m);
    CongRefl(inv, m);
    CongMul(c * r, x, inv, inv, m);
    CongSym(c * r * inv, c, m);
    CongTrans(c, c * r * inv, x * inv, m);
  }

  lemma ScaleByUnit(a: int, r: int, inv: int, m: int)
    requires 0 < m && Cong(r * inv, 1, m)
    ensures Cong(a * r * inv, a, m)
  {
    CongRefl(a, m);
    CongMul(a, a, r * inv, 1, m);
    assert a * (r * inv) == a * r * inv;
  }

  function Pow(b: int, e: nat): int
  {
    if e == 0 then 1 else b * Pow(b, e - 1)
  }

  lemma {:induction false} PowAdd(b: int, e: nat, f: nat)
    ensures Pow(b, e + f) == Pow(b, e) * Pow(b, f)
  {
    if e > 0 {
      PowAdd(b, e - 1, f);
      assert b * (Pow(b, e - 1) * Pow(b, f)) == (b * Pow(b, e - 1)) * Pow(b, f);
    }
  }

  lemma {:induction false} CongPow(a: int, b: int, e: nat, m: int)
    requires 0 < m && Cong(a, b, m)
    ensures Cong(Pow(a, e), Pow(b, e), m)
  {
    if e == 0 {
      CongRefl(1, m);
    } else {
      CongPow(a, b, e - 1, m);
      CongMul(a, b, Pow(a, e - 1), Pow(b, e - 1), m);
    }
  }
}
