// BN254 base-field arithmetic on four 64-bit limbs in Montgomery form
// (zk_verifier.rs, "Fp Arithmetic").

module Montgomery {
  import opened Common
  import opened Limbs
  import opened ModArith
  import opened Fermat
  import opened Powers

  const P: int := 0x30644e72e131a029b85045b68181585d97816a916871ca8d3c208c16d87cfd47
  const P_LIMBS: seq<u64> := [0x3c208c16d87cfd47, 0x97816a916871ca8d, 0xb85045b68181585d, 0x30644e72e131a029]
  /** `-P^-1` modulo `BASE`: the factor that clears the lowest limb. */
  const P_PRIME: u64 := 0x87d20782e4866389
  /** The Montgomery radix, `BASE^4`. */
  const R: int := 0x1_0000000000000000_0000000000000000_0000000000000000_0000000000000000
  /** The inverse of the radix modulo `P`. */
  const R_INV: int := 20988524275117001072002809824448087578619730785600314334253784976379291040311

  /** A reduced field element: four limbs whose value is below the modulus. */
  type Fp = s: seq<u64> | |s| == 4 && Val(s) < P witness (ValZeros([0, 0, 0, 0]); [0, 0, 0, 0])

  const FP_ZERO: Fp := (ValZeros([0, 0, 0, 0]); [0, 0, 0, 0])

  lemma Val4(s: seq<u64>)
    requires |s| == 4
    ensures Val(s) == s[0] + BASE * (s[1] + BASE * (s[2] + BASE * s[3]))
    ensures BPow(4) == R
  {
    assert s[..1][..0] == [] && s[..2][..1] == s[..1] && s[..3][..2] == s[..2];
    ValSnoc(s, 0); ValSnoc(s, 1); ValSnoc(s, 2);
  }

  lemma ModulusLimbs()
    ensures Val(P_LIMBS) == P
  {
    Val4(P_LIMBS);
  }

  // --- Ripple loops -------------------------------------------------------------------------

  function OverflowingAdd(a: u64, b: u64): (r: (u64, bool))
    ensures r.0 + Bit(r.1) * BASE == a + b
  {
    ((a + b) % BASE, a + b >= BASE)
  }

  function OverflowingSub(a: u64, b: u64): (r: (u64, bool))
    ensures r.0 - Bit(r.1) * BASE == a - b
  {
    (if a < b then a - b + BASE else a - b, a < b)
  }

  function Bit(b: bool): u64 {
    if b then 1 else 0
  }

  lemma CarryStep(lo: int, out: int, x: int, y: int, carry: int, w: int)
    requires lo + out * BASE == x + y + carry
    ensures lo * w + out * (BASE * w) == x * w + y * w + carry * w
  {
    assert (lo + out * BASE) * w == lo * w + out * (BASE * w);
    assert (x + y + carry) * w == x * w + y * w + carry * w;
  }

  lemma BorrowStep(lo: int, out: int, x: int, y: int, borrow: int, w: int)
    requires lo - out * BASE == x - y - borrow
    ensures lo * w - out * (BASE * w) == x * w - y * w - borrow * w
  {
    assert (lo - out * BASE) * w == lo * w - out * (BASE * w);
    assert (x - y - borrow) * w == x * w - y * w - borrow * w;
  }

  method LessThan(a: seq<u64>, b: seq<u64>) returns (r: bool)
    requires |a| == |b| == 4
    ensures r <==> Val(a) < Val(b)
  {
    for i := 4 downto 0
      invariant a[i..] == b[i..]
    {
      if a[i] != b[i] {
        LimbDecides(a, b, i);
        return a[i] < b[i];
      }
    }
    assert a == a[0..] && b == b[0..];
    return false;
  }

  /** With equal limbs above `i`, limb `i` decides the comparison. */
  lemma LimbDecides(a: seq<u64>, b: seq<u64>, i: nat)
    requires |a| == |b| && i < |a| && a[i + 1..] == b[i + 1..] && a[i] != b[i]
    ensures a[i] < b[i] <==> Val(a) < Val(b)
  {
    assert a == a[..i + 1] + a[i + 1..] && b == b[..i + 1] + b[i + 1..];
    ValConcat(a[..i + 1], a[i + 1..]);
    ValConcat(b[..i + 1], b[i + 1..]);
    ValSnoc(a, i); ValSnoc(b, i);
    ValBound(a[..i]); ValBound(b[..i]);
    if a[i] < b[i] {
      TopLimbDecides(a[i], b[i], Val(a[..i]), Val(b[..i]), BPow(i));
    } else {
      TopLimbDecides(b[i], a[i], Val(b[..i]), Val(a[..i]), BPow(i));
    }
  }

  method AddLimbs(a: seq<u64>, b: seq<u64>) returns (r: array<u64>, carry: u64)
    requires |a| == |b| == 4
    ensures fresh(r) && r.Length == 4 && carry <= 1
    ensures Val(r[..]) + carry * R == Val(a) + Val(b)
  {
    ValZeros([]);
    Val4(a);
    hide Val;
    r := new u64[4];
    carry := 0;
    assert r[..0] == [] && a[..0] == [] && b[..0] == [];
    for i := 0 to 4
      invariant carry <= 1
      invariant Val(r[..i]) + carry * BPow(i) == Val(a[..i]) + Val(b[..i])
    {
      var (val, c) := OverflowingAdd(a[i], b[i]);
      var (val2, c2) := OverflowingAdd(val, carry);
      CarryStep(val2, Bit(c) + Bit(c2), a[i], b[i], carry, BPow(i));
      ghost var before := r[..i];
      r[i] := val2;
      assert r[..i] == before;
      carry := Bit(c) + Bit(c2);
      ValSnoc(r[..], i); ValSnoc(a, i); ValSnoc(b, i);
      assert r[..][..i] == r[..i] && r[..][..i + 1] == r[..i + 1];
    }
    assert a[..4] == a && b[..4] == b && r[..4] == r[..];
  }

  method SubLimbs(a: seq<u64>, b: seq<u64>) returns (r: array<u64>, borrow: u64)
    requires |a| == |b| == 4
    ensures fresh(r) && r.Length == 4 && borrow <= 1
    ensures Val(r[..]) - borrow * R == Val(a) - Val(b)
  {
    ValZeros([]);
    Val4(a);
    hide Val;
    r := new u64[4];
    borrow := 0;
    assert r[..0] == [] && a[..0] == [] && b[..0] == [];
    for i := 0 to 4
      invariant borrow <= 1
      invariant Val(r[..i]) - borrow * BPow(i) == Val(a[..i]) - Val(b[..i])
    {
      var (val, c) := OverflowingSub(a[i], b[i]);
      var (val2, c2) := OverflowingSub(val, borrow);
      BorrowStep(val2, Bit(c) + Bit(c2), a[i], b[i], borrow, BPow(i));
      ghost var before := r[..i];
      r[i] := val2;
      assert r[..i] == before;
      borrow := Bit(c) + Bit(c2);
      ValSnoc(r[..], i); ValSnoc(a, i); ValSnoc(b, i);
      assert r[..][..i] == r[..i] && r[..][..i + 1] == r[..i + 1];
    }
    assert a[..4] == a && b[..4] == b && r[..4] == r[..];
  }

  // --- Addition and subtraction ---------------------------------------------------------------

  /** The reduced element whose limbs spell `v`. */
  function FromVal(v: int): (r: Fp)
    requires 0 <= v < P
    ensures Val(r) == v
  {
    Val4([0, 0, 0, 0]);
    ValToLimbs(v, 4);
    ToLimbs(v, 4)
  }

  function FpAdd(a: Fp, b: Fp): Fp
  {
    FromVal((Val(a) + Val(b)) % P)
  }

  function FpSub(a: Fp, b: Fp): Fp
  {
    FromVal((Val(a) - Val(b)) % P)
  }

  method MontAdd(a: Fp, b: Fp) returns (r: Fp)
    ensures r == FpAdd(a, b)
  {
    ModulusLimbs();
    ValBound(a); ValBound(b);
    OneSubtraction(Val(a) + Val(b), P);
    var res, carry := AddLimbs(a, b);
    ValBound(res[..]);
    var below := LessThan(res[..], P_LIMBS);
    if carry > 0 || !below {
      var borrow;
      res, borrow := SubLimbs(res[..], P_LIMBS);
      Val4(res[..]); ValBound(res[..]);
    }
    ValInjective(res[..], FpAdd(a, b));
    r := res[..];
  }

  method MontSub(a: Fp, b: Fp) returns (r: Fp)
    ensures r == FpSub(a, b)
  {
    ModulusLimbs();
    ValBound(a); ValBound(b);
    OneSubtraction(Val(a) - Val(b), P);
    var res, borrow := SubLimbs(a, b);
    Val4(res[..]); ValBound(res[..]);
    if borrow > 0 {
      var carry;
      res, carry := AddLimbs(res[..], P_LIMBS);
      ValBound(res[..]);
    }
    ValInjective(res[..], FpSub(a, b));
    r := res[..];
  }

  // --- Multiplication -------------------------------------------------------------------------

  /** A u64 x u64 product plus two u64 summands always fits in 128 bits. */
  lemma ProductFits(x: u64, y: u64, z: u64, w: u64)
    ensures 0 <= x * y + z + w < BASE * BASE
  {
    ScaleLe(x, BASE - 1, y);
    ScaleLe(0, x, y);
  }

  /** The two `u64` halves of a 128-bit value: `prod as u64` and `(prod >> 64) as u64`. */
  function SplitProduct(x: int): (r: (u64, u64))
    requires 0 <= x < BASE * BASE
    ensures r.0 + r.1 * BASE == x && r.0 == x % BASE
  {
    (x % BASE, x / BASE)
  }

  /** One limb of a row: replacing limb `k` by the low digit of `x*y + limb + carry`. */
  lemma RowStep(t: seq<u64>, k: nat, x: u64, y: u64, carry: u64, lo: u64, hi: int)
    requires k < |t| && lo + hi * BASE == x * y + t[k] + carry
    ensures Val(t[k := lo]) + hi * BPow(k + 1) == Val(t) + carry * BPow(k) + x * (y * BPow(k))
  {
    ValUpdate(t, k, lo);
    SplitDigit(lo, hi, x, y, t[k], carry, BPow(k));
  }

  lemma CarryRow(t: seq<u64>, k: nat, carry: int, lo: u64, hi: int)
    requires k < |t| && lo + hi * BASE == t[k] + carry
    ensures Val(t[k := lo]) + hi * BPow(k + 1) == Val(t) + carry * BPow(k)
  {
    ValUpdate(t, k, lo);
    SplitDigit(lo, hi, 0, 0, t[k], carry, BPow(k));
  }

  lemma SplitDigit(lo: int, hi: int, x: int, y: int, digit: int, carry: int, w: int)
    requires lo + hi * BASE == x * y + digit + carry
    ensures (lo - digit) * w + hi * (BASE * w) == x * (y * w) + carry * w
  {
    assert (lo - digit + hi * BASE) * w == (lo - digit) * w + hi * (BASE * w);
    assert (x * y + carry) * w == x * (y * w) + carry * w;
  }

  /** Adds `m * x`, shifted up by `i` limbs, into `t`, leaving the carry for limb `i + 4`. */
  method MulAddRow(t: array<u64>, i: nat, m: u64, x: seq<u64>) returns (carry: u64)
    requires t.Length == 8 && i < 4 && |x| == 4
    modifies t
    ensures Val(t[..]) + carry * BPow(i + 4) == old(Val(t[..])) + m * (Val(x) * BPow(i))
    ensures forall k :: 0 <= k < 8 && !(i <= k < i + 4) ==> t[k] == old(t[k])
    ensures t[i] == (m * x[0] + old(t[i])) % BASE
  {
    carry := 0;
    assert x[..0] == [];
    ghost var first := m * x[0] + t[i];
    for j := 0 to 4
      invariant Val(t[..]) + carry * BPow(i + j) == old(Val(t[..])) + m * (Val(x[..j]) * BPow(i))
      invariant forall k :: 0 <= k < 8 && !(i <= k < i + j) ==> t[k] == old(t[k])
      invariant if j == 0 then t[i] == old(t[i]) && carry == 0 else t[i] == first % BASE
    {
      ProductFits(m, x[j], t[i + j], carry);
      var prod := m * x[j] + t[i + j] + carry;
      assert j == 0 ==> prod == first;
      var (digit, out) := SplitProduct(prod);
      RowStep(t[..], i + j, m, x[j], carry, digit, out);
      RowGrows(m, x, j, i);
      ghost var before := t[..];
      t[i + j] := digit;
      assert t[..] == before[i + j := digit];
      carry := out;
    }
    assert x[..4] == x;
  }

  lemma RowGrows(m: int, x: seq<u64>, j: nat, i: nat)
    requires j < |x|
    ensures m * (Val(x[..j + 1]) * BPow(i)) == m * (Val(x[..j]) * BPow(i)) + m * (x[j] * BPow(i + j))
  {
    ValSnoc(x, j);
    BPowAdd(j, i);
    Regroup(Val(x[..j]), x[j], BPow(j), BPow(i));
    Distribute(m, Val(x[..j]) * BPow(i), x[j] * BPow(i + j));
  }

  lemma Distribute(a: int, b: int, c: int)
    ensures a * (b + c) == a * b + a * c
  {
  }

  /** The low limb vanishes: `m` was chosen so that `m*P + t` is divisible by `BASE`. */
  lemma LowLimbClears(t: u64)
    ensures ((t * P_PRIME) % BASE * P_LIMBS[0] + t) % BASE == 0
  {
    var m, q := (t * P_PRIME) % BASE, (t * P_PRIME) / BASE;
    var k := (P_LIMBS[0] * P_PRIME + 1) / BASE;
    assert P_LIMBS[0] * P_PRIME + 1 == BASE * k;
    assert m * P_LIMBS[0] + t == BASE * (t * k - q * P_LIMBS[0]);
    MultipleIsZero(t * k - q * P_LIMBS[0], BASE);
  }

  /** Pushes the carry of a reduction row upwards; the bound on the total leaves nothing at limb 8. */
  method PropagateCarry(t: array<u64>, i: nat, carryIn: u64)
    requires t.Length == 8 && i < 4
    requires Val(t[..]) + carryIn * BPow(i + 4) < BPow(8)
    modifies t
    ensures Val(t[..]) == old(Val(t[..])) + carryIn * BPow(i + 4)
    ensures forall k :: 0 <= k < i + 4 ==> t[k] == old(t[k])
  {
    hide Val, BPow;
    var carry: u64, k: nat := carryIn, i + 4;
    while carry > 0 && k < 8
      invariant i + 4 <= k <= 8
      invariant Val(t[..]) + carry * BPow(k) == old(Val(t[..])) + carryIn * BPow(i + 4)
      invariant forall l :: 0 <= l < i + 4 ==> t[l] == old(t[l])
      decreases 8 - k
    {
      var sum := t[k] + carry;
      var (digit, out) := SplitProduct(sum);
      CarryRow(t[..], k, carry, digit, out);
      ghost var before := t[..];
      t[k] := digit;
      assert t[..] == before[k := digit];
      carry := out;
      k := k + 1;
    }
    ValBound(t[..]);
    if carry > 0 {
      ScaleLe(1, carry, BPow(8));
    }
  }

  /** The schoolbook product of two four-limb numbers, on eight limbs. */
  method WideProduct(a: seq<u64>, b: seq<u64>) returns (t: array<u64>)
    requires |a| == |b| == 4
    ensures fresh(t) && t.Length == 8 && Val(t[..]) == Val(a) * Val(b)
  {
    t := new u64[8](_ => 0);
    ValZeros(t[..]);
    for i := 0 to 4
      invariant Val(t[..]) == Val(a[..i]) * Val(b)
      invariant forall k :: i + 4 <= k < 8 ==> t[k] == 0
    {
      var carry := MulAddRow(t, i, a[i], b);
      ValUpdate(t[..], i + 4, carry);
      ghost var before := t[..];
      t[i + 4] := carry;
      assert t[..] == before[i + 4 := carry];
      ValSnoc(a, i);
      ProductGrows(Val(a[..i]), a[i], BPow(i), Val(b));
    }
    assert a[..4] == a;
  }

  lemma ProductGrows(low: int, digit: int, w: int, b: int)
    ensures (low + digit * w) * b == low * b + digit * (b * w)
  {
    assert (digit * w) * b == digit * (b * w);
  }

  /** Adding `m*P` shifted by `i` to the running multiple of the modulus. */
  lemma MultipleGrows(q: int, m: u64, i: nat, p: int)
    requires 0 <= q < BPow(i)
    ensures (q + m * BPow(i)) * p == q * p + m * (p * BPow(i))
    ensures 0 <= q + m * BPow(i) < BPow(i + 1)
  {
    ProductGrows(q, m, BPow(i), p);
    ScaleLe(0, m, BPow(i));
    ScaleLe(m, BASE - 1, BPow(i));
  }

  /** Adds the multiple of the modulus that clears limb `i`. */
  method ReduceRow(t: array<u64>, i: nat) returns (m: u64)
    requires t.Length == 8 && i < 4
    requires forall d: u64 :: Val(t[..]) + d * (P * BPow(i)) < BPow(8)
    modifies t
    ensures Val(t[..]) == old(Val(t[..])) + m * (P * BPow(i))
    ensures t[i] == 0 && forall k :: 0 <= k < i ==> t[k] == old(t[k])
  {
    ModulusLimbs();
    hide Val, BPow;
    m := (t[i] * P_PRIME) % BASE;
    LowLimbClears(t[i]);
    var carry := MulAddRow(t, i, m, P_LIMBS);
    PropagateCarry(t, i, carry);
  }

  /** Clears the four low limbs of `t` by adding multiples of the modulus. */
  method Reduce(t: array<u64>) returns (ghost q: int)
    requires t.Length == 8 && Val(t[..]) < P * R
    modifies t
    ensures 0 <= q < R && Val(t[..]) == old(Val(t[..])) + q * P
    ensures forall k :: 0 <= k < 4 ==> t[k] == 0
  {
    hide Val;
    q := 0;
    Val4([0, 0, 0, 0]);
    for i := 0 to 4
      invariant 0 <= q < BPow(i)
      invariant Val(t[..]) == old(Val(t[..])) + q * P
      invariant forall k :: 0 <= k < i ==> t[k] == 0
    {
      forall d: u64
        ensures Val(t[..]) + d * (P * BPow(i)) < BPow(8)
      {
        MultipleGrows(q, d, i, P);
        TotalFits(q + d * BPow(i), i);
      }
      var m := ReduceRow(t, i);
      MultipleGrows(q, m, i, P);
      q := q + m * BPow(i);
    }
  }

  lemma TotalFits(q: int, i: nat)
    requires i < 4 && 0 <= q < BPow(i + 1)
    ensures q * P + P * R < BPow(8)
  {
    Val4([0, 0, 0, 0]);
    BPowAdd(4, 4);
    BPowAdd(i + 1, 3 - i);
    ValBound(ToLimbs(0, 3 - i));
    ScaleLe(1, BPow(3 - i), BPow(i + 1));
    ScaleLe(q, R, P);
  }

  /** Dividing the cleared total by the radix leaves less than two moduli. */
  lemma UpperHalf(t: seq<u64>, product: int, q: int)
    requires |t| == 8 && (forall k :: 0 <= k < 4 ==> t[k] == 0)
    requires 0 <= product < P * R && 0 <= q < R && Val(t) == product + q * P
    ensures Val(t[4..]) * R == product + q * P && 0 <= Val(t[4..]) < 2 * P
  {
    assert t == t[..4] + t[4..];
    ValConcat(t[..4], t[4..]);
    ValZeros(t[..4]);
    Val4(t[..4]);
    ValBound(t[4..]);
    ScaleLe(q, R, P);
    Val4(FP_ZERO);
  }

  /** The final conditional subtraction. */
  method SubtractOnce(res: seq<u64>) returns (r: Fp)
    requires |res| == 4 && Val(res) < 2 * P
    ensures Val(r) == if Val(res) < P then Val(res) else Val(res) - P
  {
    ModulusLimbs();
    var below := LessThan(res, P_LIMBS);
    if below {
      return res;
    }
    var reduced, borrow := SubLimbs(res, P_LIMBS);
    Val4(reduced[..]); ValBound(reduced[..]);
    return reduced[..];
  }

  lemma ReducedProduct(a: Fp, b: Fp)
    ensures 0 <= Val(a) * Val(b) < P * R
  {
    hide Val;
    ValBound(a);
    ValBound(b);
    ProductBelow(Val(a), Val(b), P, R);
    ScaleLe(0, Val(a), Val(b));
  }

  // --- The integers modulo P that field elements stand for --------------------------------------

  lemma RadixInverse()
    ensures Cong(R * R_INV, 1, P)
  {
  }

  function FpMul(a: Fp, b: Fp): Fp
  {
    FromVal((Val(a) * Val(b) * R_INV) % P)
  }

  /** The integer in `[0, P)` whose Montgomery form is `a`. */
  function Decode(a: Fp): (n: int)
    ensures 0 <= n < P
  {
    (Val(a) * R_INV) % P
  }

  /** `a` is the Montgomery form of `n`: its limbs spell `n * R` modulo `P`. */
  predicate Reps(a: Fp, n: int) {
    Cong(Val(a), n * R, P)
  }

  lemma RepsDecode(a: Fp)
    ensures Reps(a, Decode(a))
  {
    RadixInverse();
    CongMod(Val(a) * R_INV, P);
    CongRefl(R, P);
    CongMul(Decode(a), Val(a) * R_INV, R, R, P);
    assert Val(a) * R_INV * R == Val(a) * R * R_INV;
    ScaleByUnit(Val(a), R, R_INV, P);
    CongTrans(Decode(a) * R, Val(a) * R_INV * R, Val(a), P);
    CongSym(Decode(a) * R, Val(a), P);
  }

  /** What an element represents is unique modulo `P`, and determines the element. */
  lemma RepsUnique(a: Fp, n: int, b: Fp, m: int)
    requires Reps(a, n) && Reps(b, m)
    ensures Cong(n, m, P) <==> a == b
  {
    CongSym(Val(b), m * R, P);
    CongSym(Val(a), n * R, P);
    if a == b {
      CongTrans(n * R, Val(a), m * R, P);
      RadixInverse();
      CongCancel(n, m, R, R_INV, P);
    }
    if Cong(n, m, P) {
      CongRefl(R, P);
      CongMul(n, m, R, R, P);
      CongTrans(Val(a), n * R, m * R, P);
      CongTrans(Val(a), m * R, Val(b), P);
      ValBound(a); ValBound(b);
      CongUnique(Val(a), Val(b), P);
      ValInjective(a, b);
    }
  }

  lemma RepsGivesDecode(a: Fp, n: int)
    requires Reps(a, n)
    ensures Decode(a) == n % P
  {
    RepsDecode(a);
    RepsUnique(a, n, a, Decode(a));
    CongMod(n, P);
    CongTrans(n % P, n, Decode(a), P);
    CongUnique(n % P, Decode(a), P);
  }

  lemma RepsAdd(a: Fp, n: int, b: Fp, m: int)
    requires Reps(a, n) && Reps(b, m)
    ensures Reps(FpAdd(a, b), n + m)
  {
    CongMod(Val(a) + Val(b), P);
    CongAdd(Val(a), n * R, Val(b), m * R, P);
    CongTrans(Val(FpAdd(a, b)), Val(a) + Val(b), (n + m) * R, P);
  }

  lemma RepsSub(a: Fp, n: int, b: Fp, m: int)
    requires Reps(a, n) && Reps(b, m)
    ensures Reps(FpSub(a, b), n - m)
  {
    CongMod(Val(a) - Val(b), P);
    CongSub(Val(a), n * R, Val(b), m * R, P);
    CongTrans(Val(FpSub(a, b)), Val(a) - Val(b), (n - m) * R, P);
  }

  lemma RepsMul(a: Fp, n: int, b: Fp, m: int)
    requires Reps(a, n) && Reps(b, m)
    ensures Reps(FpMul(a, b), n * m)
  {
    CongMod(Val(a) * Val(b) * R_INV, P);
    CongMul(Val(a), n * R, Val(b), m * R, P);
    CongRefl(R_INV, P);
    CongMul(Val(a) * Val(b), (n * R) * (m * R), R_INV, R_INV, P);
    CongTrans(Val(FpMul(a, b)), Val(a) * Val(b) * R_INV, (n * R) * (m * R) * R_INV, P);
    RadixInverse();
    ScaleByUnit(n * m * R, R, R_INV, P);
    assert (n * R) * (m * R) * R_INV == n * m * R * R * R_INV;
    CongTrans(Val(FpMul(a, b)), n * m * R * R * R_INV, n * m * R, P);
  }

  lemma DecodeAdd(a: Fp, b: Fp)
    ensures Decode(FpAdd(a, b)) == (Decode(a) + Decode(b)) % P
  {
    RepsDecode(a); RepsDecode(b);
    RepsAdd(a, Decode(a), b, Decode(b));
    RepsGivesDecode(FpAdd(a, b), Decode(a) + Decode(b));
  }

  lemma DecodeSub(a: Fp, b: Fp)
    ensures Decode(FpSub(a, b)) == (Decode(a) - Decode(b)) % P
  {
    RepsDecode(a); RepsDecode(b);
    RepsSub(a, Decode(a), b, Decode(b));
    RepsGivesDecode(FpSub(a, b), Decode(a) - Decode(b));
  }

  lemma DecodeMul(a: Fp, b: Fp)
    ensures Decode(FpMul(a, b)) == (Decode(a) * Decode(b)) % P
  {
    RepsDecode(a); RepsDecode(b);
    RepsMul(a, Decode(a), b, Decode(b));
    RepsGivesDecode(FpMul(a, b), Decode(a) * Decode(b));
  }

  lemma DecodeInjective(a: Fp, b: Fp)
    requires Decode(a) == Decode(b)
    ensures a == b
  {
    RepsDecode(a); RepsDecode(b);
    CongRefl(Decode(a), P);
    RepsUnique(a, Decode(a), b, Decode(b));
  }

  /** What a Montgomery product is: times the radix it is the ordinary product modulo `P`. */
  lemma MontgomeryProduct(a: Fp, b: Fp)
    ensures Cong(Val(FpMul(a, b)) * R, Val(a) * Val(b), P)
  {
    hide Val;
    var x := Val(a) * Val(b);
    RadixInverse();
    CongMod(x * R_INV, P);
    CongRefl(R, P);
    CongMul(Val(FpMul(a, b)), x * R_INV, R, R, P);
    ScaleByUnit(x, R, R_INV, P);
    Swap(x, R, R_INV);
    CongTrans(Val(FpMul(a, b)) * R, x * R_INV * R, x, P);
  }

  lemma Swap(x: int, y: int, z: int)
    ensures x * y * z == x * z * y
  {
  }

  /** Congruence decides the product. */
  lemma ProductDecided(a: Fp, b: Fp, r: Fp)
    requires Cong(Val(r) * R, Val(a) * Val(b), P)
    ensures r == FpMul(a, b)
  {
    hide Val;
    RadixInverse();
    CongDivide(Val(r), Val(a) * Val(b), R, R_INV, P);
    CongMod(Val(a) * Val(b) * R_INV, P);
    CongTrans(Val(r), Val(a) * Val(b) * R_INV, Val(FpMul(a, b)), P);
    ValBound(r);
    ValBound(FpMul(a, b));
    CongUnique(Val(r), Val(FpMul(a, b)), P);
    ValInjective(r, FpMul(a, b));
  }

  /** The product, the reduction and the conditional subtraction. */
  method MontMul(a: Fp, b: Fp) returns (r: Fp)
    ensures r == FpMul(a, b)
  {
    hide Val, FpMul;
    ReducedProduct(a, b);
    var t := WideProduct(a, b);
    ghost var q := Reduce(t);
    UpperHalf(t[..], Val(a) * Val(b), q);
    assert t[4..8] == t[..][4..];
    r := SubtractOnce(t[4..8]);
    CongByWitness(Val(r) * R, Val(a) * Val(b), P, if Val(t[4..]) < P then q else q - R);
    ProductDecided(a, b, r);
  }

  lemma ProductBelow(x: int, y: int, p: int, r: int)
    requires 0 <= x < p && 0 <= y < p <= r
    ensures x * y < p * r
  {
    ScaleLe(y, r, x);
    ScaleLe(x, p - 1, r);
    Dist(p, 1, r);
  }

  // --- Constants, exponentiation, inversion and parsing ----------------------------------------

  const R_MOD_P_LIMBS: seq<u64> := [0xd35d438dc58f0d9d, 0x0a78eb28f5c70b3d, 0x666ea36f7879462c, 0x0e0a77c19a07df2f]
  const R2_MOD_P_LIMBS: seq<u64> := [0xf32cfc5b538afa89, 0xb5e71911d44501fb, 0x47ab1eff0a417ff6, 0x06d89f71cab8351f]
  const P_MINUS_2_LIMBS: seq<u64> := [0x3c208c16d87cfd45, 0x97816a916871ca8d, 0xb85045b68181585d, 0x30644e72e131a029]

  /** The Montgomery form of one. */
  const R_MOD_P: Fp := (Val4(R_MOD_P_LIMBS); R_MOD_P_LIMBS)
  /** The factor that carries an ordinary integer into Montgomery form. */
  const R2_MOD_P: Fp := (Val4(R2_MOD_P_LIMBS); R2_MOD_P_LIMBS)

  lemma ConstantsRepresent()
    ensures Reps(R_MOD_P, 1) && Reps(R2_MOD_P, R) && Reps(FP_ZERO, 0)
    ensures Val(P_MINUS_2_LIMBS) == P - 2
  {
    Val4(R_MOD_P_LIMBS); Val4(R2_MOD_P_LIMBS); Val4(P_MINUS_2_LIMBS);
    ValZeros(FP_ZERO);
  }

  lemma Pow2Is64()
    ensures Pow2(64) == BASE && Pow2(8) == 256
  {
    Pow2Limits();
    assert Pow2(8) == 256;
  }

  /** Square-and-multiply from the least significant bit; every 256-bit exponent. */
  method MontPow(a: Fp, exp: seq<u64>) returns (r: Fp)
    requires |exp| == 4
    ensures Val(exp) >= 0 && Decode(r) == Pow(Decode(a), Val(exp)) % P
  {
    ghost var n := Decode(a);
    ConstantsRepresent();
    RepsDecode(a);
    var res, b := R_MOD_P, a;
    for i := 0 to 4
      invariant 0 <= Val(exp[..i])
      invariant Reps(res, Pow(n, Val(exp[..i]))) && Reps(b, Pow(n, BPow(i)))
    {
      ValSnoc(exp, i);
      ValBound(exp[..i + 1]);
      res, b := MontPowLimb(res, b, exp[i], n, Val(exp[..i]), BPow(i));
    }
    assert exp[..4] == exp;
    RepsGivesDecode(res, Pow(n, Val(exp)));
    r := res;
  }

  /** The 64 bits of one exponent limb. */
  method MontPowLimb(res0: Fp, b0: Fp, limb: u64, ghost n: int, ghost low: nat, ghost w: nat) returns (res: Fp, b: Fp)
    requires Reps(res0, Pow(n, low)) && Reps(b0, Pow(n, w))
    ensures limb * w >= 0 && Reps(res, Pow(n, low + limb * w)) && Reps(b, Pow(n, BASE * w))
  {
    hide Reps, FpMul, Pow;
    res, b := res0, b0;
    var e := limb;
    ghost var done: nat, weight: nat := low, w;
    Pow2Is64();
    for bit := 0 to 64
      invariant 0 <= e < Pow2(64 - bit) && weight == Pow2(bit) * w
      invariant done + e * weight == low + limb * w
      invariant Reps(res, Pow(n, done)) && Reps(b, Pow(n, weight))
    {
      RepsPowMul(n, res, done, b, weight);
      RepsPowMul(n, b, weight, b, weight);
      HalveExponent(e, weight);
      DoubleWeight(w, bit);
      if e % 2 == 1 {
        res := MontMul(res, b);
        done := done + weight;
      }
      b := MontMul(b, b);
      e := e / 2;
      weight := weight + weight;
    }
    ScaleLe(0, limb, w);
  }

  lemma RepsPowMul(n: int, a: Fp, d: nat, b: Fp, e: nat)
    requires Reps(a, Pow(n, d)) && Reps(b, Pow(n, e))
    ensures Reps(FpMul(a, b), Pow(n, d + e))
  {
    PowAdd(n, d, e);
    RepsMul(a, Pow(n, d), b, Pow(n, e));
  }

  lemma HalveExponent(e: nat, w: int)
    ensures e * w == (if e % 2 == 1 then w else 0) + (e / 2) * (w + w)
  {
    assert (e % 2 + (e / 2) * 2) * w == (e % 2) * w + ((e / 2) * 2) * w;
  }

  lemma DoubleWeight(w: int, bit: nat)
    ensures Pow2(bit + 1) * w == Pow2(bit) * w + Pow2(bit) * w
  {
  }

  /** The integer a big-endian byte string spells. */
  function BeVal(bs: seq<byte>): (v: int)
    ensures 0 <= v < Pow2(8 * |bs|)
  {
    if bs == [] then 0
    else
      Pow2Add(8 * |bs| - 8, 8);
      Pow2Is64();
      BeVal(bs[..|bs| - 1]) * 256 + bs[|bs| - 1]
  }

  lemma {:induction false} BeValConcat(x: seq<byte>, y: seq<byte>)
    ensures BeVal(x + y) == BeVal(x) * Pow2(8 * |y|) + BeVal(y)
  {
    if y == [] {
      assert x + y == x;
    } else {
      var n := |y| - 1;
      BeValConcat(x, y[..n]);
      assert (x + y)[..|x + y| - 1] == x + y[..n];
      Pow2Add(8 * n, 8);
      Pow2Is64();
      ShiftByte(BeVal(x), Pow2(8 * n), BeVal(y[..n]));
    }
  }

  lemma ShiftByte(a: int, w: int, b: int)
    ensures (a * w + b) * 256 == a * (w * 256) + b * 256
  {
  }

  lemma BeValWord(x: seq<byte>, y: seq<byte>)
    requires |y| == 8
    ensures BeVal(x + y) == BeVal(x) * BASE + BeVal(y)
  {
    BeValConcat(x, y);
    Pow2Is64();
  }

  /** Thirty-two bytes are four big-endian words, most significant first. */
  lemma WordsSpell(bytes: seq<byte>, limbs: seq<u64>)
    requires |bytes| == 32 && |limbs| == 4
    requires forall i :: 0 <= i < 4 ==> limbs[i] == BeVal(bytes[(3 - i) * 8..(3 - i) * 8 + 8])
    ensures Val(limbs) == BeVal(bytes)
  {
    Val4(limbs);
    assert bytes[..16] == bytes[..8] + bytes[8..16];
    assert bytes[..24] == bytes[..16] + bytes[16..24];
    assert bytes == bytes[..24] + bytes[24..32];
    BeValWord(bytes[..8], bytes[8..16]);
    BeValWord(bytes[..16], bytes[16..24]);
    BeValWord(bytes[..24], bytes[24..32]);
    assert limbs[3] == BeVal(bytes[0..8]) && bytes[0..8] == bytes[..8];
  }

  /** `u64::from_be_bytes`. */
  function FromBeBytes(bs: seq<byte>): (v: u64)
    requires |bs| == 8
    ensures v == BeVal(bs)
  {
    Pow2Is64();
    BeVal(bs)
  }

  /** Accepts exactly the integers below the modulus; what it returns represents that integer. */
  method ParseFp(bytes: seq<byte>) returns (r: Option<Fp>)
    requires |bytes| == 32
    ensures r.Some? <==> BeVal(bytes) < P
    ensures r.Some? ==> Decode(r.value) == BeVal(bytes)
  {
    hide Val, BeVal;
    var limbs := new u64[4];
    for i := 0 to 4
      invariant forall k :: 0 <= k < i ==> limbs[k] == BeVal(bytes[(3 - k) * 8..(3 - k) * 8 + 8])
    {
      var offset := (3 - i) * 8;
      limbs[i] := FromBeBytes(bytes[offset..offset + 8]);
    }
    WordsSpell(bytes, limbs[..]);
    ModulusLimbs();
    var ok := LessThan(limbs[..], P_LIMBS);
    if !ok {
      return None;
    }
    var a: Fp := limbs[..];
    var m := MontMul(a, R2_MOD_P);
    IntoMontgomery(a);
    return Some(m);
  }

  /** Multiplying by `R^2` brings plain limbs into Montgomery form. */
  lemma IntoMontgomery(a: Fp)
    ensures Decode(FpMul(a, R2_MOD_P)) == Val(a)
  {
    RepsDecode(a);
    ConstantsRepresent();
    RepsMul(a, Decode(a), R2_MOD_P, R);
    CongSym(Val(a), Decode(a) * R, P);
    RepsGivesDecode(FpMul(a, R2_MOD_P), Decode(a) * R);
    CongMod(Decode(a) * R, P);
    CongTrans(Decode(a) * R % P, Decode(a) * R, Val(a), P);
    ValBound(a);
    CongUnique(Decode(a) * R % P, Val(a), P);
  }

  /** Multiplying by the plain limbs of one takes an element out of Montgomery form. */
  lemma OutOfMontgomery(a: Fp, one: Fp)
    requires one == [1, 0, 0, 0]
    ensures Val(FpMul(a, one)) == Decode(a)
  {
    Val4(one);
  }

  // --- Inversion --------------------------------------------------------------------------------

  /** The Montgomery form of `n`. */
  function Encode(n: int): (a: Fp)
    ensures Reps(a, n)
  {
    CongMod(n * R, P);
    FromVal((n * R) % P)
  }

  /** `Pow(n, P - 2)`, with the exponent read off the constant's limbs. */
  function FermatPower(n: int): int {
    ValBound(P_MINUS_2_LIMBS);
    Pow(n, Val(P_MINUS_2_LIMBS))
  }

  /** `None` for zero, otherwise `a^(P-2)`. */
  function FpInverse(a: Fp): Option<Fp> {
    if a == FP_ZERO then None else Some(Encode(FermatPower(Decode(a))))
  }

  method FpInvert(a: Fp) returns (r: Option<Fp>)
    ensures r == FpInverse(a)
  {
    if a == FP_ZERO {
      return None;
    }
    var p := MontPow(a, P_MINUS_2_LIMBS);
    RepsGivesDecode(Encode(FermatPower(Decode(a))), FermatPower(Decode(a)));
    DecodeInjective(p, Encode(FermatPower(Decode(a))));
    return Some(p);
  }

  lemma DecodeZero(a: Fp)
    ensures Decode(a) == 0 <==> a == FP_ZERO
  {
    ConstantsRepresent();
    RepsGivesDecode(FP_ZERO, 0);
    if Decode(a) == 0 {
      DecodeInjective(a, FP_ZERO);
    }
  }

  /** With the modulus prime, `fp_invert` inverts every non-zero element. */
  lemma InverseCorrect(a: Fp)
    requires IsPrime(P)
    ensures a != FP_ZERO ==> FpMul(a, FpInverse(a).value) == R_MOD_P
  {
    if a != FP_ZERO {
      DecodeZero(a);
      ConstantsRepresent();
      FermatInverse(Decode(a), Val(P_MINUS_2_LIMBS), P);
      RepsDecode(a);
      var b := FpInverse(a).value;
      RepsMul(a, Decode(a), b, FermatPower(Decode(a)));
      RepsUnique(FpMul(a, b), Decode(a) * FermatPower(Decode(a)), R_MOD_P, 1);
    }
  }

  lemma FermatInverse(n: nat, e: nat, p: int)
    requires IsPrime(p) && 0 < n < p && e == p - 2
    ensures Cong(n * Pow(n, e), 1, p)
  {
    LittleTheorem(p, n);
    assert Pow(n, p - 1) == n * Pow(n, e);
  }
}
