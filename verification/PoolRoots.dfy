// The square root for pools, and how many Newton steps it takes (amm-math lib.rs, `isqrt_amm`).

module PoolRoots {
  import opened Common
  import opened Powers
  import opened SquareRoots

  /** The start value 2^((bits + 1) / 2) is above the root. */
  lemma AmmStartAbove(k: nat)
    requires 0 < k <= U128_MAX
    ensures Root(k) < Pow2((BitLength(k) + 1) / 2) <= U64_MAX + 1
  {
    hide Pow2, BitLength, Root;
    var b := BitLength(k);
    var half := (b + 1) / 2;
    Pow2Limits();
    BitLengthBounds(k, 0, 128);
    Pow2Monotone(half, 64);
    Pow2Monotone(b, half + half);
    Pow2Add(half, half);
    RootBelow(k, Pow2(half));
  }

  /** One Newton step from above the root, and what the convergence test then sees. */
  lemma AmmStep(k: nat, x: nat)
    requires 0 < k <= U128_MAX && 0 < x <= U64_MAX + 1 && Root(k) <= x
    ensures CheckedDiv(k, x).Some?
    ensures var sum := CheckedAdd(x, CheckedDiv(k, x).value);
            && (sum.None? ==> k == U128_MAX && x == 1)
            && (sum.Some? ==> var next := sum.value / 2;
                  && Root(k) <= next
                  && (next < x || next == Root(k) || next == Root(k) + 1))
  {
    SumFits(k, x);
    NewtonStep(k, x);
    NewtonIs(k, x);
    hide Root, Newton;
  }

  lemma RootOfMax()
    ensures Root(U128_MAX) == U64_MAX
  {
    RootUnique(U128_MAX, U64_MAX);
  }

  /** The convergence test on the root or the number after it yields the root. */
  lemma AmmStop(k: nat, x: nat)
    requires 0 < k <= U128_MAX && (x == Root(k) || x == Root(k) + 1)
    ensures var squared, successorSquared := CheckedMul(x, x), CheckedMul(x + 1, x + 1);
            && x > 0 && x + 1 <= U128_MAX
            && (x == Root(k) <==> squared.Some? && squared.value <= k)
            && (x == Root(k) && successorSquared.Some? ==> successorSquared.value > k)
  {
    RootBelow(k, U64_MAX + 1);
  }

  /** The convergence test of `isqrt_amm`. */
  method ConvergedAmm(k: nat, x: nat) returns (r: Option<int>)
    requires 0 < k <= U128_MAX && (x == Root(k) || x == Root(k) + 1)
    ensures r == Some(Root(k))
  {
    AmmStop(k, x);
    hide Root, CheckedMul;
    var squared := CheckedMul(x, x);
    if squared.None? || squared.value > k {
      return Some(x - 1);
    }
    var successorSquared := CheckedMul(x + 1, x + 1);
    if successorSquared.None? {
      return Some(x);
    }
    if successorSquared.value <= k {
      return Some(x + 1);
    }
    return Some(x);
  }

  // --- How fast it converges ------------------------------------------------------------------------

  /** The value of `x` after `i` rounds without a convergence test. */
  function Iterate(k: nat, i: nat): (x: nat)
    requires 0 < k <= U128_MAX
    ensures 0 < x <= U64_MAX + 1 && Root(k) <= x
  {
    RootPositive(k);
    if i == 0 then
      AmmStartAbove(k);
      Pow2((BitLength(k) + 1) / 2)
    else
      RootOfMax();
      RootBelow(k, U64_MAX + 1);
      NewtonStep(k, Iterate(k, i - 1));
      Newton(k, Iterate(k, i - 1))
  }

  lemma IterateNext(k: nat, i: nat)
    requires 0 < k <= U128_MAX
    ensures Iterate(k, i + 1) == Newton(k, Iterate(k, i))
  {
  }

  /** `x` lies above the root by at most the `c`-th part of the root, plus one. */
  ghost predicate Near(k: nat, x: nat, c: nat) {
    c * (x - Root(k)) <= Root(k) + c
  }

  /** The start value is at most twice the root, plus one. */
  lemma StartNear(k: nat)
    requires 0 < k <= U128_MAX
    ensures Near(k, Iterate(k, 0), 1)
  {
    hide Pow2, BitLength, Root;
    var b, s := BitLength(k), Root(k);
    var half := (b + 1) / 2;
    assert s * s <= k < (s + 1) * (s + 1) by { RootBounds(k); }
    Pow2Monotone(half + half, b + 1);
    Pow2Add(half, half);
    Pow2Next(b - 1);
    Pow2Next(b);
    assert (2 * (s + 1)) * (2 * (s + 1)) == 4 * ((s + 1) * (s + 1));
    SquareMonotone(2 * (s + 1), Pow2(half));
  }

  lemma RootBounds(n: nat)
    ensures Root(n) * Root(n) <= n < (Root(n) + 1) * (Root(n) + 1)
  {
  }

  /** A round squares the distance, roughly. */
  lemma NearStep(k: nat, x: nat, c: nat)
    requires 0 < k && 0 < c && Root(k) <= x && Near(k, x, c)
    ensures x > 0 && Near(k, Newton(k, x), 2 * (c * (c + 1)))
  {
    var s := Root(k);
    NewtonStep(k, x);
    RootBounds(k);
    RootPositive(k);
    NewtonQuotient(k, x);
    var next := Newton(k, x);
    hide Root, Newton;
    StepDistance(k, x, k / x, next, s);
    DistanceShrinks(s, x - s, next - s, c);
  }

  lemma StepDistance(k: nat, x: nat, q: nat, next: nat, s: nat)
    requires s * s <= k < (s + 1) * (s + 1) && s <= x && s <= next && x * q <= k && 2 * next <= x + q
    ensures 2 * (x * (next - s)) <= (x - s) * (x - s) + 2 * s
  {
    ScaleLe(x, 2 * next, x + q);
    assert x * (2 * next) == 2 * (x * next) && x * (x + q) == x * x + x * q;
    assert x * (next - s) == x * next - x * s;
    assert (x - s) * (x - s) == x * x - 2 * (x * s) + s * s;
    assert (s + 1) * (s + 1) == s * s + 2 * s + 1;
  }

  lemma DistanceShrinks(s: nat, d: nat, e: nat, c: nat)
    requires 0 < s && 0 < c && c * d <= s + c && 2 * ((s + d) * e) <= d * d + 2 * s
    ensures 2 * (c * (c + 1)) * e <= s + 2 * (c * (c + 1))
  {
    var m := c * (c + 1);
    DistanceBound(s, d, c);
    if s + 2 * m < 2 * m * e {
      Overshoot(s, d, e, m);
    }
  }

  /** `m d^2 <= s^2 + s d + 2 m d` for `m = c (c + 1)` */
  lemma DistanceBound(s: nat, d: nat, c: nat)
    requires c * d <= s + c
    ensures c * (c + 1) * (d * d) <= s * s + s * d + 2 * (c * (c + 1) * d)
  {
    var u := c * d;
    assert u * u <= s * s + 2 * (c * u) by {
      if u <= s {
        SquareMonotone(u, s);
        NonNegativeProduct(c, u);
      } else {
        OvershootSquare(s, u - s, c);
      }
    }
    ScaleLe(d, u, s + c);
    Regroup(c, d, u);
    assert d * (s + c) == s * d + u;
    NonNegativeProduct(c, u);
  }

  lemma NonNegativeProduct(a: nat, b: nat)
    ensures a * b >= 0
  {
  }

  lemma OvershootSquare(s: nat, t: nat, c: nat)
    requires t <= c
    ensures (s + t) * (s + t) <= s * s + 2 * (c * (s + t))
  {
    assert (s + t) * (s + t) == s * s + s * t + t * (s + t);
    assert s * t <= (s + t) * t;
    ScaleLe(s + t, t, c);
  }

  lemma Regroup(c: nat, d: nat, u: nat)
    requires u == c * d
    ensures c * (c + 1) * (d * d) == u * u + d * u
    ensures c * (c + 1) * d == c * u + u
  {
    assert c * (c + 1) == c * c + c;
    assert c * c * d == c * u && (c * c + c) * d == c * c * d + c * d;
    assert c * c * (d * d) == u * u && c * (d * d) == d * u;
  }

  lemma Overshoot(s: nat, d: nat, e: nat, m: nat)
    requires 0 < s && m * (d * d) <= s * s + s * d + 2 * (m * d)
    requires 2 * ((s + d) * e) <= d * d + 2 * s
    ensures 2 * m * e <= s + 2 * m
  {
    OvershootProduct(s, d, e, m);
    ScaleLt(s + d, 2 * m * e, s + 2 * m + 1);
  }

  lemma ScaleLt(p: nat, a: int, b: int)
    requires p * a < p * b
    ensures a < b
  {
  }

  lemma OvershootProduct(s: nat, d: nat, e: nat, m: nat)
    requires 0 < s && m * (d * d) <= s * s + s * d + 2 * (m * d)
    requires 2 * ((s + d) * e) <= d * d + 2 * s
    ensures (s + d) * (2 * m * e) < (s + d) * (s + 2 * m + 1)
  {
    ScaleLe(m, 2 * ((s + d) * e), d * d + 2 * s);
    Reorder(s + d, m, e);
    Spread(m, d * d, s);
    Expand(s, d, m);
  }

  lemma Reorder(a: int, m: int, e: int)
    ensures a * (2 * m * e) == m * (2 * (a * e))
  {
  }

  lemma Spread(m: int, a: int, s: int)
    ensures m * (a + 2 * s) == m * a + 2 * (m * s)
  {
  }

  lemma Expand(s: int, d: int, m: int)
    ensures (s + d) * (s + 2 * m + 1) == s * s + s * d + 2 * (m * s) + 2 * (m * d) + s + d
  {
  }

  /** Six rounds bring every u128 within one of its root. */
  lemma SixRounds(k: nat)
    requires 0 < k <= U128_MAX
    ensures Iterate(k, 6) <= Root(k) + 1
  {
    hide Iterate, Near, Newton, Root;
    StartNear(k);
    NearNext(k, 0, 1);
    NearNext(k, 1, 4);
    NearNext(k, 2, 40);
    NearNext(k, 3, 3_280);
    NearNext(k, 4, 21_523_360);
    NearNext(k, 5, 926_510_094_425_920);
    RootBelow(k, U64_MAX + 1);
    NearIsNext(k, Iterate(k, 6), 1_716_841_910_146_256_242_328_924_544_640);
  }

  lemma NearNext(k: nat, i: nat, c: nat)
    requires 0 < k <= U128_MAX && 0 < c && Near(k, Iterate(k, i), c)
    ensures Near(k, Iterate(k, i + 1), 2 * (c * (c + 1)))
  {
    hide Iterate, Near, Newton, Root;
    IterateNext(k, i);
    NearStep(k, Iterate(k, i), c);
  }

  lemma NearIsNext(k: nat, x: nat, c: nat)
    requires Near(k, x, c) && Root(k) < c
    ensures x <= Root(k) + 1
  {
    if x >= Root(k) + 2 {
      ScaleLe(c, 2, x - Root(k));
    }
  }

  /** The convergence test succeeds in the eighth round or before. */
  lemma EightRounds(k: nat)
    requires 0 < k <= U128_MAX
    ensures exists i :: 0 <= i < 8 && Iterate(k, i + 1) >= Iterate(k, i)
  {
    hide Iterate, Newton, Root;
    SixRounds(k);
    IterateNext(k, 6);
    NewtonStep(k, Iterate(k, 6));
    if Iterate(k, 7) < Iterate(k, 6) {
      assert Iterate(k, 7 + 1) >= Iterate(k, 7);
    } else {
      assert Iterate(k, 6 + 1) >= Iterate(k, 6);
    }
  }

  const SLOWEST: nat := 1_329_227_995_784_915_875_209_650_069_494_038_528  // (2^60 + 1)^2 - 1

  lemma SlowestPowers()
    ensures Pow2(61) == 2_305_843_009_213_693_952 && Pow2(120) == 1_329_227_995_784_915_872_903_807_060_280_344_576
        && Pow2(121) == 2_658_455_991_569_831_745_807_614_120_560_689_152
  {
    hide Pow2;
    Pow2Limits();
    Pow2Next(62); Pow2Next(61); Pow2Next(60);
    assert Pow2(60) == 1_152_921_504_606_846_976;
    Pow2Add(60, 60);
    Pow2Next(120);
  }

  lemma StartIs(k: nat)
    requires 0 < k <= U128_MAX
    ensures Iterate(k, 0) == Pow2((BitLength(k) + 1) / 2)
  {
  }

  lemma SlowestStart()
    ensures Iterate(SLOWEST, 0) == 2_305_843_009_213_693_952
  {
    hide Pow2, BitLength, Iterate;
    StartIs(SLOWEST);
    SlowestPowers();
    BitLengthBounds(SLOWEST, 120, 121);
    assert BitLength(SLOWEST) == 121;
  }

  lemma SlowestNext(i: nat, x: nat, next: nat)
    requires x > 0 && Iterate(SLOWEST, i) == x && (x + SLOWEST / x) / 2 == next
    ensures Iterate(SLOWEST, i + 1) == next
  {
    hide Iterate;
    IterateNext(SLOWEST, i);
  }

  /** The bound is exact: there is a number whose first seven rounds all go down. */
  lemma EightRoundsNeeded()
    ensures forall i :: 0 <= i < 7 ==> Iterate(SLOWEST, i + 1) < Iterate(SLOWEST, i)
  {
    hide Iterate;
    SlowestStart();
    SlowestNext(0, 2_305_843_009_213_693_952, 1_441_151_880_758_558_720);
    SlowestNext(1, 1_441_151_880_758_558_720, 1_181_744_542_222_018_151);
    SlowestNext(2, 1_181_744_542_222_018_151, 1_153_273_005_065_568_576);
    SlowestNext(3, 1_153_273_005_065_568_576, 1_152_921_558_172_902_862);
    SlowestNext(4, 1_152_921_558_172_902_862, 1_152_921_504_606_848_221);
    SlowestNext(5, 1_152_921_504_606_848_221, 1_152_921_504_606_846_977);
    SlowestNext(6, 1_152_921_504_606_846_977, 1_152_921_504_606_846_976);
  }

  /**
    * `isqrt_amm`: Newton steps from above, then the digit method. The loop allows ten rounds; it never takes more than
    * eight, so the digit method is not reached.
    */
  method IsqrtAmm(k: nat) returns (r: Option<int>, ghost rounds: nat)
    requires k <= U128_MAX
    ensures r == Some(Root(k)) && rounds <= 8
  {
    rounds := 0;
    if k == 0 {
      RootUnique(0, 0);
      return Some(0), rounds;
    }
    if k == 1 {
      RootUnique(1, 1);
      return Some(1), rounds;
    }
    var x: int := Pow2((BitLength(k) + 1) / 2);
    assert x == Iterate(k, 0);
    RootPositive(k);
    RootOfMax();
    hide Root, Pow2, BitLength, CheckedAdd, CheckedMul, CheckedDiv, Iterate;
    for i := 0 to 10
      invariant x == Iterate(k, i) && rounds == i
      invariant forall j :: 0 <= j < i ==> Iterate(k, j + 1) < Iterate(k, j)
    {
      var previous := x;
      AmmStep(k, x);
      IterateNext(k, i);
      NewtonIs(k, x);
      rounds := rounds + 1;
      var quotient := CheckedDiv(k, x);
      if quotient.None? {
        return None, rounds;
      }
      var sum := CheckedAdd(x, quotient.value);
      if sum.None? {
        return None, rounds;
      }
      x := sum.value / 2;
      if x >= previous {
        EightRounds(k);
        r := ConvergedAmm(k, x);
        return;
      }
    }
    r := IsqrtBitwise(k);
    EightRounds(k);
  }
}
