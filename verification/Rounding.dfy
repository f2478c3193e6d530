// Division with an explicit rounding direction (rounding.rs). Rust's `/` and `%` truncate toward zero.

module Rounding {
  import opened Common

  datatype RoundingDirection = Floor | Ceiling | Truncate

  datatype RoundingError =
    | RoundingOverflow
    | DivisionAborts  // the native division overflows: the smallest i128 divided by -1

  function TruncDiv(n: int, d: int): int
    requires d != 0
  {
    if n >= 0 then n / d else -((-n) / d)
  }

  function TruncRem(n: int, d: int): int
    requires d != 0
  {
    n - d * TruncDiv(n, d)
  }

  /** `q` is the largest integer not above the true quotient. */
  ghost predicate IsFloor(n: int, d: int, q: int) {
    if d > 0 then q * d <= n < q * d + d else q * d >= n > q * d + d
  }

  /** `q` is the smallest integer not below the true quotient. */
  ghost predicate IsCeiling(n: int, d: int, q: int) {
    if d > 0 then q * d - d < n <= q * d else q * d - d > n >= q * d
  }

  /** `q` is the quotient with its fraction dropped. */
  ghost predicate IsTruncation(n: int, d: int, q: int) {
    if (n >= 0) == (d > 0) then IsFloor(n, d, q) else IsCeiling(n, d, q)
  }

  ghost predicate IsRounded(n: int, d: int, q: int, direction: RoundingDirection) {
    match direction
    case Floor => IsFloor(n, d, q)
    case Ceiling => IsCeiling(n, d, q)
    case Truncate => IsTruncation(n, d, q)
  }

  /** `safe_div` */
  function SafeDiv(n: int, d: int, direction: RoundingDirection): Result<int, RoundingError> {
    if d == 0 then Err(RoundingOverflow)
    else if n == I128_MIN && d == -1 then Err(DivisionAborts)
    else
      var q, r := TruncDiv(n, d), TruncRem(n, d);
      match direction
      case Truncate => Ok(q)
      case Floor =>
        if r != 0 && (r < 0) != (d < 0) then
          if q - 1 < I128_MIN then Err(RoundingOverflow) else Ok(q - 1)
        else Ok(q)
      case Ceiling =>
        if r != 0 && (r < 0) == (d < 0) then
          if q + 1 > I128_MAX then Err(RoundingOverflow) else Ok(q + 1)
        else Ok(q)
  }

  lemma EuclidDivision(n: nat, d: int)
    requires d != 0
    ensures n == d * (n / d) + n % d && 0 <= n % d < (if d > 0 then d else -d)
    ensures d > 0 ==> n / d >= 0
    ensures d < 0 ==> n / d <= 0
  {
    QuotientSign(n, d);
  }

  lemma QuotientSign(n: nat, d: int)
    requires d != 0
    ensures if d > 0 then n / d >= 0 else n / d <= 0
  {
    if d < 0 {
      assert n / d == -(n / (-d));
    }
  }

  /** Truncated division leaves a remainder with the numerator's sign, smaller than the denominator. */
  lemma TruncFacts(n: int, d: int)
    requires d != 0
    ensures n == d * TruncDiv(n, d) + TruncRem(n, d)
    ensures n >= 0 ==> 0 <= TruncRem(n, d) < (if d > 0 then d else -d)
    ensures n <= 0 ==> (if d > 0 then -d else d) < TruncRem(n, d) <= 0
  {
    if n >= 0 {
      EuclidDivision(n, d);
    } else {
      EuclidDivision(-n, d);
      var m := (-n) / d;
      assert d * (-m) == -(d * m);
    }
  }

  lemma MagnitudeGrows(d: int, q: int)
    requires d != 0
    ensures (d * q >= q && d * q >= -q) || (d * q <= q && d * q <= -q)
    ensures d != 1 && d != -1 && q != 0 ==> (d * q >= 2 * q && d * q >= -2 * q) || (d * q <= 2 * q && d * q <= -2 * q)
  {
  }

  /** With a remainder left the truncated quotient stays clear of the ends of the range. */
  lemma QuotientFits(n: int, d: int)
    requires FitsI128(n) && FitsI128(d) && d != 0 && !(n == I128_MIN && d == -1)
    ensures FitsI128(TruncDiv(n, d))
    ensures TruncRem(n, d) != 0 ==> I128_MIN < TruncDiv(n, d) < I128_MAX
  {
    TruncFacts(n, d);
    var q, r := TruncDiv(n, d), TruncRem(n, d);
    hide TruncDiv, TruncRem;
    MagnitudeGrows(d, q);
    if d == 1 || d == -1 {
      assert r == 0;
    }
  }

  /**
    * For every pair of i128 operands `safe_div` fails exactly on a zero denominator and on the one quotient that
    * does not fit; otherwise it is the quotient rounded as asked, whatever the signs.
    */
  lemma SafeDivRounds(n: int, d: int, direction: RoundingDirection)
    requires FitsI128(n) && FitsI128(d)
    ensures SafeDiv(n, d, direction).Ok? <==> d != 0 && !(n == I128_MIN && d == -1)
    ensures SafeDiv(n, d, direction).Ok? ==>
              FitsI128(SafeDiv(n, d, direction).value) && IsRounded(n, d, SafeDiv(n, d, direction).value, direction)
    ensures SafeDiv(n, d, direction).Err? ==> (SafeDiv(n, d, direction).error == RoundingOverflow <==> d == 0)
  {
    if d != 0 && !(n == I128_MIN && d == -1) {
      TruncFacts(n, d);
      QuotientFits(n, d);
      var q := TruncDiv(n, d);
      Steps(q, d);
      hide TruncDiv, TruncRem;
    }
  }

  lemma Steps(q: int, d: int)
    ensures (q - 1) * d == q * d - d && (q + 1) * d == q * d + d && q * d == d * q
  {
  }

  lemma SameSlot(d: nat, p: int, q: int)
    requires d > 0 && p * d < q * d + d
    ensures p <= q
  {
    if p > q {
      BetweenProducts(d, p, q);
    }
  }

  lemma BetweenProducts(d: nat, p: int, q: int)
    requires p > q
    ensures p * d >= q * d + d
  {
    assert p * d == q * d + d + (p - q - 1) * d;
  }

  /** There is only one floor. */
  lemma FloorUnique(n: int, d: int, p: int, q: int)
    requires d != 0 && IsFloor(n, d, p) && IsFloor(n, d, q)
    ensures p == q
  {
    if d > 0 {
      SameSlot(d, p, q);
      SameSlot(d, q, p);
    } else {
      assert p * -d == -(p * d) && q * -d == -(q * d);
      SameSlot(-d, p, q);
      SameSlot(-d, q, p);
    }
  }

  /** `safe_mul_div` */
  function SafeMulDiv(a: int, b: int, d: int, direction: RoundingDirection): Result<int, RoundingError> {
    if !FitsI128(a * b) then Err(RoundingOverflow) else SafeDiv(a * b, d, direction)
  }

  /** `dust_remainder` */
  function DustRemainder(pool: int, distributed: int): Result<int, RoundingError> {
    if FitsI128(pool - distributed) then Ok(pool - distributed) else Err(RoundingOverflow)
  }

  // --- Proportional distribution ----------------------------------------------------------------------

  function Total(s: seq<int>): int {
    if s == [] then 0 else Total(s[..|s| - 1]) + s[|s| - 1]
  }

  lemma FloorStep(pool: nat, weight: nat, total: nat, part: nat, given: nat, seen: nat, count: nat)
    requires total > 0 && IsFloor(pool * weight, total, part)
    requires given * total <= pool * seen <= given * total + count * (total - 1)
    ensures (given + part) * total <= pool * (seen + weight) <= (given + part) * total + (count + 1) * (total - 1)
  {
    assert pool * (seen + weight) == pool * seen + pool * weight;
    assert (given + part) * total == given * total + part * total;
    assert (count + 1) * (total - 1) == count * (total - 1) + (total - 1);
  }

  /** The floors of the shares of any prefix fall short of the exact shares by less than one each. */
  lemma {:induction false} FloorsBelow(pool: nat, weights: seq<int>, parts: seq<int>, total: nat)
    requires total > 0 && |parts| == |weights|
    requires forall i :: 0 <= i < |weights| ==>
        weights[i] >= 0 && parts[i] >= 0 && IsFloor(pool * weights[i], total, parts[i])
    ensures Total(parts) >= 0 && Total(weights) >= 0
    ensures Total(parts) * total <= pool * Total(weights) <= Total(parts) * total + |parts| * (total - 1)
  {
    if weights != [] {
      var k := |weights| - 1;
      FloorsBelow(pool, weights[..k], parts[..k], total);
      FloorStep(pool, weights[k], total, parts[k], Total(parts[..k]), Total(weights[..k]), k);
    }
  }

  lemma DustBounds(pool: nat, given: nat, total: nat, count: nat)
    requires total > 0 && count > 0 && given * total <= pool * total <= given * total + count * (total - 1)
    ensures given <= pool && pool - given < count
  {
    SameSlot(total, given, pool);
    assert pool * total - given * total == (pool - given) * total;
    assert count * (total - 1) == count * total - count;
    Scaled(count, pool - given, total);
  }

  lemma Scaled(a: nat, b: nat, d: nat)
    ensures a <= b ==> a * d <= b * d
  {
  }

  /** Distributing by floored shares gives out at most the pool and leaves less than one unit per recipient. */
  lemma FloorDistribution(pool: nat, weights: seq<int>, parts: seq<int>)
    requires |weights| > 0 && Total(weights) > 0 && |parts| == |weights|
    requires forall i :: 0 <= i < |weights| ==>
        weights[i] >= 0 && parts[i] >= 0 && IsFloor(pool * weights[i], Total(weights), parts[i])
    ensures 0 <= Total(parts) <= pool && pool - Total(parts) < |parts|
  {
    FloorsBelow(pool, weights, parts, Total(weights));
    DustBounds(pool, Total(parts), Total(weights), |parts|);
  }
}
