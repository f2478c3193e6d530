// Integer square roots (amm-math lib.rs; isqrt_u128 of the payout registry).
// Shifts and masks on u128 values are written as multiplication, division and remainder by powers of two,
// with an assertion wherever the source relies on a value staying within 128 bits.

module SquareRoots {
  import opened Common
  import opened Powers

  /** The floor of the square root: the reference the loops are proved against. */
  function Root(n: nat): (r: nat)
    ensures r * r <= n < (r + 1) * (r + 1)
  {
    if n == 0 then 0
    else
      var r := Root(n - 1);
      if (r + 1) * (r + 1) <= n then r + 1 else r
  }

  lemma SquareMonotone(a: nat, b: nat)
    ensures a <= b ==> a * a <= b * b
  {
  }

  /** Only one number satisfies the two bounds. */
  lemma RootUnique(n: nat, r: nat)
    requires r * r <= n < (r + 1) * (r + 1)
    ensures r == Root(n)
  {
    var s := Root(n);
    SquareMonotone(r + 1, s);
    SquareMonotone(s + 1, r);
  }

  lemma RootBelow(n: nat, b: nat)
    requires n < b * b
    ensures Root(n) < b
  {
    SquareMonotone(b, Root(n));
  }

  // --- Binary digits ---------------------------------------------------------------------------------

  /** The number of binary digits: 128 minus the leading zeros of a u128. */
  function BitLength(n: nat): (b: nat)
    ensures n < Pow2(b) && (n > 0 ==> b > 0 && Pow2(b - 1) <= n)
  {
    if n == 0 then 0 else 1 + BitLength(n / 2)
  }

  lemma BitLengthBounds(n: nat, lo: nat, hi: nat)
    ensures n < Pow2(hi) ==> BitLength(n) <= hi
    ensures Pow2(lo) <= n ==> lo < BitLength(n)
  {
    var b := BitLength(n);
    if n < Pow2(hi) && hi < b {
      Pow2Monotone(hi, b - 1);
    }
    if Pow2(lo) <= n && b <= lo {
      Pow2Monotone(b, lo);
    }
  }

  // --- Digit by digit -------------------------------------------------------------------------------

  lemma ScaleLe(p: nat, a: nat, b: nat)
    ensures a <= b ==> p * a <= p * b
  {
  }

  lemma QuotientIs(n: nat, p: nat, q: nat, m: nat)
    requires p > 0 && n == p * q + m && m < p
    ensures n / p == q
  {
    var d := n / p;
    Divided(n, p);
    assert p * (d + 1) == p * d + p && p * (q + 1) == p * q + p;
    ScaleLe(p, d + 1, q);
    ScaleLe(p, q + 1, d);
  }

  lemma Divided(n: nat, p: nat)
    requires p > 0
    ensures p * (n / p) + n % p == n && n % p < p
  {
  }

  /** Dividing by four more drops one base-four digit. */
  lemma NextDigit(n: nat, p: nat)
    requires p > 0
    ensures n / p == 4 * (n / (4 * p)) + (n / p) % 4
  {
    var d := n / p;
    Divided(n, p);
    var q, digit := d / 4, d % 4;
    assert d == 4 * q + digit;
    Refold(p, q, digit);
    ScaleLe(p, digit, 3);
    QuotientIs(n, 4 * p, q, p * digit + n % p);
  }

  lemma Refold(p: nat, q: nat, digit: nat)
    ensures p * (4 * q + digit) == 4 * p * q + p * digit
  {
  }

  /** `result` and `remainder` are the root of `m` and what is left of it. */
  ghost predicate RootWithRemainder(m: nat, result: int, remainder: int) {
    result >= 0 && 0 <= remainder <= 2 * result && result * result + remainder == m
  }

  /** One digit of the root, two digits of the argument. */
  lemma DigitStep(m: nat, result: nat, rem: nat, digit: nat)
    requires RootWithRemainder(m, result, rem) && digit < 4
    ensures var bigger, test := 4 * rem + digit, 4 * result + 1;
            if test <= bigger then RootWithRemainder(4 * m + digit, 2 * result + 1, bigger - test)
            else RootWithRemainder(4 * m + digit, 2 * result, bigger)
  {
    assert (2 * result) * (2 * result) == 4 * (result * result);
    assert (2 * result + 1) * (2 * result + 1) == 4 * (result * result) + 4 * result + 1;
  }

  lemma DigitBounds(n: nat, r: nat, rem: nat)
    requires r * r + rem == n && rem <= 2 * r
    ensures r * r <= n < (r + 1) * (r + 1)
  {
  }

  /** `isqrt_bitwise` */
  method IsqrtBitwise(n: nat) returns (r: Option<nat>)
    requires n <= U128_MAX
    ensures r == Some(Root(n))
  {
    if n == 0 {
      return Some(0);
    }
    var result, remainder := 0, 0;
    var shift := 64;
    NoDigitsYet(n);
    hide PrefixRoot, Root, Top;
    while shift > 0
      invariant shift <= 64 && PrefixRoot(n, shift, result, remainder)
    {
      shift := shift - 1;
      var digit := Top(n, shift) % 4;
      PrefixStep(n, shift, result, remainder);
      assert 4 * remainder + digit <= U128_MAX && 4 * result + 1 <= U128_MAX;
      remainder := 4 * remainder + digit;
      var test := 4 * result + 1;
      if test <= remainder {
        remainder := remainder - test;
        result := 2 * result + 1;
      } else {
        result := 2 * result;
      }
    }
    AllDigits(n, result, remainder);
    return Some(result);
  }

  /** The base-four digits of `n` from place `shift` up. */
  function Top(n: nat, shift: nat): nat {
    n / Pow2(2 * shift)
  }

  lemma TopNext(n: nat, shift: nat)
    ensures Top(n, shift) == 4 * Top(n, shift + 1) + Top(n, shift) % 4
  {
    hide Pow2;
    Pow2Next(2 * shift);
    Pow2Next(2 * shift + 1);
    assert 2 * (shift + 1) == 2 * shift + 2;
    NextDigit(n, Pow2(2 * shift));
  }

  lemma TopWhole(n: nat)
    ensures Top(n, 0) == n
  {
  }

  /** The root and the remainder of the digits of `n` above `shift` base-four places. */
  ghost predicate PrefixRoot(n: nat, shift: nat, result: int, remainder: int)
    requires shift <= 64
  {
    RootWithRemainder(Top(n, shift), result, remainder) && result < Pow2(64 - shift)
  }

  lemma NoDigitsYet(n: nat)
    requires n <= U128_MAX
    ensures PrefixRoot(n, 64, 0, 0)
  {
    Pow2Limits();
    assert Pow2(0) == 1;
    hide Pow2;
    assert n / Pow2(128) == 0 by { QuotientIs(n, Pow2(128), 0, n); }
  }

  lemma PrefixStep(n: nat, shift: nat, result: nat, remainder: nat)
    requires shift < 64 && PrefixRoot(n, shift + 1, result, remainder)
    ensures var digit := Top(n, shift) % 4;
            var bigger, test := 4 * remainder + digit, 4 * result + 1;
            && bigger <= U128_MAX && test <= U128_MAX
            && (if test <= bigger then PrefixRoot(n, shift, 2 * result + 1, bigger - test)
                else PrefixRoot(n, shift, 2 * result, bigger))
  {
    hide Pow2, Root;
    Pow2Next(63 - shift);
    Pow2Limits();
    Pow2Monotone(63 - shift, 63);
    assert 0 <= remainder <= 2 * result && result < Pow2(63);
    hide RootWithRemainder, Top;
    TopNext(n, shift);
    DigitStep(Top(n, shift + 1), result, remainder, Top(n, shift) % 4);
  }

  lemma AllDigits(n: nat, result: nat, remainder: nat)
    requires PrefixRoot(n, 0, result, remainder)
    ensures result == Root(n)
  {
    TopWhole(n);
    DigitBounds(n, result, remainder);
    RootUnique(n, result);
  }

  /** The power of four tried next when the next digit lies below 2^k; none is left at `k = 0`. */
  function Trial(k: nat): nat {
    if k == 0 then 0 else Pow2(k - 1) * Pow2(k - 1)
  }

  lemma TrialDown(k: nat)
    requires k > 0
    ensures Trial(k) > 0 && Trial(k) / 4 == Trial(k - 1)
  {
    if k > 1 {
      var q := Pow2(k - 2);
      assert (2 * q) * (2 * q) == 4 * (q * q);
    }
  }

  /** `isqrt_u128`: subtracting odd multiples of falling powers of four. */
  method IsqrtU128(n: nat) returns (r: nat)
    requires n <= U128_MAX
    ensures r == Root(n)
  {
    var op := n;
    var res := 0;
    var one := 0x4000_0000_0000_0000_0000_0000_0000_0000;  // 1 << 126
    ghost var k: nat := 64;  // the next binary digit of the root lies below 2^k
    Pow2Limits();
    hide Pow2, Root, RootSoFar;
    assert one == Trial(k) && n < Pow2(k) * Pow2(k);
    hide Trial;
    while one > op
      invariant k <= 64 && one == Trial(k) && n < Pow2(k) * Pow2(k)
      decreases one
    {
      TrialDown(k);
      k := k - 1;
      one := one / 4;
    }
    ghost var root: nat := 0;
    NoRootYet(n, k);
    while one != 0
      invariant k <= 64 && one == Trial(k) && RootSoFar(n, k, root, op, res)
      decreases k
    {
      TrialDown(k);
      RootStep(n, k, root, op, res);
      assert res + one <= U128_MAX;
      if op >= res + one {
        op := op - (res + one);
        res := res / 2 + one;
        root := root + Pow2(k - 1);
      } else {
        res := res / 2;
      }
      one := one / 4;
      k := k - 1;
    }
    LastDigit(n, k, root, op, res);
    return res;
  }

  /** `root` holds the digits of the root of `n` from `p` up; `op` and `res` are the scaled remainder and root. */
  ghost predicate RootAbove(n: nat, p: nat, root: nat, op: int, res: int) {
    && root * root <= n < (root + p) * (root + p)
    && op == n - root * root && res == root * p
  }

  ghost predicate RootSoFar(n: nat, k: nat, root: nat, op: int, res: int) {
    RootAbove(n, Pow2(k), root, op, res) && root + Pow2(k) <= Pow2(64)
  }

  lemma NoRootYet(n: nat, k: nat)
    requires k <= 64 && n < Pow2(k) * Pow2(k)
    ensures RootSoFar(n, k, 0, n, 0)
  {
    Pow2Monotone(k, 64);
    hide Pow2;
  }

  lemma DigitTaken(n: nat, h: nat, root: nat, op: int, res: int)
    requires RootAbove(n, 2 * h, root, op, res) && op >= res + h * h
    ensures RootAbove(n, h, root + h, op - (res + h * h), res / 2 + h * h)
  {
    SquareOfSum(root, h);
    assert root + h + h == root + 2 * h;
    assert (root + h) * h == root * h + h * h;
  }

  lemma DigitSkipped(n: nat, h: nat, root: nat, op: int, res: int)
    requires RootAbove(n, 2 * h, root, op, res) && op < res + h * h
    ensures RootAbove(n, h, root, op, res / 2)
  {
    SquareOfSum(root, h);
  }

  lemma SquareOfSum(root: nat, h: nat)
    ensures (root + h) * (root + h) == root * root + root * (2 * h) + h * h
    ensures root * (2 * h) == 2 * (root * h)
  {
  }

  lemma TrialFits(root: nat, h: nat, bound: nat)
    requires h > 0 && root + 2 * h <= bound
    ensures root * (2 * h) + h * h < bound * bound
  {
    SquareMonotone(root + 2 * h, bound);
    assert (root + 2 * h) * (root + 2 * h) == root * root + 2 * (root * (2 * h)) + 4 * (h * h);
    assert h * h > 0;
  }

  lemma TrialBound(root: nat, h: nat)
    requires h > 0 && root + 2 * h <= Pow2(64)
    ensures 0 <= root * (2 * h) && root * (2 * h) + h * h <= U128_MAX
  {
    TrialFits(root, h, Pow2(64));
    Pow2Add(64, 64);
    Pow2Limits();
  }

  lemma RootStep(n: nat, k: nat, root: nat, op: int, res: int)
    requires 0 < k <= 64 && RootSoFar(n, k, root, op, res)
    ensures var h, one := Pow2(k - 1), Trial(k);
            && 0 <= res && res + one <= U128_MAX
            && (if op >= res + one then RootSoFar(n, k - 1, root + h, op - (res + one), res / 2 + one)
                else RootSoFar(n, k - 1, root, op, res / 2))
  {
    hide Pow2, Root;
    var h := Pow2(k - 1);
    Pow2Next(k - 1);
    assert Trial(k) == h * h;
    assert res == root * (2 * h);
    hide Trial, RootAbove;
    TrialBound(root, h);
    if op >= res + h * h {
      DigitTaken(n, h, root, op, res);
    } else {
      DigitSkipped(n, h, root, op, res);
    }
  }

  lemma LastDigit(n: nat, k: nat, root: nat, op: int, res: int)
    requires Trial(k) == 0 && RootSoFar(n, k, root, op, res)
    ensures res == Root(n)
  {
    if k > 0 {
      TrialDown(k);
    } else {
      assert Pow2(k) == 1;
      RootUnique(n, root);
    }
  }

  // --- Checked u128 arithmetic ----------------------------------------------------------------------

  function CheckedAdd(a: nat, b: nat): Option<nat> {
    if a + b <= U128_MAX then Some(a + b) else None
  }

  function CheckedMul(a: nat, b: nat): Option<nat> {
    if a * b <= U128_MAX then Some(a * b) else None
  }

  function CheckedDiv(a: nat, b: nat): Option<nat> {
    if b == 0 then None else Some(a / b)
  }

  // --- Newton's iteration ---------------------------------------------------------------------------

  function Newton(n: nat, x: nat): nat
    requires x > 0
  {
    (x + n / x) / 2
  }

  lemma ProductBelowSquare(x: nat, y: nat, s: nat)
    ensures x + y <= 2 * s ==> x * y <= s * s
  {
    SquareMonotone(x + y, 2 * s);
    FourProducts(x, y);
    FourProducts(s, s);
    assert s + s == 2 * s;
  }

  lemma FourProducts(x: int, y: int)
    ensures (x + y) * (x + y) == 4 * (x * y) + (x - y) * (x - y) && (x - y) * (x - y) >= 0
  {
    SquareNonNegative(x - y);
  }

  lemma SquareNonNegative(d: int)
    ensures d * d >= 0
  {
  }

  /** Newton's step from above goes strictly down and never below the root; from the root it moves by at most one. */
  lemma NewtonStep(n: nat, x: nat)
    requires n > 0 && x >= Root(n)
    ensures x > 0 && Newton(n, x) >= Root(n)
    ensures x > Root(n) ==> Newton(n, x) < x
    ensures x == Root(n) ==> Newton(n, x) <= x + 1
  {
    var s := Root(n);
    assert 0 < s && s * s <= n < (s + 1) * (s + 1);
    hide Root;
    NewtonQuotient(n, x);
    var q := n / x;
    hide Newton;
    StepNotBelow(n, x, q, s);
    if x > s {
      StepDown(n, x, q, s);
    } else {
      StepAtRoot(n, q, s);
    }
  }

  lemma NewtonQuotient(n: nat, x: nat)
    requires x > 0
    ensures n / x >= 0 && x * (n / x) <= n < x * (n / x) + x && Newton(n, x) == (x + n / x) / 2
  {
    Divided(n, x);
  }

  lemma StepNotBelow(n: nat, x: nat, q: nat, s: nat)
    requires s * s <= n < x * q + x
    ensures x + q >= 2 * s
  {
    ProductBelowSquare(x, q + 1, s);
    assert x * (q + 1) == x * q + x;
  }

  lemma StepDown(n: nat, x: nat, q: nat, s: nat)
    requires n < (s + 1) * (s + 1) && s < x && x * q <= n
    ensures q < x
  {
    SquareMonotone(s + 1, x);
    ScaleLe(x, x, q);
  }

  lemma StepAtRoot(n: nat, q: nat, s: nat)
    requires 0 < s && n < (s + 1) * (s + 1) && s * q <= n
    ensures q <= s + 2
  {
    ScaleLe(s, s + 3, q);
    assert (s + 1) * (s + 1) == s * s + 2 * s + 1 && s * (s + 3) == s * s + 3 * s;
  }

  /**
    * What `isqrt` returns. From 2^64 on its start value lies below the root, the first step already goes up,
    * and the start value plus one is returned; for the largest u128 the first step overflows.
    */
  function IsqrtResult(n: nat): Option<nat>
    requires n <= U128_MAX
  {
    if n <= U64_MAX then Some(Root(n))
    else if n == U128_MAX then None
    else Some(IsqrtStart(n) + 1)
  }

  /** `1 << (n.leading_zeros() / 2)` */
  function IsqrtStart(n: nat): (x: nat)
    requires n <= U128_MAX
    ensures x > 0
    ensures n <= U64_MAX ==> x >= Pow2(32)
    ensures n > U64_MAX ==> x <= Pow2(31)
    ensures x <= Pow2(64)
  {
    Pow2Limits();
    BitLengthBounds(n, 64, 64);
    BitLengthBounds(n, 0, 128);
    var half := (128 - BitLength(n)) / 2;
    Pow2Monotone(half, 64);
    Pow2Monotone(32, if half < 32 then 32 else half);
    Pow2Monotone(if half <= 31 then half else 31, 31);
    Pow2(half)
  }

  /** `isqrt` is the square root exactly below 2^64. */
  lemma IsqrtExactBelow(n: nat)
    requires n <= U128_MAX
    ensures IsqrtResult(n) == Some(Root(n)) <==> n < 0x1_0000_0000_0000_0000
  {
    Pow2Limits();
    RootAtLeast(n, 0x1_0000_0000);
  }

  lemma RootAtLeast(n: nat, b: nat)
    ensures b * b <= n ==> b <= Root(n)
  {
    SquareMonotone(Root(n) + 1, b);
  }

  /** `isqrt` */
  method Isqrt(n: nat) returns (r: Option<int>)
    requires n <= U128_MAX
    ensures r == IsqrtResult(n)
  {
    if n == 0 {
      RootUnique(0, 0);
      return Some(0);
    }
    if n == 1 {
      RootUnique(1, 1);
      return Some(1);
    }
    var x := IsqrtStart(n);
    Pow2Limits();
    StartAboveRoot(n);
    hide Root, Pow2, IsqrtStart, CheckedAdd, CheckedMul, CheckedDiv, IsqrtResult;
    ResultCases(n);
    while true
      invariant 0 < x <= U64_MAX + 1
      invariant if n <= U64_MAX then Root(n) <= x else x == IsqrtStart(n) <= 0x8000_0000
      decreases x
    {
      IsqrtStep(n, x);
      var quotient := CheckedDiv(n, x);
      if quotient.None? {
        return None;
      }
      var sum := CheckedAdd(x, quotient.value);
      if sum.None? {
        return None;
      }
      var next := sum.value / 2;
      if next >= x {
        StopFacts(n, x);
        var squared := CheckedMul(x, x);
        if squared.None? {
          return None;
        }
        if squared.value > n {
          return Some(x - 1);
        }
        var successor := CheckedAdd(x, 1);
        if successor.None? {
          return Some(x);
        }
        var successorSquared := CheckedMul(successor.value, successor.value);
        if successorSquared.None? {
          return Some(x);
        }
        if successorSquared.value <= n {
          return Some(successor.value);
        }
        return Some(x);
      }
      x := next;
    }
  }

  /** One round: overflow only for the largest u128, a strict descent while above the root, and no move below it. */
  lemma IsqrtStep(n: nat, x: nat)
    requires 1 < n <= U128_MAX && 0 < x <= U64_MAX + 1
    requires if n <= U64_MAX then Root(n) <= x else x <= 0x8000_0000
    ensures CheckedDiv(n, x).Some?
    ensures var sum := CheckedAdd(x, CheckedDiv(n, x).value);
            && (sum.None? <==> n == U128_MAX && x == 1)
            && (n > U64_MAX && sum.Some? ==> sum.value / 2 >= x)
            && (n <= U64_MAX ==> sum.value / 2 >= Root(n) > 0)
            && (n <= U64_MAX && sum.value / 2 >= x ==> x == Root(n))
  {
    SumFits(n, x);
    if n <= U64_MAX {
      NewtonStep(n, x);
      NewtonIs(n, x);
      RootPositive(n);
      hide Root, Newton;
    } else {
      StartTooLow(n, x);
    }
  }

  lemma ResultCases(n: nat)
    requires n <= U128_MAX
    ensures n <= U64_MAX ==> IsqrtResult(n) == Some(Root(n))
    ensures n == U128_MAX ==> IsqrtResult(n) == None
    ensures U64_MAX < n < U128_MAX ==> IsqrtResult(n) == Some(IsqrtStart(n) + 1)
  {
  }

  lemma RootPositive(n: nat)
    requires n > 0
    ensures Root(n) > 0
  {
  }

  /** Where the iteration stops: at the root, or at a start value far below it. */
  lemma StopFacts(n: nat, x: nat)
    requires 0 < x && (if n <= U64_MAX then x == Root(n) else x <= 0x8000_0000)
    ensures CheckedMul(x, x).Some? && CheckedMul(x, x).value <= n
    ensures CheckedAdd(x, 1) == Some(x + 1)
    ensures CheckedMul(x + 1, x + 1).Some? && (CheckedMul(x + 1, x + 1).value <= n <==> n > U64_MAX)
  {
    if n <= U64_MAX {
      RootBelow(n, 0x1_0000_0000);
    }
    SquareMonotone(x + 1, 0x1_0000_0000);
    SquareMonotone(x, 0x8000_0000);
    SquareMonotone(x + 1, 0x8000_0001);
  }

  lemma StartOfMax()
    ensures IsqrtStart(U128_MAX) == 1
  {
    hide Pow2, BitLength;
    Pow2Limits();
    Pow2Next(127);
    BitLengthBounds(U128_MAX, 127, 128);
    FirstPower();
  }

  lemma StartAboveRoot(n: nat)
    requires n <= U128_MAX
    ensures n <= U64_MAX ==> Root(n) <= IsqrtStart(n)
    ensures n > U64_MAX ==> IsqrtStart(n) <= 0x8000_0000
    ensures IsqrtStart(n) <= U64_MAX + 1
    ensures n == U128_MAX ==> IsqrtStart(n) == 1
  {
    hide Pow2, IsqrtStart, Root;
    Pow2Limits();
    if n == U128_MAX {
      StartOfMax();
    }
    if n <= U64_MAX {
      RootBelow(n, 0x1_0000_0000);
    }
  }

  lemma NewtonIs(n: nat, x: nat)
    requires x > 0
    ensures Newton(n, x) == (x + n / x) / 2
  {
  }

  lemma QuotientAtMost(n: nat, x: nat)
    requires x > 0
    ensures n / x <= n && (x >= 2 ==> n / x <= n / 2)
  {
    Divided(n, x);
    ScaleLe(n / x, 1, x);
    ScaleLe(n / x, 2, x);
  }

  lemma SumFits(n: nat, x: nat)
    requires 0 < x <= U64_MAX + 1 && n <= U128_MAX
    ensures x + n / x > U128_MAX <==> n == U128_MAX && x == 1
  {
    QuotientAtMost(n, x);
  }

  lemma StartTooLow(n: nat, x: nat)
    requires n > U64_MAX && 0 < x <= 0x8000_0000
    ensures (x + n / x) / 2 >= x
  {
    SquareMonotone(x, 0x8000_0000);
    Divided(n, x);
    ScaleLe(x, n / x + 1, x);
    assert x * (n / x + 1) == x * (n / x) + x;
  }
}
