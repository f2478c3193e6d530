// Fractional vault shares: fixed_point.rs and fractional_wrap.rs.

module Shares {
  import opened Common
  import opened Rounding

  const WRAP_MAX_AMOUNT: int := 10_000_000_000_000_000_000

  datatype ShareError = InvalidAmount | AmountExceedsLimit | ZeroSharesMinted | InsufficientShareBalance | Overflow

  /** `convert_to_shares_round_down`, `preview_wrap`; `None` on overflow. The offset denominator is at least one. */
  function ToShares(assets: int, totalShares: nat, totalAssets: nat): Option<int> {
    if totalShares + 1 > I128_MAX || totalAssets + 1 > I128_MAX || !FitsI128(assets * (totalShares + 1)) then None
    else Some(TruncDiv(assets * (totalShares + 1), totalAssets + 1))
  }

  /** `convert_to_assets_round_up`, `preview_unwrap`; `None` on overflow. */
  function ToAssets(shares: int, totalShares: nat, totalAssets: nat): Option<int> {
    if totalShares + 1 > I128_MAX || totalAssets + 1 > I128_MAX || !FitsI128(shares * (totalAssets + 1)) then None
    else CappedCeiling(shares * (totalAssets + 1), totalShares + 1, totalAssets)
  }

  function CappedCeiling(numerator: int, denominator: nat, cap: nat): Option<int>
    requires denominator > 0
  {
    var quotient := TruncDiv(numerator, denominator);
    var rounded := if TruncRem(numerator, denominator) != 0 then quotient + 1 else quotient;
    if rounded > I128_MAX then None
    else Some(if rounded < cap then rounded else cap)
  }

  /** Minting rounds down. */
  lemma ToSharesBounds(assets: nat, totalShares: nat, totalAssets: nat)
    requires ToShares(assets, totalShares, totalAssets).Some?
    ensures var minted := ToShares(assets, totalShares, totalAssets).value;
            && minted >= 0
            && minted * (totalAssets + 1) <= assets * (totalShares + 1) < (minted + 1) * (totalAssets + 1)
  {
    var minted := ToShares(assets, totalShares, totalAssets).value;
    TruncFacts(assets * (totalShares + 1), totalAssets + 1);
    assert (minted + 1) * (totalAssets + 1) == minted * (totalAssets + 1) + (totalAssets + 1);
  }

  /** Burning rounds up, and never pays more than the pool holds. */
  lemma ToAssetsBounds(shares: nat, totalShares: nat, totalAssets: nat)
    requires ToAssets(shares, totalShares, totalAssets).Some?
    ensures var paid := ToAssets(shares, totalShares, totalAssets).value;
            && 0 <= paid <= totalAssets
            && paid * (totalShares + 1) < shares * (totalAssets + 1) + (totalShares + 1)
            && (paid * (totalShares + 1) >= shares * (totalAssets + 1) || paid == totalAssets)
  {
    hide CappedCeiling;
    NumeratorNatural(shares, totalAssets + 1);
    CappedCeilingBounds(shares * (totalAssets + 1), totalShares + 1, totalAssets);
  }

  lemma NumeratorNatural(a: nat, b: nat)
    ensures a * b >= 0
  {
  }

  lemma CappedCeilingBounds(n: nat, d: nat, cap: nat)
    requires d > 0 && CappedCeiling(n, d, cap).Some?
    ensures var paid := CappedCeiling(n, d, cap).value;
            0 <= paid <= cap && paid * d < n + d && (paid * d >= n || paid == cap)
  {
    TruncFacts(n, d);
    QuotientNatural(n, d);
    var q, r, paid := TruncDiv(n, d), TruncRem(n, d), CappedCeiling(n, d, cap).value;
    hide TruncDiv, TruncRem;
    var rounded := if r != 0 then q + 1 else q;
    assert (q + 1) * d == q * d + d && d * q == q * d;
    Scaled(paid, rounded, d);
  }

  lemma QuotientNatural(n: nat, d: nat)
    requires d > 0
    ensures TruncDiv(n, d) >= 0
  {
  }

  // --- Operations -------------------------------------------------------------------------------------

  datatype WrapResult = WrapResult(sharesMinted: int, totalShares: int, totalAssets: int, callerShares: int)

  datatype UnwrapResult = UnwrapResult(assetsReturned: int, totalShares: int, totalAssets: int, callerShares: int)

  /** `compute_wrap` */
  function ComputeWrap(assets: int, totalShares: int, totalAssets: int,
                       callerShares: int): Result<WrapResult, ShareError> {
    if assets <= 0 then Err(InvalidAmount)
    else if assets > WRAP_MAX_AMOUNT then Err(AmountExceedsLimit)
    else if totalShares < 0 || totalAssets < 0 || callerShares < 0 then Err(InvalidAmount)
    else
      var minted := ToShares(assets, totalShares, totalAssets);
      if minted.None? then Err(Overflow)
      else if minted.value == 0 then Err(ZeroSharesMinted)
      else if totalShares + minted.value > I128_MAX || totalAssets + assets > I128_MAX
          || callerShares + minted.value > I128_MAX
        then Err(Overflow)
      else Ok(WrapResult(minted.value, totalShares + minted.value, totalAssets + assets, callerShares + minted.value))
  }

  /** `compute_unwrap` */
  function ComputeUnwrap(shares: int, totalShares: int, totalAssets: int,
                         callerShares: int): Result<UnwrapResult, ShareError> {
    if shares <= 0 then Err(InvalidAmount)
    else if shares > callerShares then Err(InsufficientShareBalance)
    else if totalShares < 0 || totalAssets < 0 then Err(InvalidAmount)
    else
      var paid := ToAssets(shares, totalShares, totalAssets);
      if paid.None? then Err(Overflow)
      else if !FitsI128(totalShares - shares) || !FitsI128(totalAssets - paid.value) || !FitsI128(callerShares - shares)
        then Err(Overflow)
      else Ok(UnwrapResult(paid.value, totalShares - shares, totalAssets - paid.value, callerShares - shares))
  }

  /** The offset conversion of `amount` at the given rate stays within range. */
  predicate Convertible(amount: int, totalShares: int, totalAssets: int, rate: int) {
    totalShares < I128_MAX && totalAssets < I128_MAX && amount * (rate + 1) <= I128_MAX
  }

  /** What a wrap comes to: the books of an accepted one, or the error. */
  lemma WrapOutcome(assets: int, totalShares: int, totalAssets: int, callerShares: int)
    ensures var r := ComputeWrap(assets, totalShares, totalAssets, callerShares);
            var negative := totalShares < 0 || totalAssets < 0 || callerShares < 0;
            var limit := 10_000_000_000_000_000_000;
            var valid := 0 < assets <= limit && !negative;
            && (r == Err(AmountExceedsLimit) <==> assets > limit)
            && (r == Err(InvalidAmount) <==> assets <= 0 || (assets <= limit && negative))
            && (r == Err(ZeroSharesMinted) <==>
                  valid && Convertible(assets, totalShares, totalAssets, totalShares)
                      && assets * (totalShares + 1) <= totalAssets)
            && (r.Ok? ==>
                  && valid && Convertible(assets, totalShares, totalAssets, totalShares) && r.value.sharesMinted > 0
                  && r.value.totalShares == totalShares + r.value.sharesMinted <= I128_MAX
                  && r.value.totalAssets == totalAssets + assets <= I128_MAX
                  && r.value.callerShares == callerShares + r.value.sharesMinted <= I128_MAX)
  {
    if 0 < assets && totalShares >= 0 && totalAssets >= 0 {
      NumeratorNatural(assets, totalShares + 1);
      if ToShares(assets, totalShares, totalAssets).Some? {
        ToSharesBounds(assets, totalShares, totalAssets);
        MintsNothing(assets * (totalShares + 1), totalAssets + 1, ToShares(assets, totalShares, totalAssets).value);
      }
      hide ToShares, TruncDiv;
      ConvertibleShares(assets, totalShares, totalAssets);
    }
  }

  /** A valid wrap that mints something is accepted when the new books are within range. */
  lemma WrapAccepted(assets: int, totalShares: nat, totalAssets: nat, callerShares: nat, minted: nat)
    requires 0 < assets <= WRAP_MAX_AMOUNT && Convertible(assets, totalShares, totalAssets, totalShares)
    requires minted > 0 && minted * (totalAssets + 1) <= assets * (totalShares + 1) < (minted + 1) * (totalAssets + 1)
    requires totalShares + minted <= I128_MAX && totalAssets + assets <= I128_MAX && callerShares + minted <= I128_MAX
    ensures ComputeWrap(assets, totalShares, totalAssets, callerShares).Ok?
    ensures ComputeWrap(assets, totalShares, totalAssets, callerShares).value.sharesMinted == minted
  {
    ConvertibleShares(assets, totalShares, totalAssets);
    ToSharesBounds(assets, totalShares, totalAssets);
    var m := ToShares(assets, totalShares, totalAssets).value;
    hide ToShares;
    SameSlot(totalAssets + 1, m, minted);
    SameSlot(totalAssets + 1, minted, m);
  }

  lemma ConvertibleShares(assets: nat, totalShares: nat, totalAssets: nat)
    ensures ToShares(assets, totalShares, totalAssets).Some? <==>
        Convertible(assets, totalShares, totalAssets, totalShares)
  {
    NumeratorNatural(assets, totalShares + 1);
  }

  lemma MintsNothing(n: nat, d: nat, minted: nat)
    requires minted * d <= n < (minted + 1) * d
    ensures minted == 0 <==> n < d
  {
    if minted > 0 {
      Scaled(1, minted, d);
    }
  }

  /** What an unwrap comes to: the books of an accepted one, or the error. */
  lemma UnwrapOutcome(shares: int, totalShares: int, totalAssets: int, callerShares: int)
    ensures var r := ComputeUnwrap(shares, totalShares, totalAssets, callerShares);
            var negative := totalShares < 0 || totalAssets < 0;
            && (r == Err(InvalidAmount) <==> shares <= 0 || (shares <= callerShares && negative))
            && (r == Err(InsufficientShareBalance) <==> 0 < shares && callerShares < shares)
            && (r.Ok? ==>
                  && 0 < shares <= callerShares && !negative
                      && Convertible(shares, totalShares, totalAssets, totalAssets)
                  && r.value.totalShares == totalShares - shares && r.value.callerShares == callerShares - shares
                  && r.value.totalAssets == totalAssets - r.value.assetsReturned >= 0)
  {
    if 0 < shares && totalShares >= 0 && totalAssets >= 0 {
      ConvertibleAssets(shares, totalShares, totalAssets);
      if ToAssets(shares, totalShares, totalAssets).Some? {
        ToAssetsBounds(shares, totalShares, totalAssets);
      }
      hide ToAssets;
    }
  }

  /** A valid unwrap within range is accepted. */
  lemma UnwrapAccepted(shares: int, totalShares: nat, totalAssets: nat, callerShares: int)
    requires 0 < shares <= callerShares <= I128_MAX && Convertible(shares, totalShares, totalAssets, totalAssets)
    ensures ComputeUnwrap(shares, totalShares, totalAssets, callerShares).Ok?
  {
    ConvertibleAssets(shares, totalShares, totalAssets);
    ToAssetsBounds(shares, totalShares, totalAssets);
    Scaled(1, totalAssets + 1, shares);
    hide ToAssets;
  }

  lemma ConvertibleAssets(shares: nat, totalShares: nat, totalAssets: nat)
    ensures ToAssets(shares, totalShares, totalAssets).Some? <==>
        Convertible(shares, totalShares, totalAssets, totalAssets)
  {
    NumeratorNatural(shares, totalAssets + 1);
    TruncFacts(shares * (totalAssets + 1), totalShares + 1);
    if shares * (totalAssets + 1) <= I128_MAX {
      CeilingFits(shares * (totalAssets + 1), totalShares + 1, totalAssets);
    }
    hide CappedCeiling;
  }

  /** Rounding up a quotient stays within the range of its numerator. */
  lemma CeilingFits(n: nat, d: nat, cap: nat)
    requires d > 0 && n <= I128_MAX
    ensures CappedCeiling(n, d, cap).Some?
  {
    TruncFacts(n, d);
    QuotientNatural(n, d);
    var q, r := TruncDiv(n, d), TruncRem(n, d);
    hide TruncDiv, TruncRem;
    if d == 1 {
      assert r == 0 && q == n;
    } else {
      Scaled(2, d, q);
    }
  }

  /** A wrap never lowers the assets per share, virtual share and virtual asset included. */
  lemma WrapKeepsPrice(assets: int, totalShares: nat, totalAssets: nat, callerShares: int)
    requires ComputeWrap(assets, totalShares, totalAssets, callerShares).Ok?
    ensures var w := ComputeWrap(assets, totalShares, totalAssets, callerShares).value;
            (w.totalAssets + 1) * (totalShares + 1) >= (totalAssets + 1) * (w.totalShares + 1)
  {
    ToSharesBounds(assets, totalShares, totalAssets);
    var m := ToShares(assets, totalShares, totalAssets).value;
    hide ToShares;
    assert (totalAssets + assets + 1) * (totalShares + 1)
        == (totalAssets + 1) * (totalShares + 1) + assets * (totalShares + 1);
    assert (totalAssets + 1) * (totalShares + m + 1) == (totalAssets + 1) * (totalShares + 1) + m * (totalAssets + 1);
  }

  lemma RoundTripArithmetic(assets: nat, s: nat, t: nat, minted: nat, shares: nat, paid: nat)
    requires minted * (t + 1) <= assets * (s + 1) && shares <= minted
    requires paid * (s + minted + 1) < shares * (t + assets + 1) + (s + minted + 1)
    ensures paid <= assets
  {
    Scaled(shares, minted, t + assets + 1);
    assert minted * (t + assets + 1) == minted * (t + 1) + minted * assets;
    assert assets * (s + minted + 1) == assets * (s + 1) + assets * minted;
    SameSlot(s + minted + 1, paid, assets);
  }

  /** From any pool, unwrapping some or all of the shares a wrap has just minted returns at most what was wrapped. */
  lemma WrapThenUnwrapNeverProfits(assets: int, totalShares: int, totalAssets: int, callerShares: int, shares: int)
    requires ComputeWrap(assets, totalShares, totalAssets, callerShares).Ok?
    requires var w := ComputeWrap(assets, totalShares, totalAssets, callerShares).value;
             shares <= w.sharesMinted && ComputeUnwrap(shares, w.totalShares, w.totalAssets, w.callerShares).Ok?
    ensures var w := ComputeWrap(assets, totalShares, totalAssets, callerShares).value;
            ComputeUnwrap(shares, w.totalShares, w.totalAssets, w.callerShares).value.assetsReturned <= assets
  {
    var w := ComputeWrap(assets, totalShares, totalAssets, callerShares).value;
    ToSharesBounds(assets, totalShares, totalAssets);
    ToAssetsBounds(shares, w.totalShares, w.totalAssets);
    var paid := ToAssets(shares, w.totalShares, w.totalAssets).value;
    hide ToShares, ToAssets;
    RoundTripArithmetic(assets, totalShares, totalAssets, w.sharesMinted, shares, paid);
  }

  /**
    * Rounding the payout of a burn up favours the burner: an unwrap keeps the assets per share exactly when the
    * division is exact or the exact payout already reaches the whole pool, where the cap applies.
    */
  lemma UnwrapKeepsPriceIffExact(shares: int, totalShares: nat, totalAssets: nat, callerShares: int)
    requires ComputeUnwrap(shares, totalShares, totalAssets, callerShares).Ok?
    ensures var u := ComputeUnwrap(shares, totalShares, totalAssets, callerShares).value;
            var kept := (u.totalAssets + 1) * (totalShares + 1) >= (totalAssets + 1) * (u.totalShares + 1);
            var exact := (shares * (totalAssets + 1)) % (totalShares + 1) == 0;
            var capped := shares * (totalAssets + 1) >= totalAssets * (totalShares + 1);
            kept <==> exact || capped
  {
    ToAssetsBounds(shares, totalShares, totalAssets);
    ToAssetsExact(shares, totalShares, totalAssets);
    var paid := ToAssets(shares, totalShares, totalAssets).value;
    hide ToAssets;
    PriceAfterUnwrap(shares, paid, totalShares, totalAssets);
  }

  /** The payout is covered by the exact conversion exactly when nothing was rounded up. */
  lemma ToAssetsExact(shares: nat, totalShares: nat, totalAssets: nat)
    requires ToAssets(shares, totalShares, totalAssets).Some?
    ensures var paid := ToAssets(shares, totalShares, totalAssets).value;
            var n, d := shares * (totalAssets + 1), totalShares + 1;
            paid * d <= n <==> n % d == 0 || n >= totalAssets * d
  {
    NumeratorNatural(shares, totalAssets + 1);
    ToAssetsBounds(shares, totalShares, totalAssets);
    var n, d, paid := shares * (totalAssets + 1), totalShares + 1, ToAssets(shares, totalShares, totalAssets).value;
    CappedExact(n, d, totalAssets, paid);
  }

  lemma CappedExact(n: nat, d: nat, cap: nat, paid: nat)
    requires d > 0 && CappedCeiling(n, d, cap) == Some(paid)
    ensures paid * d <= n <==> n % d == 0 || n >= cap * d
  {
    TruncFacts(n, d);
    EuclidDivision(n, d);
    CappedExactArithmetic(n, d, cap, paid, n / d, n % d);
  }

  lemma CappedExactArithmetic(n: nat, d: nat, cap: nat, paid: nat, q: nat, r: nat)
    requires d > 0 && n == d * q + r && r < d
    requires var rounded := if r != 0 then q + 1 else q; paid == if rounded < cap then rounded else cap
    ensures paid * d <= n <==> r == 0 || n >= cap * d
  {
    assert d * q == q * d && (q + 1) * d == q * d + d;
    Scaled(cap, q, d);
    Scaled(q + 1, cap, d);
  }

  lemma PriceAfterUnwrap(shares: nat, paid: nat, s: nat, t: nat)
    ensures (t - paid + 1) * (s + 1) >= (t + 1) * (s - shares + 1) <==> paid * (s + 1) <= shares * (t + 1)
  {
    assert (t - paid + 1) * (s + 1) == (t + 1) * (s + 1) - paid * (s + 1);
    assert (t + 1) * (s - shares + 1) == (t + 1) * (s + 1) - shares * (t + 1);
  }

  /** A burn that is paid more than its exact share of the pool. */
  lemma BurnRoundsAgainstThePool()
    ensures ComputeUnwrap(1, 2, 3, 1) == Ok(UnwrapResult(2, 1, 1, 0))
    ensures (1 + 1) * (2 + 1) < (3 + 1) * (1 + 1)
  {
  }

  lemma CeilingStep(weight: nat, assets: nat, total: nat, paid: nat, sum: nat, seen: nat, count: nat)
    requires paid * total <= weight * assets + (total - 1) && sum * total <= seen * assets + count * (total - 1)
        && total > 0
    ensures (sum + paid) * total <= (seen + weight) * assets + (count + 1) * (total - 1)
  {
    assert (sum + paid) * total == sum * total + paid * total;
    assert (seen + weight) * assets == seen * assets + weight * assets;
    assert (count + 1) * (total - 1) == count * (total - 1) + (total - 1);
  }

  lemma {:induction false} PreviewsPartial(holdings: seq<int>, previews: seq<int>, totalShares: nat, totalAssets: nat)
    requires |previews| == |holdings|
    requires forall i :: 0 <= i < |holdings| ==>
        holdings[i] >= 0 && ToAssets(holdings[i], totalShares, totalAssets) == Some(previews[i])
    ensures Total(holdings) >= 0 && Total(previews) >= 0
    ensures Total(previews) * (totalShares + 1) <= Total(holdings) * (totalAssets + 1) + |previews| * totalShares
  {
    if holdings != [] {
      var k := |holdings| - 1;
      PreviewsPartial(holdings[..k], previews[..k], totalShares, totalAssets);
      ToAssetsBounds(holdings[k], totalShares, totalAssets);
      hide ToAssets;
      CeilingStep(holdings[k], totalAssets + 1, totalShares + 1, previews[k], Total(previews[..k]),
                  Total(holdings[..k]), k);
    }
  }

  lemma PreviewsArithmetic(sum: nat, held: nat, totalShares: nat, totalAssets: nat, count: nat)
    requires held <= totalShares && sum * (totalShares + 1) <= held * (totalAssets + 1) + count * totalShares
    ensures sum <= totalAssets + count
  {
    Scaled(held, totalShares, totalAssets + 1);
    assert totalShares * (totalAssets + 1) + count * totalShares < (totalAssets + count + 1) * (totalShares + 1) by {
      assert (totalAssets + count + 1) * (totalShares + 1) ==
             totalShares * (totalAssets + 1) + count * totalShares + totalAssets + 1 + count;
    }
    assert (totalAssets + count + 1) * (totalShares + 1)
        == (totalAssets + count) * (totalShares + 1) + (totalShares + 1);
    SameSlot(totalShares + 1, sum, totalAssets + count);
  }

  /** What all holders are quoted at the same time exceeds the pool by at most one unit each. */
  lemma PreviewsNearPool(holdings: seq<int>, previews: seq<int>, totalShares: nat, totalAssets: nat)
    requires |previews| == |holdings| && Total(holdings) <= totalShares
    requires forall i :: 0 <= i < |holdings| ==>
        holdings[i] >= 0 && ToAssets(holdings[i], totalShares, totalAssets) == Some(previews[i])
    ensures Total(previews) <= totalAssets + |previews|
  {
    PreviewsPartial(holdings, previews, totalShares, totalAssets);
    PreviewsArithmetic(Total(previews), Total(holdings), totalShares, totalAssets, |previews|);
  }

  /** `proportional_share`: `None` for shares out of range; the multiplication may overflow. */
  function ProportionalShare(shares: int, totalShares: int, totalAssets: int): Result<Option<int>, RoundingError> {
    if totalShares <= 0 || shares < 0 || totalAssets < 0 || shares > totalShares then Ok(None)
    else
      var r := SafeMulDiv(totalAssets, shares, totalShares, Floor);
      if r.Ok? then Ok(Some(r.value)) else Err(r.error)
  }

  /** Proportional shares of holdings within the total add up to at most the assets. */
  lemma ProportionalSharesWithinAssets(holdings: seq<int>, parts: seq<int>, totalShares: int, totalAssets: int)
    requires FitsI128(totalShares) && |parts| == |holdings| && Total(holdings) <= totalShares
    requires forall i :: 0 <= i < |holdings| ==>
        ProportionalShare(holdings[i], totalShares, totalAssets) == Ok(Some(parts[i]))
    requires totalAssets >= 0
    ensures 0 <= Total(parts) <= totalAssets
  {
    if |holdings| > 0 {
      forall i | 0 <= i < |holdings|
        ensures holdings[i] >= 0 && parts[i] >= 0 && IsFloor(totalAssets * holdings[i], totalShares, parts[i])
      {
        PartIsFloor(holdings[i], totalShares, totalAssets, parts[i]);
      }
      assert totalShares > 0 by { assert ProportionalShare(holdings[0], totalShares, totalAssets).value.Some?; }
      FloorsBelow(totalAssets, holdings, parts, totalShares);
      Scaled(Total(holdings), totalShares, totalAssets);
      SameSlot(totalShares, Total(parts), totalAssets);
    }
  }

  lemma PartIsFloor(shares: int, totalShares: int, totalAssets: int, part: int)
    requires FitsI128(totalShares) && ProportionalShare(shares, totalShares, totalAssets) == Ok(Some(part))
    ensures totalShares > 0 && shares >= 0 && totalAssets >= 0
    ensures part >= 0 && IsFloor(totalAssets * shares, totalShares, part)
  {
    SafeDivRounds(totalAssets * shares, totalShares, Floor);
    hide SafeDiv;
    assert totalAssets * shares >= 0;
    SameSlot(totalShares, 0, part);
  }

  // --- Vaults fed by deposits only ----------------------------------------------------------------------

  /** While shares and assets agree, conversion is one to one. */
  lemma OneToOne(amount: nat, total: nat)
    ensures ToShares(amount, total, total).Some? <==> total < I128_MAX && amount * (total + 1) <= I128_MAX
    ensures ToShares(amount, total, total).Some? ==> ToShares(amount, total, total).value == amount
    ensures amount <= total ==>
        (ToAssets(amount, total, total).Some? <==> total < I128_MAX && amount * (total + 1) <= I128_MAX)
    ensures amount <= total && ToAssets(amount, total, total).Some? ==> ToAssets(amount, total, total).value == amount
  {
    Multiple(amount, total + 1);
  }

  lemma Multiple(amount: nat, d: nat)
    requires d > 0
    ensures amount * d >= 0 && TruncDiv(amount * d, d) == amount && TruncRem(amount * d, d) == 0
    ensures amount * d <= I128_MAX ==> amount <= I128_MAX
  {
    TruncFacts(amount * d, d);
    var q, r := TruncDiv(amount * d, d), TruncRem(amount * d, d);
    assert d * amount == amount * d && d * q == q * d;
    assert q * d <= amount * d < q * d + d;
    SameSlot(d, q, amount);
    SameSlot(d, amount, q);
    Scaled(1, d, amount);
  }
}
