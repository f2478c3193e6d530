// The price history a TWAP feed has accepted, and what is true of every such history (twap_oracle.rs).

module PriceHistory {
  import opened Common

  datatype Observation = Observation(timestamp: nat, ledger: nat, price: int, cumulative: int)

  datatype Config = Config(capacity: nat, maxStaleness: nat, maxDeviationBps: nat, minInterval: nat,
                           flashBps: nat, flashWindow: nat)

  datatype Status = Active | CircuitBroken

  datatype TwapError =
    | AlreadyInitialized | NotInitialized | InvalidCapacity | InvalidPrice | InvalidTimeDelta | StalePriceData
    | PriceDeviationExceeded | Tripped | InsufficientObservations | InvalidWindow | FlashVolatility
    | ConversionsFrozen | InvalidCircuitParams
    | Overflow  // an unchecked machine operation leaves its range and the call aborts

  type History = seq<Observation>

  function Last(h: History): Observation
    requires h != []
  {
    h[|h| - 1]
  }

  /** Index of the oldest observation still in a ring of the given capacity. */
  function Oldest(h: History, capacity: nat): (i: nat)
    ensures i <= |h|
  {
    if |h| <= capacity then 0 else |h| - capacity
  }

  function SaturatingMul(a: nat, b: nat): int {
    if a * b > I128_MAX then I128_MAX else a * b
  }

  /** `deviation_bps`: the change relative to the old price, in basis points rounded down. */
  function DeviationBps(newPrice: int, oldPrice: int): int {
    if oldPrice <= 0 then I128_MAX
    else
      var diff := if newPrice > oldPrice then newPrice - oldPrice else oldPrice - newPrice;
      SaturatingMul(diff, 10_000) / oldPrice
  }

  function SaturatingSub(a: nat, b: nat): nat {
    if a < b then 0 else a - b
  }

  /** `flash_volatility_triggered`: scans indices `i - 1` down to `lo`, stopping at the first one that is too old. */
  predicate FlashScan(h: History, lo: nat, i: nat, windowStart: nat, price: int, bps: nat)
    requires lo <= i <= |h|
  {
    i > lo && h[i - 1].ledger >= windowStart
      && (DeviationBps(price, h[i - 1].price) > bps || FlashScan(h, lo, i - 1, windowStart, price, bps))
  }

  predicate FlashTriggered(c: Config, h: History, price: int, ledger: nat) {
    c.flashBps != 0 && FlashScan(h, Oldest(h, c.capacity), |h|, SaturatingSub(ledger, c.flashWindow), price, c.flashBps)
  }

  /** `update_price` on an initialised feed: the observation to append, or the reason to refuse. */
  function Admit(c: Config, status: Status, h: History, price: int, now: nat,
                 ledger: nat): Result<Observation, TwapError> {
    if price <= 0 then Err(InvalidPrice)
    else if status == CircuitBroken then Err(Tripped)
    else if h == [] then Ok(Observation(now, ledger, price, 0))
    else
      var last := Last(h);
      if now <= last.timestamp then Err(InvalidTimeDelta)
      else if now - last.timestamp < c.minInterval then Err(InvalidTimeDelta)
      else if c.maxDeviationBps > 0 && DeviationBps(price, last.price) > c.maxDeviationBps
          then Err(PriceDeviationExceeded)
      else if FlashTriggered(c, h, price, ledger) then Err(FlashVolatility)
      else
        var tick := last.price * (now - last.timestamp);
        if !FitsI128(tick) || !FitsI128(last.cumulative + tick) then Err(InvalidPrice)
        else Ok(Observation(now, ledger, price, last.cumulative + tick))
  }

  /** A history every entry of which was admitted after the entries before it. */
  ghost predicate Accepted(c: Config, h: History) {
    forall j :: 0 <= j < |h| ==> Admit(c, Active, h[..j], h[j].price, h[j].timestamp, h[j].ledger) == Ok(h[j])
  }

  lemma AcceptedExtends(c: Config, h: History, obs: Observation)
    requires Accepted(c, h) && Admit(c, Active, h, obs.price, obs.timestamp, obs.ledger) == Ok(obs)
    ensures Accepted(c, h + [obs])
  {
    hide Admit;
    forall j | 0 <= j <= |h|
      ensures Admit(c, Active, (h + [obs])[..j], (h + [obs])[j].price, (h + [obs])[j].timestamp, (h + [obs])[j].ledger)
           == Ok((h + [obs])[j])
    {
      if j < |h| {
        assert (h + [obs])[..j] == h[..j];
      } else {
        assert (h + [obs])[..j] == h;
      }
    }
  }

  // --- Timestamps and cumulative sums --------------------------------------------------------------

  lemma Neighbours(c: Config, h: History, j: nat)
    requires Accepted(c, h) && 0 < j < |h|
    ensures h[j - 1].timestamp < h[j].timestamp
    ensures h[j].cumulative == h[j - 1].cumulative + h[j - 1].price * (h[j].timestamp - h[j - 1].timestamp)
  {
    hide FlashTriggered, DeviationBps;
    assert Last(h[..j]) == h[j - 1];
    assert Admit(c, Active, h[..j], h[j].price, h[j].timestamp, h[j].ledger) == Ok(h[j]);
  }

  /** Timestamps strictly increase along an accepted history. */
  lemma {:induction false} TimestampsIncrease(c: Config, h: History, i: nat, j: nat)
    requires Accepted(c, h) && i < j < |h|
    ensures h[i].timestamp < h[j].timestamp
  {
    hide Admit;
    Neighbours(c, h, j);
    if i < j - 1 {
      TimestampsIncrease(c, h, i, j - 1);
    }
  }

  /** The exact integral of the price step function from observation `k` to time `now`. */
  function Area(h: History, k: nat, now: nat): int
    requires k < |h|
    decreases |h| - k
  {
    if k == |h| - 1 then h[k].price * (now - h[k].timestamp)
    else h[k].price * (h[k + 1].timestamp - h[k].timestamp) + Area(h, k + 1, now)
  }

  /** The running sum of the newest observation, continued to `now`, differs from an older one by that integral. */
  lemma {:induction false} CumulativeIsArea(c: Config, h: History, k: nat, now: nat)
    requires Accepted(c, h) && k < |h|
    ensures Last(h).cumulative + Last(h).price * (now - Last(h).timestamp) - h[k].cumulative == Area(h, k, now)
    decreases |h| - k
  {
    hide Admit;
    if k < |h| - 1 {
      Neighbours(c, h, k + 1);
      CumulativeIsArea(c, h, k + 1, now);
    }
  }

  lemma ScaleBounds(lo: int, p: int, hi: int, t: int)
    requires lo <= p <= hi && 0 <= t
    ensures lo * t <= p * t <= hi * t
  {
  }

  lemma SplitTime(x: int, a: int, b: int, c: int)
    ensures x * (b - a) + x * (c - b) == x * (c - a)
  {
  }

  /** Prices between `lo` and `hi` keep the integral between `lo` and `hi` times the elapsed time. */
  lemma {:induction false} AreaBounds(c: Config, h: History, k: nat, now: nat, lo: int, hi: int)
    requires Accepted(c, h) && k < |h| && Last(h).timestamp <= now
    requires forall i :: k <= i < |h| ==> lo <= h[i].price <= hi
    ensures lo * (now - h[k].timestamp) <= Area(h, k, now) <= hi * (now - h[k].timestamp)
    decreases |h| - k
  {
    hide Admit;
    if k < |h| - 1 {
      Neighbours(c, h, k + 1);
      AreaBounds(c, h, k + 1, now, lo, hi);
      ScaleBounds(lo, h[k].price, hi, h[k + 1].timestamp - h[k].timestamp);
      SplitTime(lo, h[k].timestamp, h[k + 1].timestamp, now);
      SplitTime(hi, h[k].timestamp, h[k + 1].timestamp, now);
    } else {
      ScaleBounds(lo, h[k].price, hi, now - h[k].timestamp);
    }
  }

  // --- The time-weighted average ---------------------------------------------------------------------

  /** Newest index in `lo ..= i` whose timestamp is at most `target`; `lo` when there is none. */
  function StartIndex(h: History, lo: nat, i: nat, target: nat): (k: nat)
    requires lo <= i < |h|
    ensures lo <= k <= i && (h[k].timestamp <= target || k == lo)
    ensures forall j :: k < j <= i ==> h[j].timestamp > target
  {
    if h[i].timestamp <= target || i == lo then i else StartIndex(h, lo, i - 1, target)
  }

  /** `get_twap` on an initialised feed. */
  function Twap(c: Config, status: Status, h: History, window: nat, now: nat): Result<int, TwapError> {
    if window == 0 then Err(InvalidWindow)
    else if status != Active then Err(ConversionsFrozen)
    else if |h| - Oldest(h, c.capacity) < 2 then Err(InsufficientObservations)
    else
      var newest := Last(h);
      if SaturatingSub(now, newest.timestamp) > c.maxStaleness then Err(StalePriceData)
      else
        var start := h[StartIndex(h, Oldest(h, c.capacity), |h| - 1, SaturatingSub(newest.timestamp, window))];
        if now < newest.timestamp then Err(Overflow)
        else
          var tail := newest.price * (now - newest.timestamp);
          if !FitsI128(tail) || !FitsI128(newest.cumulative + tail) then Err(Overflow)
          else if now - start.timestamp == 0 then Err(InvalidTimeDelta)
          else
            var delta := newest.cumulative + tail - start.cumulative;
            if !FitsI128(delta) then Err(Overflow) else Ok(delta / (now - start.timestamp))
  }

  /** The start of the averaging interval lies strictly before the newest observation. */
  lemma StartsEarlier(c: Config, h: History, window: nat)
    requires Accepted(c, h) && window > 0 && |h| - Oldest(h, c.capacity) >= 2
    ensures var k := StartIndex(h, Oldest(h, c.capacity), |h| - 1, SaturatingSub(Last(h).timestamp, window));
            k < |h| - 1 && h[k].timestamp < Last(h).timestamp
  {
    hide Admit;
    var k := StartIndex(h, Oldest(h, c.capacity), |h| - 1, SaturatingSub(Last(h).timestamp, window));
    TimestampsIncrease(c, h, 0, |h| - 1);
    if k < |h| - 1 {
      TimestampsIncrease(c, h, k, |h| - 1);
    }
  }

  /** `r` is the floor of `area / elapsed`. */
  predicate IsFloor(r: int, area: int, elapsed: int) {
    r * elapsed <= area < (r + 1) * elapsed
  }

  lemma DivisionIsFloor(area: int, elapsed: int)
    requires elapsed > 0
    ensures IsFloor(area / elapsed, area, elapsed)
  {
    var q := area / elapsed;
    assert area == elapsed * q + area % elapsed;
    assert elapsed * q == q * elapsed && (q + 1) * elapsed == q * elapsed + elapsed;
  }

  lemma FloorBetween(r: int, area: int, elapsed: int, lo: int, hi: int)
    requires elapsed > 0 && IsFloor(r, area, elapsed) && lo * elapsed <= area <= hi * elapsed
    ensures lo <= r <= hi
  {
    assert (hi + 1) * elapsed == hi * elapsed + elapsed;
    if r < lo {
      ScaleBounds(r + 1, r + 1, lo, elapsed);
    }
    if r > hi {
      ScaleBounds(hi + 1, hi + 1, r, elapsed);
    }
  }

  /**
   * On every accepted history `get_twap` never reports a zero interval, and what it returns is the
   * floor of the exact time-weighted average over its interval, which starts no later than the window
   * does or at the oldest buffered observation, and lies between the extreme prices in it.
   */
  lemma TwapIsExactAverage(c: Config, status: Status, h: History, window: nat, now: nat, lo: int, hi: int)
    requires Accepted(c, h) && window > 0 && |h| - Oldest(h, c.capacity) >= 2
    requires var k := StartIndex(h, Oldest(h, c.capacity), |h| - 1, SaturatingSub(Last(h).timestamp, window));
             forall i :: k <= i < |h| ==> lo <= h[i].price <= hi
    ensures Twap(c, status, h, window, now) != Err(InvalidTimeDelta)
    ensures var k := StartIndex(h, Oldest(h, c.capacity), |h| - 1, SaturatingSub(Last(h).timestamp, window));
            Twap(c, status, h, window, now).Ok? ==>
              && var r := Twap(c, status, h, window, now).value;
              && IsFloor(r, Area(h, k, now), now - h[k].timestamp)
              && lo <= r <= hi
              && (k == Oldest(h, c.capacity) || h[k].timestamp <= SaturatingSub(Last(h).timestamp, window))
  {
    hide Admit, IsFloor, Area;
    var k := StartIndex(h, Oldest(h, c.capacity), |h| - 1, SaturatingSub(Last(h).timestamp, window));
    StartsEarlier(c, h, window);
    if Twap(c, status, h, window, now).Ok? {
      CumulativeIsArea(c, h, k, now);
      AreaBounds(c, h, k, now, lo, hi);
      DivisionIsFloor(Area(h, k, now), now - h[k].timestamp);
      FloorBetween(Twap(c, status, h, window, now).value, Area(h, k, now), now - h[k].timestamp, lo, hi);
    }
  }

  // --- The flash-volatility guard ------------------------------------------------------------------

  ghost predicate LedgersMonotone(h: History) {
    forall i, j :: 0 <= i <= j < |h| ==> h[i].ledger <= h[j].ledger
  }

  /** With non-decreasing ledgers, stopping at the first old observation loses nothing. */
  lemma {:induction false} FlashScanComplete(h: History, lo: nat, i: nat, windowStart: nat, price: int, bps: nat)
    requires lo <= i <= |h| && LedgersMonotone(h)
    ensures FlashScan(h, lo, i, windowStart, price, bps) <==>
              exists k :: lo <= k < i && h[k].ledger >= windowStart && DeviationBps(price, h[k].price) > bps
  {
    hide DeviationBps;
    if i > lo {
      FlashScanComplete(h, lo, i - 1, windowStart, price, bps);
    }
  }

  /** Any two buffered observations close enough in ledgers deviate by at most the flash threshold. */
  lemma BufferedDeviation(c: Config, h: History, i: nat, j: nat)
    requires Accepted(c, h) && LedgersMonotone(h) && c.flashBps != 0
    requires Oldest(h, c.capacity) <= i < j < |h| && h[j].ledger - h[i].ledger <= c.flashWindow
    ensures DeviationBps(h[j].price, h[i].price) <= c.flashBps
  {
    hide DeviationBps;
    var past := h[..j];
    assert Admit(c, Active, past, h[j].price, h[j].timestamp, h[j].ledger) == Ok(h[j]);
    assert !FlashTriggered(c, past, h[j].price, h[j].ledger);
    assert past[i] == h[i];
    FlashScanComplete(past, Oldest(past, c.capacity), j, SaturatingSub(h[j].ledger, c.flashWindow), h[j].price,
                      c.flashBps);
  }

  /** Short of saturation, the bound on basis points is a bound on the prices themselves. */
  lemma DeviationMeaning(newPrice: int, oldPrice: int, bps: nat)
    requires oldPrice > 0
    requires (if newPrice > oldPrice then newPrice - oldPrice else oldPrice - newPrice) * 10_000 <= I128_MAX
    ensures DeviationBps(newPrice, oldPrice) <= bps <==>
              (if newPrice > oldPrice then newPrice - oldPrice else oldPrice - newPrice) * 10_000 < (bps + 1) * oldPrice
  {
    var scaled := (if newPrice > oldPrice then newPrice - oldPrice else oldPrice - newPrice) * 10_000;
    DivisionIsFloor(scaled, oldPrice);
    var q := scaled / oldPrice;
    if q <= bps {
      ScaleBounds(q + 1, q + 1, bps + 1, oldPrice);
    } else {
      ScaleBounds(bps + 1, bps + 1, q, oldPrice);
    }
  }

  // --- What is accepted, and what is answered ----------------------------------------------------------

  /** Neighbouring observations lie at least the update interval apart and within the deviation limit. */
  lemma NeighboursSpaced(c: Config, h: History, j: nat)
    requires Accepted(c, h) && 0 < j < |h|
    ensures h[j].price > 0 && h[j - 1].timestamp + c.minInterval <= h[j].timestamp
    ensures c.maxDeviationBps > 0 ==> DeviationBps(h[j].price, h[j - 1].price) <= c.maxDeviationBps
  {
    hide FlashTriggered, DeviationBps;
    assert Last(h[..j]) == h[j - 1];
    assert Admit(c, Active, h[..j], h[j].price, h[j].timestamp, h[j].ledger) == Ok(h[j]);
  }

  /** Accepted prices are positive, and the running sum starts at zero. */
  lemma PositivePrices(c: Config, h: History)
    requires Accepted(c, h)
    ensures forall j :: 0 <= j < |h| ==> h[j].price > 0
    ensures h != [] ==> h[0].cumulative == 0
  {
    hide FlashTriggered, DeviationBps;
    forall j | 0 <= j < |h|
      ensures h[j].price > 0
    {
      assert Admit(c, Active, h[..j], h[j].price, h[j].timestamp, h[j].ledger) == Ok(h[j]);
    }
    if h != [] {
      assert Admit(c, Active, h[..0], h[0].price, h[0].timestamp, h[0].ledger) == Ok(h[0]);
    }
  }

  lemma NonNegativeProduct(p: int, t: int)
    requires p >= 0 && t >= 0
    ensures p * t >= 0
  {
  }

  /** Areas of positive prices are non-negative, and grow towards the past. */
  lemma {:induction false} AreaGrows(c: Config, h: History, k: nat, now: nat)
    requires Accepted(c, h) && k < |h| && Last(h).timestamp <= now
    ensures 0 <= Last(h).price * (now - Last(h).timestamp) <= Area(h, k, now)
    ensures Area(h, k, now) <= Area(h, 0, now)
  {
    hide Accepted;
    PositivePrices(c, h);
    LaterAreas(c, h, k, now);
    EarlierAreas(c, h, k, now);
  }

  lemma {:induction false} LaterAreas(c: Config, h: History, k: nat, now: nat)
    requires Accepted(c, h) && k < |h| && Last(h).timestamp <= now
    ensures 0 <= Last(h).price * (now - Last(h).timestamp) <= Area(h, k, now)
    decreases |h| - k
  {
    hide Accepted;
    PositivePrices(c, h);
    NonNegativeProduct(Last(h).price, now - Last(h).timestamp);
    if k < |h| - 1 {
      TimestampsIncrease(c, h, k, k + 1);
      NonNegativeProduct(h[k].price, h[k + 1].timestamp - h[k].timestamp);
      LaterAreas(c, h, k + 1, now);
    }
  }

  lemma {:induction false} EarlierAreas(c: Config, h: History, k: nat, now: nat)
    requires Accepted(c, h) && k < |h| && Last(h).timestamp <= now
    ensures Area(h, k, now) <= Area(h, 0, now)
  {
    hide Accepted;
    if k > 0 {
      PositivePrices(c, h);
      TimestampsIncrease(c, h, k - 1, k);
      NonNegativeProduct(h[k - 1].price, h[k].timestamp - h[k - 1].timestamp);
      EarlierAreas(c, h, k - 1, now);
    }
  }

  /**
    * An observation is admitted exactly when its price is positive, the feed is active, it is late enough, deviates
    * little enough from its neighbour and its window, and the area under all prices so far fits. It then records that
    * area.
    */
  lemma AdmittedIff(c: Config, status: Status, h: History, price: int, now: nat, ledger: nat)
    requires Accepted(c, h)
    ensures var r := Admit(c, status, h, price, now, ledger);
            && (r.Ok? <==>
                  && price > 0 && status == Active
                  && (h == [] ||
                        (&& Last(h).timestamp < now && Last(h).timestamp + c.minInterval <= now
                         && (c.maxDeviationBps == 0 || DeviationBps(price, Last(h).price) <= c.maxDeviationBps)
                         && !FlashTriggered(c, h, price, ledger) && Area(h, 0, now) <= I128_MAX)))
            && (r.Ok? ==> r.value == Observation(now, ledger, price, if h == [] then 0 else Area(h, 0, now)))
  {
    hide FlashTriggered, DeviationBps, Accepted, Area;
    if h != [] && Last(h).timestamp < now {
      PositivePrices(c, h);
      CumulativeIsArea(c, h, 0, now);
      AreaGrows(c, h, 0, now);
      CumulativeIsArea(c, h, 0, Last(h).timestamp);
      AreaGrows(c, h, 0, Last(h).timestamp);
    }
  }

  /** Why an observation is refused; the reasons are looked for in this order. */
  lemma RefusedUpdate(c: Config, status: Status, h: History, price: int, now: nat, ledger: nat)
    requires Accepted(c, h)
    ensures var r := Admit(c, status, h, price, now, ledger);
            && (price <= 0 ==> r == Err(InvalidPrice))
            && (price > 0 && status == CircuitBroken ==> r == Err(Tripped))
            && (price > 0 && status == Active && h != [] && r.Err? ==>
                  r.error == if now <= Last(h).timestamp || now < Last(h).timestamp + c.minInterval
                      then InvalidTimeDelta
                             else if 0 < c.maxDeviationBps < DeviationBps(price, Last(h).price)
                                 then PriceDeviationExceeded
                             else if FlashTriggered(c, h, price, ledger) then FlashVolatility
                             else InvalidPrice)
  {
    hide FlashTriggered, DeviationBps, Accepted;
  }

  /**
    * An average is answered exactly when a window is asked for, the feed is active, two observations are buffered, the
    * newest is neither in the future nor stale, and the area under all prices so far fits.
    */
  lemma TwapAnsweredIff(c: Config, status: Status, h: History, window: nat, now: nat)
    requires Accepted(c, h)
    ensures Twap(c, status, h, window, now).Ok? <==>
              && window > 0 && status == Active && |h| - Oldest(h, c.capacity) >= 2
              && Last(h).timestamp <= now <= Last(h).timestamp + c.maxStaleness && Area(h, 0, now) <= I128_MAX
  {
    hide Accepted, Area, StartIndex;
    if window > 0 && |h| - Oldest(h, c.capacity) >= 2 && Last(h).timestamp <= now {
      var k := StartIndex(h, Oldest(h, c.capacity), |h| - 1, SaturatingSub(Last(h).timestamp, window));
      StartsEarlier(c, h, window);
      PositivePrices(c, h);
      CumulativeIsArea(c, h, 0, now);
      CumulativeIsArea(c, h, k, now);
      AreaGrows(c, h, 0, now);
      AreaGrows(c, h, k, now);
    }
  }

  /** Why there is no average. */
  lemma RefusedAverage(c: Config, status: Status, h: History, window: nat, now: nat)
    requires Accepted(c, h)
    ensures var r := Twap(c, status, h, window, now);
            && (r == Err(InvalidWindow) <==> window == 0)
            && (r == Err(ConversionsFrozen) <==> window > 0 && status == CircuitBroken)
            && (r == Err(InsufficientObservations) <==>
                  window > 0 && status == Active && |h| - Oldest(h, c.capacity) < 2)
            && (r == Err(StalePriceData) <==>
                  && window > 0 && status == Active && |h| - Oldest(h, c.capacity) >= 2
                  && Last(h).timestamp + c.maxStaleness < now)
            && r != Err(InvalidTimeDelta)
  {
    hide Accepted, StartIndex;
    if window > 0 && |h| - Oldest(h, c.capacity) >= 2 {
      StartsEarlier(c, h, window);
    }
  }
}
