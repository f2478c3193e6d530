// The TWAP feed itself (twap_oracle.rs): a ring of observations in keyed storage that refines the
// append-only history. Ledger time and sequence number are parameters of each call.

module TwapOracle {
  import opened Common
  import opened ModArith
  import opened PriceHistory

  const DEFAULT_FLASH_DEVIATION_BPS := 1_500
  const DEFAULT_FLASH_LEDGER_WINDOW := 10

  // --- Ring indices -----------------------------------------------------------------------------

  lemma ModIs(x: int, m: int, q: int, r: int)
    requires 0 <= r < m && x == m * q + r
    ensures x % m == r
  {
    CongByWitness(x, r, m, q);
    CongMod(x, m);
    CongTrans(x % m, x, r, m);
    CongUnique(x % m, r, m);
  }

  /** `newest_index`: the slot before the write head. */
  function NewestIndex(head: nat, capacity: nat): nat
    requires 0 < capacity
  {
    if head == 0 then capacity - 1 else head - 1
  }

  /** Reading backwards from the newest slot visits the newest history entries. */
  lemma BackwardSlot(n: nat, capacity: nat, i: nat)
    requires 0 < capacity && i < n && i < capacity
    ensures (NewestIndex(n % capacity, capacity) + capacity - i) % capacity == (n - 1 - i) % capacity
    ensures NewestIndex(n % capacity, capacity) == (n - 1) % capacity
  {
    var q, r := n / capacity, n % capacity;
    assert n == capacity * q + r;
    assert capacity * (q - 1) == capacity * q - capacity;
    if r == 0 {
      ModIs(n - 1, capacity, q - 1, capacity - 1);
    } else {
      ModIs(n - 1, capacity, q, r - 1);
    }
    if r - 1 - i >= 0 {
      ModIs(n - 1 - i, capacity, q, r - 1 - i);
      ModIs(r - 1 + capacity - i, capacity, 1, r - 1 - i);
    } else {
      ModIs(n - 1 - i, capacity, q - 1, capacity + r - 1 - i);
      if r == 0 {
        ModIs(2 * capacity - 1 - i, capacity, 1, capacity - 1 - i);
      } else {
        ModIs(r - 1 + capacity - i, capacity, 0, capacity + r - 1 - i);
      }
    }
  }

  lemma AdvanceHead(n: nat, capacity: nat)
    requires 0 < capacity
    ensures (n % capacity + 1) % capacity == (n + 1) % capacity
  {
    var q, r := n / capacity, n % capacity;
    assert n == capacity * q + r;
    assert capacity * (q + 1) == capacity * q + capacity;
    if r + 1 < capacity {
      ModIs(n + 1, capacity, q, r + 1);
      ModIs(r + 1, capacity, 0, r + 1);
    } else {
      ModIs(n + 1, capacity, q + 1, 0);
      ModIs(r + 1, capacity, 1, 0);
    }
  }

  /** Two of the last `capacity` positions never share a slot. */
  lemma SlotsDistinct(i: nat, n: nat, capacity: nat)
    requires 0 < capacity && i < n && n - i < capacity
    ensures i % capacity != n % capacity
  {
    if i % capacity == n % capacity {
      var d := n / capacity - i / capacity;
      assert n - i == capacity * (n / capacity) - capacity * (i / capacity) == capacity * d;
      ModIs(n - i, capacity, 0, n - i);
      MultipleIsZero(d, capacity);
    }
  }

  /** The slots hold exactly the last `capacity` entries of the history. */
  ghost predicate RingHolds(slots: map<nat, Observation>, h: History, capacity: nat)
    requires 0 < capacity
  {
    forall i :: Oldest(h, capacity) <= i < |h| ==> i % capacity in slots && slots[i % capacity] == h[i]
  }

  lemma RingStore(slots: map<nat, Observation>, h: History, capacity: nat, obs: Observation)
    requires 0 < capacity && RingHolds(slots, h, capacity)
    ensures RingHolds(slots[|h| % capacity := obs], h + [obs], capacity)
  {
    forall i | Oldest(h + [obs], capacity) <= i < |h|
      ensures i % capacity != |h| % capacity
    {
      SlotsDistinct(i, |h|, capacity);
    }
  }

  // --- The feed -----------------------------------------------------------------------------------

  class TwapFeed {
    var config: Option<Config>
    var status: Status
    var head: nat
    var count: nat
    var observations: map<nat, Observation>
    /** Every observation accepted since initialisation. */
    ghost var history: History

    ghost predicate Valid()
      reads this
    {
      match config
      case None => status == CircuitBroken && history == []
      case Some(c) =>
        && 1 <= c.capacity <= 100 && 1 <= c.flashBps <= 10_000 && c.flashWindow > 0
        && Accepted(c, history)
        && count == |history| - Oldest(history, c.capacity)
        && head == |history| % c.capacity
        && RingHolds(observations, history, c.capacity)
    }

    constructor ()
      ensures Valid() && config == None
    {
      config := None;
      status := CircuitBroken;
      head, count := 0, 0;
      observations := map[];
      history := [];
    }

    method InitializeAsset(capacity: nat, maxStaleness: nat, maxDeviationBps: nat, minInterval: nat,
                           flashDeviationBps: nat, flashLedgerWindow: nat) returns (r: Result<(), TwapError>)
      requires Valid()
      modifies this
      ensures Valid()
      ensures r == if old(config).Some? then Err(AlreadyInitialized)
                   else if !(1 <= capacity <= 100) then Err(InvalidCapacity)
                   else if flashDeviationBps > 10_000 then Err(InvalidCircuitParams)
                   else Ok(())
      ensures r.Ok? ==> history == [] && status == Active
      ensures r.Ok? ==> config == Some(Config(capacity, maxStaleness, maxDeviationBps, minInterval,
                          if flashDeviationBps == 0 then 1_500 else flashDeviationBps,
                          if flashLedgerWindow == 0 then 10 else flashLedgerWindow))
      ensures r.Err? ==> unchanged(this)
    {
      if config.Some? {
        return Err(AlreadyInitialized);
      }
      if capacity == 0 || capacity > 100 {
        return Err(InvalidCapacity);
      }
      var flashBps := if flashDeviationBps == 0 then DEFAULT_FLASH_DEVIATION_BPS else flashDeviationBps;
      var flashWindow := if flashLedgerWindow == 0 then DEFAULT_FLASH_LEDGER_WINDOW else flashLedgerWindow;
      if flashBps > 10_000 || flashWindow == 0 {
        return Err(InvalidCircuitParams);
      }
      config := Some(Config(capacity, maxStaleness, maxDeviationBps, minInterval, flashBps, flashWindow));
      head, count := 0, 0;
      status := Active;
      return Ok(());
    }

    /** The observation `i` places behind the newest one. */
    method LoadBack(i: nat) returns (obs: Observation)
      requires Valid() && config.Some? && i < count
      ensures obs == history[|history| - 1 - i]
    {
      var capacity := config.value.capacity;
      BackwardSlot(|history|, capacity, i);
      var idx := (NewestIndex(head, capacity) + capacity - i) % capacity;
      obs := observations[idx];
    }

    method FlashVolatilityTriggered(ledger: nat, price: int) returns (b: bool)
      requires Valid() && config.Some?
      ensures b == FlashTriggered(config.value, history, price, ledger)
    {
      hide DeviationBps, Accepted;
      var c := config.value;
      if c.flashBps == 0 || count == 0 {
        return false;
      }
      var windowStart := SaturatingSub(ledger, c.flashWindow);
      ghost var lo := Oldest(history, c.capacity);
      for i := 0 to count
        invariant FlashTriggered(c, history, price, ledger)
              <==> FlashScan(history, lo, |history| - i, windowStart, price, c.flashBps)
      {
        var obs := LoadBack(i);
        if obs.ledger < windowStart {
          return false;
        }
        if DeviationBps(price, obs.price) > c.flashBps {
          return true;
        }
      }
      return false;
    }

    /** Records a price: on success the history grows by one observation, on failure nothing changes. */
    method UpdatePrice(price: int, now: nat, ledger: nat) returns (r: Result<(), TwapError>)
      requires Valid()
      modifies this
      ensures Valid() && config == old(config) && status == old(status)
      ensures old(config).None? ==> r == Err(NotInitialized)
      ensures old(config).Some? ==>
                match Admit(old(config).value, old(status), old(history), price, now, ledger)
                case Err(e) => r == Err(e) && unchanged(this)
                case Ok(obs) => r.Ok? && history == old(history) + [obs]
    {
      hide DeviationBps, FlashTriggered, Accepted;
      if config.None? {
        return Err(NotInitialized);
      }
      var c := config.value;
      if price <= 0 {
        return Err(InvalidPrice);
      }
      if status == CircuitBroken {
        return Err(Tripped);
      }
      var cumulative := 0;
      if count > 0 {
        var last := LoadBack(0);
        if now <= last.timestamp {
          return Err(InvalidTimeDelta);
        }
        var timeDelta := now - last.timestamp;
        if timeDelta < c.minInterval {
          return Err(InvalidTimeDelta);
        }
        if c.maxDeviationBps > 0 {
          var deviation := DeviationBps(price, last.price);
          if deviation > c.maxDeviationBps {
            return Err(PriceDeviationExceeded);
          }
        }
        var flash := FlashVolatilityTriggered(ledger, price);
        if flash {
          return Err(FlashVolatility);
        }
        var tick := last.price * timeDelta;
        if !FitsI128(tick) {
          return Err(InvalidPrice);
        }
        if !FitsI128(last.cumulative + tick) {
          return Err(InvalidPrice);
        }
        cumulative := last.cumulative + tick;
      }
      var obs := Observation(now, ledger, price, cumulative);
      assert Admit(c, status, history, price, now, ledger) == Ok(obs);
      Store(obs);
      return Ok(());
    }

    /** Overwrites the slot at the head and advances it. */
    method Store(obs: Observation)
      requires Valid() && config.Some?
      requires Admit(config.value, Active, history, obs.price, obs.timestamp, obs.ledger) == Ok(obs)
      modifies this`observations, this`head, this`count, this`history
      ensures Valid() && history == old(history) + [obs]
    {
      hide Admit, Accepted, RingHolds;
      var c := config.value;
      RingStore(observations, history, c.capacity, obs);
      AdvanceHead(|history|, c.capacity);
      AcceptedExtends(c, history, obs);
      observations := observations[head := obs];
      head := (head + 1) % c.capacity;
      if count < c.capacity {
        count := count + 1;
      }
      history := history + [obs];
    }

    method GetTwap(window: nat, now: nat) returns (r: Result<int, TwapError>)
      requires Valid()
      ensures r == if window == 0 then Err(InvalidWindow)
                   else if config.None? then Err(NotInitialized)
                   else Twap(config.value, status, history, window, now)
    {
      hide Accepted;
      if window == 0 {
        return Err(InvalidWindow);
      }
      if config.None? {
        return Err(NotInitialized);
      }
      var c := config.value;
      if status != Active {
        return Err(ConversionsFrozen);
      }
      if count < 2 {
        return Err(InsufficientObservations);
      }
      var newest := LoadBack(0);
      if SaturatingSub(now, newest.timestamp) > c.maxStaleness {
        return Err(StalePriceData);
      }
      var oldest := FindStart(SaturatingSub(newest.timestamp, window));
      if now < newest.timestamp {
        return Err(Overflow);
      }
      var tail := newest.price * (now - newest.timestamp);
      if !FitsI128(tail) || !FitsI128(newest.cumulative + tail) {
        return Err(Overflow);
      }
      var totalElapsed := now - oldest.timestamp;
      if totalElapsed == 0 {
        return Err(InvalidTimeDelta);
      }
      var delta := newest.cumulative + tail - oldest.cumulative;
      if !FitsI128(delta) {
        return Err(Overflow);
      }
      return Ok(delta / totalElapsed);
    }

    /** The loop of `get_twap`: backwards until an observation is old enough or the buffer ends. */
    method FindStart(target: nat) returns (oldest: Observation)
      requires Valid() && config.Some? && count > 0
      ensures oldest == history[StartIndex(history, Oldest(history, config.value.capacity), |history| - 1, target)]
    {
      hide Accepted;
      ghost var lo := Oldest(history, config.value.capacity);
      ghost var k := StartIndex(history, lo, |history| - 1, target);
      oldest := LoadBack(0);
      for i := 0 to count
        invariant i < count ==> k == StartIndex(history, lo, |history| - 1 - i, target)
        invariant i == count ==> oldest == history[k]
      {
        oldest := LoadBack(i);
        if oldest.timestamp <= target {
          return;
        }
      }
    }

    method TripCircuitBreaker() returns (r: Result<(), TwapError>)
      requires Valid()
      modifies this`status
      ensures Valid() && r == if config.None? then Err(NotInitialized) else Ok(())
      ensures status == CircuitBroken
    {
      if config.None? {
        return Err(NotInitialized);
      }
      status := CircuitBroken;
      return Ok(());
    }

    method ResetCircuitBreaker() returns (r: Result<(), TwapError>)
      requires Valid()
      modifies this`status
      ensures Valid() && r == if config.None? then Err(NotInitialized) else Ok(())
      ensures status == if config.None? then old(status) else Active
    {
      if config.None? {
        return Err(NotInitialized);
      }
      status := Active;
      return Ok(());
    }
  }
}
