// Where the registry stops short of what one would expect of it: claims on merged schedules, and pausing.

module LedgerLimits {
  import opened Common
  import opened Sums
  import opened VestingSearch
  import opened Ledger
  import opened Solvency
  import opened LedgerLaws

  // --- Claims on merged schedules -----------------------------------------------------------------------------

  /** Having claimed `claimed` is having been paid for exactly the tranches whose time has come. */
  ghost predicate PaidForUnlocked(s: Schedule, claimed: int, now: nat) {
    exists k: nat :: k <= |s| && claimed == PrefixSum(s, k) && CoversExactly(s, k, now)
  }

  lemma OnePrefixOnly(s: Schedule, j: nat, k: nat)
    requires j <= |s| && k <= |s| && forall i :: 0 <= i < |s| ==> s[i].amount > 0
    requires PrefixSum(s, j) == PrefixSum(s, k)
    ensures j == k
  {
    if j < k {
      PrefixSumMonotone(s, j, k);
    } else {
      PrefixSumMonotone(s, k, j);
    }
  }

  lemma PaidForUnlockedIff(s: Schedule, claimed: int, now: nat)
    requires claimed == PrefixSum(s, UnlockedCount(s, now)) && forall i :: 0 <= i < |s| ==> s[i].amount > 0
    ensures PaidForUnlocked(s, claimed, now) <==> PrefixUnlocked(s, now)
  {
    hide UnlockedCount, CoversExactly, PrefixUnlocked;
    SearchExactIffPrefix(s, now);
    if PaidForUnlocked(s, claimed, now) {
      var k: nat :| k <= |s| && claimed == PrefixSum(s, k) && CoversExactly(s, k, now);
      OnePrefixOnly(s, k, UnlockedCount(s, now));
    }
  }

  /**
    * An accepted claim pays up to the prefix the search ends at. That is for exactly the unlocked tranches, none
    * missed and none early, if and only if no locked tranche stands before an unlocked one.
    */
  lemma ClaimPaysUnlockedIffPrefix(w: World, now: nat, maintainer: Address, nonce: Option<nat>)
    requires Sound(w.ledger) && ApplyClaim(w, now, maintainer, nonce).Ok?
    ensures var s := AccountOf(w.ledger.accounts, maintainer).tranches;
            var account := AccountOf(ApplyClaim(w, now, maintainer, nonce).value.ledger.accounts, maintainer);
            && account.tranches == s
            && (PaidForUnlocked(s, account.claimed, now) <==> PrefixUnlocked(s, now))
  {
    hide PaidForUnlocked, PrefixUnlocked, UnlockedCount, Move, UseNonce, Sound, AccountSound, Owed, Active;
    hide CheckedPrefixSum;
    SoundSchedule(w.ledger, maintainer);
    var account := AccountOf(ApplyClaim(w, now, maintainer, nonce).value.ledger.accounts, maintainer);
    PaidForUnlockedIff(account.tranches, account.claimed, now);
  }

  lemma SoundSchedule(l: Ledger, maintainer: Address)
    requires Sound(l)
    ensures var s := AccountOf(l.accounts, maintainer).tranches; forall i :: 0 <= i < |s| ==> s[i].amount > 0
  {
    AccountOfSound(l.accounts, maintainer);
  }

  // --- Claims pay whole tranches --------------------------------------------------------------------------------

  /** What has been claimed is the sum of the first `j` tranches for some `j`. */
  ghost predicate WholeTranches(a: Account) {
    exists j: nat :: j <= |a.tranches| && a.claimed == PrefixSum(a.tranches, j)
  }

  lemma AppendKeepsWhole(a: Account, tranches: Schedule)
    requires WholeTranches(a)
    ensures WholeTranches(a.(tranches := a.tranches + tranches))
  {
    var j: nat :| j <= |a.tranches| && a.claimed == PrefixSum(a.tranches, j);
    var s := a.tranches + tranches;
    assert s[..j] == a.tranches[..j];
    PrefixSumOf(a.tranches, s, j);
    assert j <= |s| && a.claimed == PrefixSum(s, j);
  }

  lemma GrantKeepsWhole(accounts: map<Address, Account>, m: Address, amount: int, tranches: Schedule,
                        maintainer: Address)
    requires WholeTranches(AccountOf(accounts, maintainer)) && Grant(accounts, m, amount, tranches).Ok?
    ensures WholeTranches(AccountOf(Grant(accounts, m, amount, tranches).value, maintainer))
  {
    hide WholeTranches, Owed;
    AppendKeepsWhole(AccountOf(accounts, maintainer), tranches);
  }

  lemma {:induction false} GrantsKeepWhole(accounts: map<Address, Account>, payouts: seq<PayoutParams>,
                                           maintainer: Address)
    requires WholeTranches(AccountOf(accounts, maintainer)) && GrantAll(accounts, payouts).Ok?
    ensures WholeTranches(AccountOf(GrantAll(accounts, payouts).value, maintainer))
  {
    hide WholeTranches, Grant, AccountOf;
    if payouts != [] {
      var k := |payouts| - 1;
      GrantsKeepWhole(accounts, payouts[..k], maintainer);
      GrantKeepsWhole(GrantAll(accounts, payouts[..k]).value, payouts[k].maintainer, payouts[k].amount,
                      [VestingTranche(0, payouts[k].amount)], maintainer);
    }
  }

  lemma ClaimIsWhole(tranches: Schedule, now: nat)
    requires Vested(tranches, now).Some?
    ensures WholeTranches(Account(Vested(tranches, now).value, tranches))
  {
    var k := UnlockedCount(tranches, now);
    assert Vested(tranches, now).value == PrefixSum(tranches, k);
  }

  lemma NewAccountIsWhole()
    ensures WholeTranches(Account(0, []))
  {
    assert PrefixSum([], 0) == 0;
  }

  lemma AccountsStayWhole(w: World, now: nat, call: Call, maintainer: Address)
    requires WholeTranches(AccountOf(w.ledger.accounts, maintainer)) && Apply(w, now, call).Ok?
    requires call.Allocate? || call.BatchAllocate? || call.Claim? || call.AddMaintainer?
    ensures WholeTranches(AccountOf(Apply(w, now, call).value.ledger.accounts, maintainer))
  {
    hide WholeTranches, Grant, GrantAll, Vested, Owed, ScheduleTotal, BatchTotal, Debit, Move, UseNonce, OrgAdmin;
    hide Active;
    match call
    case Allocate(_, _, m, amount, tranches) => GrantKeepsWhole(w.ledger.accounts, m, amount, tranches, maintainer);
    case BatchAllocate(_, _, payouts) => GrantsKeepWhole(w.ledger.accounts, payouts, maintainer);
    case Claim(m, _) => ClaimIsWhole(AccountOf(w.ledger.accounts, m).tranches, now);
    case AddMaintainer(_, _) => NewAccountIsWhole();
  }

  lemma NextStaysWhole(w: World, e: Event, maintainer: Address)
    requires WholeTranches(AccountOf(w.ledger.accounts, maintainer))
    ensures WholeTranches(AccountOf(Next(w, e).ledger.accounts, maintainer))
  {
    hide WholeTranches, Apply, AccountOf, Move;
    if e.Invoked? && Apply(w, e.now, e.call).Ok? {
      if e.call.Allocate? || e.call.BatchAllocate? || e.call.Claim? || e.call.AddMaintainer? {
        AccountsStayWhole(w, e.now, e.call, maintainer);
      } else {
        CallTouches(w, e.now, e.call);
      }
    }
  }

  /** In every run a maintainer has been paid for whole tranches, the first so many of the merged schedule. */
  lemma {:induction false} ClaimsPayWholeTranches(w: World, events: seq<Event>, maintainer: Address)
    requires WholeTranches(AccountOf(w.ledger.accounts, maintainer))
    ensures WholeTranches(AccountOf(Run(w, events).ledger.accounts, maintainer))
  {
    hide WholeTranches, Next, AccountOf;
    if events != [] {
      var k := |events| - 1;
      ClaimsPayWholeTranches(w, events[..k], maintainer);
      NextStaysWhole(Run(w, events[..k]), events[k], maintainer);
    }
  }

  // --- Claims refused -------------------------------------------------------------------------------------------

  /** When no locked tranche stands before an unlocked one, a claim is refused as locked only if all is paid. */
  lemma RefusedOnlyWhenPaid(w: World, now: nat, maintainer: Address, nonce: Option<nat>)
    requires PrefixUnlocked(AccountOf(w.ledger.accounts, maintainer).tranches, now)
    requires ApplyClaim(w, now, maintainer, nonce) == Err(PayoutLocked)
    ensures var account := AccountOf(w.ledger.accounts, maintainer);
            LinearScan(account.tranches, now) <= account.claimed
  {
    hide PrefixUnlocked, UnlockedCount, LinearScan, ApplyClaim, Owed, Active, CheckedPrefixSum, PrefixSum;
    ClaimLocked(w, now, maintainer, nonce);
    SearchIsLinearScan(AccountOf(w.ledger.accounts, maintainer).tranches, now);
  }

  /** A claim is refused as locked exactly when its guards pass and the search finds no more than is claimed. */
  lemma ClaimLocked(w: World, now: nat, maintainer: Address, nonce: Option<nat>)
    ensures var account := AccountOf(w.ledger.accounts, maintainer);
            var vested := Vested(account.tranches, now);
            ApplyClaim(w, now, maintainer, nonce) == Err(PayoutLocked) <==>
              && Active(w.ledger.config).Pass? && maintainer != SELF && Owed(account) != 0
              && vested.Some? && vested.value <= account.claimed
  {
    hide Vested, Owed;
  }

  lemma {:induction false} ScanPositive(s: Schedule, now: nat)
    requires forall i :: 0 <= i < |s| ==> s[i].amount > 0
    ensures LinearScan(s, now) >= 0
    ensures LinearScan(s, now) > 0 <==> (exists i :: 0 <= i < |s| && s[i].unlockTimestamp <= now)
  {
    if s != [] {
      var k := |s| - 1;
      ScanPositive(s[..k], now);
      assert forall i :: 0 <= i < k ==> s[..k][i] == s[i];
    }
  }

  /** The search ends at nothing exactly when the first tranche is locked. */
  lemma NothingFound(s: Schedule, now: nat)
    requires s != [] && forall i :: 0 <= i < |s| ==> s[i].amount > 0
    ensures PrefixSum(s, UnlockedCount(s, now)) <= 0 <==> s[0].unlockTimestamp > now
    ensures Vested(s, now).Some? ==> Vested(s, now).value == PrefixSum(s, UnlockedCount(s, now))
    ensures s[0].unlockTimestamp > now ==> Vested(s, now) == Some(0)
    ensures TrancheTotal(s) > 0
  {
    hide Search;
    PrefixSumMonotone(s, 0, |s|);
    PrefixSumMonotone(s, 0, UnlockedCount(s, now));
    assert PrefixSum(s, 0) == 0;
  }

  /**
    * A first claim is refused as locked while something is unlocked exactly when the first tranche is locked and a
    * later one is not.
    */
  lemma FirstClaimRefusedIff(w: World, now: nat, maintainer: Address, nonce: Option<nat>)
    requires Sound(w.ledger) && AccountOf(w.ledger.accounts, maintainer).claimed == 0
    ensures var s := AccountOf(w.ledger.accounts, maintainer).tranches;
            var refused := ApplyClaim(w, now, maintainer, nonce) == Err(PayoutLocked);
            var behind := exists i :: 0 < i < |s| && s[i].unlockTimestamp <= now;
            refused && LinearScan(s, now) > 0 <==>
              Active(w.ledger.config).Pass? && maintainer != SELF && s != [] && s[0].unlockTimestamp > now && behind
  {
    hide UnlockedCount, LinearScan, ApplyClaim, Sound, Active, Vested, PrefixSum, TrancheTotal;
    ClaimLocked(w, now, maintainer, nonce);
    var account := AccountOf(w.ledger.accounts, maintainer);
    var s := account.tranches;
    SoundSchedule(w.ledger, maintainer);
    ScanPositive(s, now);
    assert TrancheTotal([]) == 0 by { NoTranches(); }
    if s != [] {
      NothingFound(s, now);
    }
  }

  lemma NoTranches()
    ensures TrancheTotal([]) == 0
  {
  }

  /** After `j` tranches have been paid, a claim is refused as locked exactly when the search ends among them. */
  lemma LaterClaimRefusedIff(w: World, now: nat, maintainer: Address, nonce: Option<nat>, j: nat)
    requires Sound(w.ledger)
    requires var account := AccountOf(w.ledger.accounts, maintainer);
             j <= |account.tranches| && account.claimed == PrefixSum(account.tranches, j)
    ensures var s := AccountOf(w.ledger.accounts, maintainer).tranches;
            ApplyClaim(w, now, maintainer, nonce) == Err(PayoutLocked) <==>
              && Active(w.ledger.config).Pass? && maintainer != SELF && j < |s|
              && SumsFit(s, UnlockedCount(s, now)) && UnlockedCount(s, now) <= j
  {
    hide UnlockedCount, ApplyClaim, Sound, Active, PrefixSum, SumsFit, CheckedPrefixSum;
    ClaimLocked(w, now, maintainer, nonce);
    SoundSchedule(w.ledger, maintainer);
    var s := AccountOf(w.ledger.accounts, maintainer).tranches;
    var k := UnlockedCount(s, now);
    CheckedSumExact(s, k);
    PrefixSumMonotone(s, j, |s|);
    if k <= j {
      PrefixSumMonotone(s, k, j);
    } else {
      PrefixSumMonotone(s, j, k);
    }
  }

  // --- Runs that merge schedules ----------------------------------------------------------------------------------

  /** An organisation of admin 1, funded by 2, allocates to maintainer 3 a schedule, then a batch of one amount. */
  function Merging(s: Schedule, extra: int): seq<Event> {
    [Invoked(0, Init([1], 1)), Invoked(0, RegisterOrg("o", 1)), Invoked(0, AddMaintainer("o", 3)),
     Invoked(0, FundOrg("o", 2, TrancheTotal(s) + extra, None)),
     Invoked(0, Allocate("o", 1, 3, TrancheTotal(s), s)),
     Invoked(0, BatchAllocate(1, "o", [PayoutParams(3, extra)]))]
  }

  /** What that leads to, with what is left of the budget. */
  function SetUp(budget: int, tranches: Schedule, held: int): World {
    World(NewLedger().(config := Some(Config(1, false)), admins := map["o" := [1]], leads := map["o" := 1],
                       employers := map[3 := "o"], budgets := map["o" := budget],
                       accounts := map[3 := Account(0, tranches)]),
          if held == 0 then map[2 := 100] else map[2 := 100 - held, SELF := held])
  }

  lemma RunNone(w: World, events: seq<Event>)
    ensures Run(w, events[..0]) == w
  {
  }

  lemma FirstCalls(w: World)
    requires w.ledger == NewLedger() && w.tokens == map[2 := 100]
    ensures Next(Next(Next(w, Invoked(0, Init([1], 1))), Invoked(0, RegisterOrg("o", 1))),
                 Invoked(0, AddMaintainer("o", 3)))
            == SetUp(0, [], 0)
  {
  }

  lemma MovedIn(amount: int)
    requires 0 < amount <= 100
    ensures Move(map[2 := 100], 2, SELF, amount) == Ok(map[2 := 100 - amount, SELF := amount])
  {
    assert map[2 := 100][2 := 100 - amount][SELF := amount] == map[2 := 100 - amount, SELF := amount];
  }

  lemma Funded(amount: int)
    requires 0 < amount <= 100
    ensures Next(SetUp(0, [], 0), Invoked(0, FundOrg("o", 2, amount, None))) == SetUp(amount, [], amount)
  {
    MovedIn(amount);
    assert map["o" := 0]["o" := amount] == map["o" := amount];
    hide Move;
  }

  lemma Allocated(s: Schedule, extra: int, held: int)
    requires s != [] && ScheduleTotal(s) == Ok(TrancheTotal(s)) && 0 < TrancheTotal(s) <= 100 && 0 <= extra
    ensures Next(SetUp(TrancheTotal(s) + extra, [], held), Invoked(0, Allocate("o", 1, 3, TrancheTotal(s), s)))
            == SetUp(extra, s, held)
  {
    DebitedTo("o", TrancheTotal(s), extra);
    GrantedFirst(s);
    hide ScheduleTotal, TrancheTotal, Debit, Grant, Apply, ApplyAllocate, SetUp;
    AllocateAccepted(s, TrancheTotal(s), extra, held);
    ApplyIsAllocate(SetUp(TrancheTotal(s) + extra, [], held), "o", 1, 3, TrancheTotal(s), s);
  }

  lemma ApplyIsAllocate(w: World, org: Symbol, admin: Address, maintainer: Address, amount: int, tranches: Schedule)
    ensures Apply(w, 0, Allocate(org, admin, maintainer, amount, tranches))
         == ApplyAllocate(w, org, admin, maintainer, amount, tranches)
  {
    hide ApplyAllocate;
  }

  lemma AllocateAccepted(s: Schedule, total: int, extra: int, held: int)
    requires s != [] && ScheduleTotal(s) == Ok(total) && 0 < total <= 100
    requires Debit(map["o" := total + extra], "o", total) == Ok(map["o" := extra])
    requires Grant(map[3 := Account(0, [])], 3, total, s) == Ok(map[3 := Account(0, s)])
    ensures ApplyAllocate(SetUp(total + extra, [], held), "o", 1, 3, total, s) == Ok(SetUp(extra, s, held))
  {
    hide ScheduleTotal, Debit, Grant;
  }

  lemma DebitedTo(org: Symbol, amount: int, rest: int)
    requires 0 <= rest
    ensures Debit(map[org := amount + rest], org, amount) == Ok(map[org := rest])
  {
    assert map[org := amount + rest][org := rest] == map[org := rest];
  }

  lemma GrantedFirst(s: Schedule)
    requires TrancheTotal(s) <= 100
    ensures Grant(map[3 := Account(0, [])], 3, TrancheTotal(s), s) == Ok(map[3 := Account(0, s)])
  {
    NoTranches();
    hide TrancheTotal;
    assert [] + s == s;
    assert map[3 := Account(0, [])][3 := Account(0, s)] == map[3 := Account(0, s)];
  }

  lemma Batched(s: Schedule, extra: int, held: int)
    requires 0 <= TrancheTotal(s) <= 100 && 0 < extra <= 100
    ensures Next(SetUp(extra, s, held), Invoked(0, BatchAllocate(1, "o", [PayoutParams(3, extra)])))
            == SetUp(0, s + [VestingTranche(0, extra)], held)
  {
    BatchAccepted(s, extra, held);
    hide ApplyBatchAllocate, SetUp, TrancheTotal;
  }

  lemma BatchAccepted(s: Schedule, extra: int, held: int)
    requires 0 <= TrancheTotal(s) <= 100 && 0 < extra <= 100
    ensures ApplyBatchAllocate(SetUp(extra, s, held), 1, "o", [PayoutParams(3, extra)])
            == Ok(SetUp(0, s + [VestingTranche(0, extra)], held))
  {
    BatchGranted(s, extra);
    DebitedTo("o", extra, 0);
    hide GrantAll, BatchTotal, Debit, TrancheTotal;
  }

  lemma BatchGranted(s: Schedule, extra: int)
    requires 0 <= TrancheTotal(s) <= 100 && 0 < extra <= 100
    ensures var payouts := [PayoutParams(3, extra)];
            && BatchTotal(map[3 := "o"], "o", payouts) == Ok(extra)
            && GrantAll(map[3 := Account(0, s)], payouts) == Ok(map[3 := Account(0, s + [VestingTranche(0, extra)])])
  {
    hide TrancheTotal;
    var payouts := [PayoutParams(3, extra)];
    assert payouts[..0] == [];
    var merged := Account(0, s + [VestingTranche(0, extra)]);
    assert map[3 := Account(0, s)][3 := merged] == map[3 := merged];
  }

  /** Every accepted schedule of at most 99 units can be merged with a batch behind it. */
  lemma MergedByRun(s: Schedule, extra: int)
    requires s != [] && ScheduleTotal(s).Ok? && 0 < extra && TrancheTotal(s) + extra <= 100
    ensures Run(World(NewLedger(), map[2 := 100]), Merging(s, extra))
            == SetUp(0, s + [VestingTranche(0, extra)], TrancheTotal(s) + extra)
  {
    hide Run, Next, SetUp, ScheduleTotal, TrancheTotal, Merging;
    AcceptedTotal(s);
    var w, es, total := World(NewLedger(), map[2 := 100]), Merging(s, extra), TrancheTotal(s);
    MergingAt(s, extra);
    Registered(w, es);
    RunStep(w, es, 3);
    Funded(total + extra);
    RunStep(w, es, 4);
    Allocated(s, extra, total + extra);
    RunStep(w, es, 5);
    Batched(s, extra, total + extra);
    assert es[..6] == es;
  }

  lemma AcceptedTotal(s: Schedule)
    requires s != [] && ScheduleTotal(s).Ok?
    ensures ScheduleTotal(s) == Ok(TrancheTotal(s)) && TrancheTotal(s) > 0
  {
    hide Sorted;
    ScheduleAccepted(s);
    PrefixSumMonotone(s, 0, |s|);
    assert PrefixSum(s, 0) == 0;
  }

  lemma MergingAt(s: Schedule, extra: int)
    ensures var es := Merging(s, extra);
            && |es| == 6 && es[0] == Invoked(0, Init([1], 1)) && es[1] == Invoked(0, RegisterOrg("o", 1))
            && es[2] == Invoked(0, AddMaintainer("o", 3))
            && es[3] == Invoked(0, FundOrg("o", 2, TrancheTotal(s) + extra, None))
            && es[4] == Invoked(0, Allocate("o", 1, 3, TrancheTotal(s), s))
            && es[5] == Invoked(0, BatchAllocate(1, "o", [PayoutParams(3, extra)]))
  {
  }

  lemma Registered(w: World, es: seq<Event>)
    requires w.ledger == NewLedger() && w.tokens == map[2 := 100] && |es| >= 3
    requires es[0] == Invoked(0, Init([1], 1)) && es[1] == Invoked(0, RegisterOrg("o", 1))
    requires es[2] == Invoked(0, AddMaintainer("o", 3))
    ensures Run(w, es[..3]) == SetUp(0, [], 0)
  {
    hide Run, Next, SetUp;
    RunNone(w, es);
    RunStep(w, es, 0); RunStep(w, es, 1); RunStep(w, es, 2);
    FirstCalls(w);
  }

  const EARLY: Schedule := [VestingTranche(0, 1), VestingTranche(100, 5)]
  const LATE: Schedule := [VestingTranche(9, 5)]

  lemma EarlySchedule()
    ensures ScheduleTotal(EARLY).Ok? && TrancheTotal(EARLY) == 6
    ensures var s := EARLY + [VestingTranche(0, 1)];
            Vested(s, 1) == Some(7) && Owed(Account(0, s)) == 7 && LinearScan(s, 1) == 2
  {
    assert PrefixSum(EARLY, 0) == 0 && PrefixSum(EARLY, 1) == 1 && PrefixSum(EARLY, 2) == 6;
    ScheduleAccepted(EARLY);
    UnsortedSearchAnticipates();
    var s := EARLY + [VestingTranche(0, 1)];
    assert s == [VestingTranche(0, 1), VestingTranche(100, 5), VestingTranche(0, 1)];
    assert CheckedPrefixSum(s, 0) == Some(0) && CheckedPrefixSum(s, 1) == Some(1) && CheckedPrefixSum(s, 2) == Some(6);
  }

  /** A claim that pays a tranche early: at time 1 the maintainer gets 7, of which 5 are locked until 100. */
  lemma ClaimPaidEarly()
    ensures var w := Run(World(NewLedger(), map[2 := 100]), Merging(EARLY, 1));
            var s := [VestingTranche(0, 1), VestingTranche(100, 5), VestingTranche(0, 1)];
            var claim := ApplyClaim(w, 1, 3, None);
            && AccountOf(w.ledger.accounts, 3) == Account(0, s) && LinearScan(s, 1) == 2
            && claim.Ok? && Get(claim.value.tokens, 3, 0) == 7
  {
    EarlySchedule();
    MergedByRun(EARLY, 1);
    hide Run, Vested, Owed, ScheduleTotal, LinearScan;
    assert EARLY + [VestingTranche(0, 1)] == [VestingTranche(0, 1), VestingTranche(100, 5), VestingTranche(0, 1)];
  }

  lemma LateSchedule()
    ensures ScheduleTotal(LATE).Ok? && TrancheTotal(LATE) == 5
    ensures var s := LATE + [VestingTranche(0, 5)];
            Vested(s, 0) == Some(0) && Owed(Account(0, s)) == 10 && LinearScan(s, 0) == 5
  {
    assert PrefixSum(LATE, 0) == 0 && PrefixSum(LATE, 1) == 5;
    ScheduleAccepted(LATE);
    var s := LATE + [VestingTranche(0, 5)];
    assert CheckedPrefixSum(s, 0) == Some(0);
    assert PrefixSum(s, 0) == 0 && PrefixSum(s, 1) == 5;
    assert s[..1][..0] == [] && LinearScan(s[..1], 0) == 0;
  }

  /** A claim refused as locked while 5 are unlocked: they stand behind a tranche locked until 9. */
  lemma ClaimRefused()
    ensures var w := Run(World(NewLedger(), map[2 := 100]), Merging(LATE, 5));
            var s := [VestingTranche(9, 5), VestingTranche(0, 5)];
            && AccountOf(w.ledger.accounts, 3) == Account(0, s) && LinearScan(s, 0) == 5
            && ApplyClaim(w, 0, 3, None) == Err(PayoutLocked)
  {
    LateSchedule();
    MergedByRun(LATE, 5);
    hide Run, Vested, Owed, ScheduleTotal, LinearScan;
    assert LATE + [VestingTranche(0, 5)] == [VestingTranche(9, 5), VestingTranche(0, 5)];
  }

  // --- Pausing --------------------------------------------------------------------------------------------------

  function WithConfig(w: World, config: Option<Config>): World {
    w.(ledger := w.ledger.(config := config))
  }

  predicate Paused(w: World) {
    w.ledger.config.Some? && w.ledger.config.value.paused
  }

  /** A paused registry refuses every call that moves money, batch allocations apart. */
  lemma PauseRefuses(w: World, now: nat, call: Call)
    requires Paused(w) && !Administration(call) && !call.BatchAllocate?
    ensures Apply(w, now, call) == Err(ProtocolPaused)
  {
    hide Preview, StatsFit, ConversionFits, ScheduleTotal, Vested, Move, AfterCallback, Amount;
  }

  /** A batch allocation does not look at the configuration: under any other one it does and fails the same. */
  lemma BatchIgnoresPause(w: World, config: Option<Config>, admin: Address, org: Symbol, payouts: seq<PayoutParams>)
    ensures var here, there := ApplyBatchAllocate(w, admin, org, payouts),
                               ApplyBatchAllocate(WithConfig(w, config), admin, org, payouts);
            there == if here.Ok? then Ok(WithConfig(here.value, config)) else here
  {
    hide BatchTotal, GrantAll, Debit, OrgAdmin;
  }

  /** What moves money on a paused registry is exactly a batch allocation that would be accepted anyway. */
  lemma AcceptedWhilePausedIff(w: World, now: nat, call: Call)
    requires Paused(w) && !Administration(call)
    ensures var running := WithConfig(w, Some(w.ledger.config.value.(paused := false)));
            Apply(w, now, call).Ok? <==> call.BatchAllocate? && Apply(running, now, call).Ok?
  {
    if call.BatchAllocate? {
      hide ApplyBatchAllocate;
      BatchIgnoresPause(w, Some(w.ledger.config.value.(paused := false)), call.admin, call.org, call.payouts);
    } else {
      hide Apply;
      PauseRefuses(w, now, call);
    }
  }

  lemma ApplyIsBatch(w: World, now: nat, admin: Address, org: Symbol, payouts: seq<PayoutParams>)
    ensures Apply(w, now, BatchAllocate(admin, org, payouts)) == ApplyBatchAllocate(w, admin, org, payouts)
  {
    hide ApplyBatchAllocate;
  }

  /** A batch accepted on a paused registry that refuses the same payout as a single allocation. */
  lemma BatchWhilePaused()
    ensures var config := Some(Config(1, true));
            var paused := WithConfig(SetUp(1, EARLY, 7), config);
            var merged := EARLY + [VestingTranche(0, 1)];
            && Apply(paused, 0, Allocate("o", 1, 3, 1, [VestingTranche(0, 1)])) == Err(ProtocolPaused)
            && Apply(paused, 0, BatchAllocate(1, "o", [PayoutParams(3, 1)]))
                == Ok(WithConfig(SetUp(0, merged, 7), config))
  {
    var w, config := SetUp(1, EARLY, 7), Some(Config(1, true));
    EarlySchedule();
    BatchAccepted(EARLY, 1, 7);
    BatchIgnoresPause(w, config, 1, "o", [PayoutParams(3, 1)]);
    ApplyIsBatch(WithConfig(w, config), 0, 1, "o", [PayoutParams(3, 1)]);
    PauseRefuses(WithConfig(w, config), 0, Allocate("o", 1, 3, 1, [VestingTranche(0, 1)]));
    hide Apply, ApplyBatchAllocate, SetUp;
  }
}
