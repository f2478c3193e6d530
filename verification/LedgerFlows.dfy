// Where the money of the payout registry comes from and goes to, per organisation, maintainer and time-lock, over runs.

module LedgerFlows {
  import opened Common
  import opened Sums
  import opened VestingSearch
  import opened Ledger
  import opened Solvency
  import opened LedgerLaws

  // --- Budgets --------------------------------------------------------------------------------------------------

  function BatchSum(payouts: seq<PayoutParams>): int {
    if payouts == [] then 0 else BatchSum(payouts[..|payouts| - 1]) + payouts[|payouts| - 1].amount
  }

  lemma {:induction false} BatchTotalIsSum(employers: map<Address, Symbol>, org: Symbol, payouts: seq<PayoutParams>)
    requires BatchTotal(employers, org, payouts).Ok?
    ensures BatchTotal(employers, org, payouts).value == BatchSum(payouts)
  {
    if payouts != [] {
      BatchTotalIsSum(employers, org, payouts[..|payouts| - 1]);
    }
  }

  /** What one step adds to an organisation's budget: funding, contributions and matches, less allocations. */
  ghost function BudgetFlow(w: World, e: Event, org: Symbol): int {
    if e.Transferred? || Apply(w, e.now, e.call).Err? then 0
    else
      match e.call
      case FundOrg(o, _, amount, _) => if o == org then amount else 0
      case Contribute(o, _, amount, _) => if o == org then amount else 0
      case Distribute(_, _) => Get(Next(w, e).ledger.matched, org, 0) - Get(w.ledger.matched, org, 0)
      case Allocate(o, _, _, amount, _) => if o == org then -amount else 0
      case BatchAllocate(_, o, payouts) => if o == org then -BatchSum(payouts) else 0
      case _ => 0
  }

  ghost function BudgetFlows(w: World, events: seq<Event>, org: Symbol): int {
    if events == [] then 0
    else
      var k := |events| - 1;
      BudgetFlows(w, events[..k], org) + BudgetFlow(Run(w, events[..k]), events[k], org)
  }

  lemma FundingLands(w: World, now: nat, call: Call, org: Symbol)
    requires (call.FundOrg? || call.Contribute?) && Apply(w, now, call).Ok?
    ensures Get(Apply(w, now, call).value.ledger.budgets, org, 0) ==
            Get(w.ledger.budgets, org, 0)
                + (if (if call.FundOrg? then call.org else call.project) == org then call.amount else 0)
  {
    hide Active, Amount, MayContribute, UseNonce, StatsFit, Move;
  }

  lemma AllocationLeaves(w: World, now: nat, call: Call, org: Symbol)
    requires (call.Allocate? || call.BatchAllocate?) && Apply(w, now, call).Ok?
    ensures Get(Apply(w, now, call).value.ledger.budgets, org, 0) ==
            Get(w.ledger.budgets, org, 0)
              - (if call.org == org then (if call.Allocate? then call.amount else BatchSum(call.payouts)) else 0)
  {
    hide Active, Amount, OrgAdmin, Employed, ScheduleTotal, Grant, GrantAll, BatchTotal, BatchSum;
    if call.BatchAllocate? {
      BatchTotalIsSum(w.ledger.employers, call.org, call.payouts);
    }
  }

  lemma {:induction false} MatchesMoveTogether(l: Ledger, projects: seq<Symbol>, parts: seq<int>, org: Symbol)
    requires |parts| == |projects| && PayMatches(l, projects, parts).Ok?
    ensures var paid := PayMatches(l, projects, parts).value;
            Get(paid.budgets, org, 0) - Get(l.budgets, org, 0) == Get(paid.matched, org, 0) - Get(l.matched, org, 0)
  {
    if projects != [] {
      var k := |projects| - 1;
      MatchesMoveTogether(l, projects[..k], parts[..k], org);
    }
  }

  lemma MatchLands(w: World, now: nat, call: Call, org: Symbol)
    requires call.Distribute? && Apply(w, now, call).Ok?
    ensures var after := Apply(w, now, call).value.ledger;
            Get(after.budgets, org, 0) - Get(w.ledger.budgets, org, 0)
                == Get(after.matched, org, 0) - Get(w.ledger.matched, org, 0)
  {
    hide Preview, PayMatches;
    DistributeSteps(w, call.admin, call.projects);
    MatchesMoveTogether(w.ledger, call.projects, Preview(w.ledger, call.projects).value, org);
  }

  lemma RegistrationKeepsBudgets(w: World, now: nat, call: Call, org: Symbol)
    requires Rooted(w.ledger) && call.RegisterOrg? && Apply(w, now, call).Ok?
    ensures Get(Apply(w, now, call).value.ledger.budgets, org, 0) == Get(w.ledger.budgets, org, 0)
  {
  }

  lemma BudgetStep(w: World, e: Event, org: Symbol)
    requires Rooted(w.ledger)
    ensures Get(Next(w, e).ledger.budgets, org, 0) == Get(w.ledger.budgets, org, 0) + BudgetFlow(w, e, org)
  {
    hide Apply, BatchSum;
    if e.Invoked? && Apply(w, e.now, e.call).Ok? {
      var now, call := e.now, e.call;
      if call.FundOrg? || call.Contribute? {
        FundingLands(w, now, call, org);
      } else if call.Allocate? || call.BatchAllocate? {
        AllocationLeaves(w, now, call, org);
      } else if call.Distribute? {
        MatchLands(w, now, call, org);
      } else if call.RegisterOrg? {
        RegistrationKeepsBudgets(w, now, call, org);
      } else {
        CallTouches(w, now, call);
      }
    }
  }

  lemma SoundIsRooted(l: Ledger)
    requires Sound(l)
    ensures Rooted(l)
  {
  }

  /** In every run an organisation's budget is what it was given and matched, less what it allocated. */
  lemma {:induction false} BudgetsAddUp(w: World, events: seq<Event>, org: Symbol)
    requires Sound(w.ledger)
    ensures Get(Run(w, events).ledger.budgets, org, 0) == Get(w.ledger.budgets, org, 0) + BudgetFlows(w, events, org)
  {
    hide Next, BudgetFlow, Sound, Rooted;
    if events != [] {
      var k := |events| - 1;
      BudgetsAddUp(w, events[..k], org);
      SurplusNeverFalls(w, events[..k]);
      SoundIsRooted(Run(w, events[..k]).ledger);
      BudgetStep(Run(w, events[..k]), events[k], org);
    }
  }

  // --- Maintainers ----------------------------------------------------------------------------------------------

  /** The part of a batch that is meant for one maintainer. */
  function BatchShare(payouts: seq<PayoutParams>, maintainer: Address): int {
    if payouts == [] then 0
    else
      var last := payouts[|payouts| - 1];
      BatchShare(payouts[..|payouts| - 1], maintainer) + (if last.maintainer == maintainer then last.amount else 0)
  }

  /** What one step allocates to a maintainer. */
  ghost function Allocated(w: World, e: Event, maintainer: Address): int {
    if e.Transferred? || Apply(w, e.now, e.call).Err? then 0
    else
      match e.call
      case Allocate(_, _, m, amount, _) => if m == maintainer then amount else 0
      case BatchAllocate(_, _, payouts) => BatchShare(payouts, maintainer)
      case _ => 0
  }

  ghost function TotalAllocated(w: World, events: seq<Event>, maintainer: Address): int {
    if events == [] then 0
    else
      var k := |events| - 1;
      TotalAllocated(w, events[..k], maintainer) + Allocated(Run(w, events[..k]), events[k], maintainer)
  }

  function TranchesOf(l: Ledger, maintainer: Address): int {
    TrancheTotal(AccountOf(l.accounts, maintainer).tranches)
  }

  lemma GrantLands(accounts: map<Address, Account>, m: Address, amount: int, tranches: Schedule, maintainer: Address)
    requires Grant(accounts, m, amount, tranches).Ok? && TrancheTotal(tranches) == amount
    ensures TrancheTotal(AccountOf(Grant(accounts, m, amount, tranches).value, maintainer).tranches) ==
            TrancheTotal(AccountOf(accounts, maintainer).tranches) + (if m == maintainer then amount else 0)
  {
    TotalConcat(AccountOf(accounts, m).tranches, tranches);
    hide TrancheTotal;
  }

  lemma {:induction false} GrantsLand(accounts: map<Address, Account>, payouts: seq<PayoutParams>, maintainer: Address)
    requires GrantAll(accounts, payouts).Ok?
    ensures TrancheTotal(AccountOf(GrantAll(accounts, payouts).value, maintainer).tranches) ==
            TrancheTotal(AccountOf(accounts, maintainer).tranches) + BatchShare(payouts, maintainer)
  {
    hide Grant, TrancheTotal;
    if payouts != [] {
      var k := |payouts| - 1;
      GrantsLand(accounts, payouts[..k], maintainer);
      SingleTranche(payouts[k].amount);
      GrantLands(GrantAll(accounts, payouts[..k]).value, payouts[k].maintainer, payouts[k].amount,
                 [VestingTranche(0, payouts[k].amount)], maintainer);
    }
  }

  lemma AllocationLands(w: World, now: nat, call: Call, maintainer: Address)
    requires (call.Allocate? || call.BatchAllocate?) && Apply(w, now, call).Ok?
    ensures TranchesOf(Apply(w, now, call).value.ledger, maintainer) ==
            TranchesOf(w.ledger, maintainer)
              + (if call.BatchAllocate? then BatchShare(call.payouts, maintainer)
                 else if call.maintainer == maintainer then call.amount else 0)
  {
    hide Active, Amount, OrgAdmin, Employed, ScheduleTotal, Debit, Grant, GrantAll, BatchTotal, BatchShare;
    hide TrancheTotal, Sorted;
    if call.BatchAllocate? {
      GrantsLand(w.ledger.accounts, call.payouts, maintainer);
    } else {
      ScheduleAccepted(call.tranches);
      GrantLands(w.ledger.accounts, call.maintainer, call.amount, call.tranches, maintainer);
    }
  }

  lemma OthersKeepTranches(w: World, now: nat, call: Call, maintainer: Address)
    requires (call.Claim? || (call.AddMaintainer? && Rooted(w.ledger))) && Apply(w, now, call).Ok?
    ensures TranchesOf(Apply(w, now, call).value.ledger, maintainer) == TranchesOf(w.ledger, maintainer)
  {
    hide Active, UseNonce, Vested, Move, TrancheTotal, Owed;
  }

  lemma AllocationStep(w: World, e: Event, maintainer: Address)
    requires Rooted(w.ledger)
    ensures TranchesOf(Next(w, e).ledger, maintainer) == TranchesOf(w.ledger, maintainer) + Allocated(w, e, maintainer)
  {
    hide Apply, BatchShare, TrancheTotal;
    if e.Invoked? && Apply(w, e.now, e.call).Ok? {
      var now, call := e.now, e.call;
      if call.Allocate? || call.BatchAllocate? {
        AllocationLands(w, now, call, maintainer);
      } else if call.Claim? || call.AddMaintainer? {
        OthersKeepTranches(w, now, call, maintainer);
      } else {
        CallTouches(w, now, call);
      }
    }
  }

  lemma {:induction false} AllocationsAddUp(w: World, events: seq<Event>, maintainer: Address)
    requires Sound(w.ledger)
    ensures TranchesOf(Run(w, events).ledger, maintainer)
        == TranchesOf(w.ledger, maintainer) + TotalAllocated(w, events, maintainer)
  {
    hide Next, Allocated, TranchesOf, Sound, Rooted;
    if events != [] {
      var k := |events| - 1;
      AllocationsAddUp(w, events[..k], maintainer);
      SurplusNeverFalls(w, events[..k]);
      SoundIsRooted(Run(w, events[..k]).ledger);
      AllocationStep(Run(w, events[..k]), events[k], maintainer);
    }
  }

  /** In every run a maintainer is still owed exactly what was allocated less what was paid out. */
  lemma MaintainersAreWhole(w: World, events: seq<Event>, maintainer: Address)
    requires Sound(w.ledger)
    ensures Owed(AccountOf(Run(w, events).ledger.accounts, maintainer)) ==
            Owed(AccountOf(w.ledger.accounts, maintainer))
              + TotalAllocated(w, events, maintainer) - ClaimFlows(w, events, maintainer)
  {
    hide Run, Sound, TrancheTotal, TotalAllocated, ClaimFlows;
    AllocationsAddUp(w, events, maintainer);
    ClaimsAreRecorded(w, events, maintainer);
  }

  // --- Time-locks -------------------------------------------------------------------------------------------------

  /** The tokens the registry takes in for a time-lock in one step, negative when it pays the lock out. */
  ghost function LockFlow(w: World, e: Event, key: (Address, nat)): int {
    if e.Invoked? && ((e.call.CreateVault? && (e.call.owner, e.call.maturity) == key)
                      || (e.call.ClaimVault? && (e.call.owner, e.call.maturity) == key))
    then Get(Next(w, e).tokens, SELF, 0) - Get(w.tokens, SELF, 0)
    else 0
  }

  ghost function LockFlows(w: World, events: seq<Event>, key: (Address, nat)): int {
    if events == [] then 0
    else
      var k := |events| - 1;
      LockFlows(w, events[..k], key) + LockFlow(Run(w, events[..k]), events[k], key)
  }

  /** A lock grows by what its payer transfers, and is paid out whole, once, and not before its maturity. */
  lemma LockCall(w: World, now: nat, call: Call, key: (Address, nat))
    requires (call.CreateVault? || call.ClaimVault?) && Apply(w, now, call).Ok?
    ensures var after := Apply(w, now, call).value;
            && Get(after.ledger.timeLocks, key, 0) == Get(w.ledger.timeLocks, key, 0)
                 + (if (call.owner, call.maturity) == key then Get(after.tokens, SELF, 0) - Get(w.tokens, SELF, 0)
                    else 0)
            && (call.ClaimVault? ==> call.maturity <= now && (call.owner, call.maturity) !in after.ledger.timeLocks)
  {
    hide Active, Move;
    if call.CreateVault? {
      MoveOwn(w.tokens, call.from, SELF, call.amount);
    } else {
      MoveOwn(w.tokens, SELF, call.owner, w.ledger.timeLocks[(call.owner, call.maturity)]);
    }
  }

  lemma LockStep(w: World, e: Event, key: (Address, nat))
    ensures Get(Next(w, e).ledger.timeLocks, key, 0) == Get(w.ledger.timeLocks, key, 0) + LockFlow(w, e, key)
  {
    hide Apply;
    if e.Invoked? && Apply(w, e.now, e.call).Ok? {
      if e.call.CreateVault? || e.call.ClaimVault? {
        LockCall(w, e.now, e.call, key);
      } else {
        CallTouches(w, e.now, e.call);
      }
    }
  }

  /** In every run a time-lock holds what was paid into it less what was paid out of it. */
  lemma {:induction false} LocksAreWhole(w: World, events: seq<Event>, key: (Address, nat))
    ensures Get(Run(w, events).ledger.timeLocks, key, 0) == Get(w.ledger.timeLocks, key, 0) + LockFlows(w, events, key)
  {
    hide Next, LockFlow;
    if events != [] {
      var k := |events| - 1;
      LocksAreWhole(w, events[..k], key);
      LockStep(Run(w, events[..k]), events[k], key);
    }
  }
}
