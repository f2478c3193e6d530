// What the payout registry promises its holders, maintainers, projects and callers over whole runs.

module LedgerLaws {
  import opened Common
  import opened Sums
  import opened SquareRoots
  import opened Rounding
  import opened VestingSearch
  import opened Ledger
  import opened Solvency

  lemma MoveParties(tokens: Tokens, from: Address, to: Address, amount: int)
    requires from != to && Move(tokens, from, to, amount).Ok?
    ensures var after := Move(tokens, from, to, amount).value;
            && Get(after, from, 0) == Get(tokens, from, 0) - amount
            && Get(after, to, 0) == Get(tokens, to, 0) + amount
  {
  }

  lemma MoveSucceeds(tokens: Tokens, from: Address, to: Address, amount: int)
    requires from != to && 0 <= amount <= Get(tokens, from, 0) && Get(tokens, to, 0) + amount <= I128_MAX
    ensures Move(tokens, from, to, amount).Ok?
  {
  }

  // --- Vault holders ------------------------------------------------------------------------------------------

  /** The tokens a holder puts into the vault in one step, negative for a withdrawal. */
  ghost function VaultFlow(w: World, e: Event, holder: Address): int {
    if e.Invoked? && ((e.call.VaultDeposit? && e.call.from == holder)
                      || (e.call.VaultWithdraw? && e.call.from == holder))
    then Get(w.tokens, holder, 0) - Get(Next(w, e).tokens, holder, 0)
    else 0
  }

  ghost function VaultFlows(w: World, events: seq<Event>, holder: Address): int {
    if events == [] then 0
    else
      var k := |events| - 1;
      VaultFlows(w, events[..k], holder) + VaultFlow(Run(w, events[..k]), events[k], holder)
  }

  lemma DepositFlow(w: World, now: nat, call: Call, holder: Address)
    requires call.VaultDeposit? && Apply(w, now, call).Ok?
    ensures var after := Apply(w, now, call).value;
            Get(after.ledger.shares, holder, 0) == Get(w.ledger.shares, holder, 0)
              + (if call.from == holder then Get(w.tokens, holder, 0) - Get(after.tokens, holder, 0) else 0)
  {
    hide Sum, ConversionFits, Move, Active, Amount;
    MoveParties(w.tokens, call.from, SELF, call.assets);
  }

  lemma WithdrawFlow(w: World, now: nat, call: Call, holder: Address)
    requires call.VaultWithdraw? && Apply(w, now, call).Ok?
    ensures var after := Apply(w, now, call).value;
            Get(after.ledger.shares, holder, 0) == Get(w.ledger.shares, holder, 0)
              + (if call.from == holder then Get(w.tokens, holder, 0) - Get(after.tokens, holder, 0) else 0)
  {
    hide Sum, ConversionFits, Move, Active;
    MoveParties(w.tokens, SELF, call.from, call.burned);
  }

  lemma {:induction false} MatchesKeepTheRest(l: Ledger, projects: seq<Symbol>, parts: seq<int>)
    requires |parts| == |projects| && PayMatches(l, projects, parts).Ok?
    ensures var paid := PayMatches(l, projects, parts).value;
            paid == l.(matched := paid.matched, budgets := paid.budgets)
  {
    if projects != [] {
      var k := |projects| - 1;
      MatchesKeepTheRest(l, projects[..k], parts[..k]);
    }
  }

  /** Only some calls touch the shares, contributions, nonces, accounts, budgets and time-locks. */
  ghost predicate Touches(call: Call, before: Ledger, after: Ledger) {
    && (call.VaultDeposit? || call.VaultWithdraw? || after.shares == before.shares)
    && (call.Contribute? || after.contributions == before.contributions)
    && (call.FundOrg? || call.Contribute? || call.Claim? || after.nonces == before.nonces)
    && (call.Allocate? || call.BatchAllocate? || call.Claim? || call.AddMaintainer?
        || after.accounts == before.accounts)
    && (call.RegisterOrg? || call.FundOrg? || call.Contribute? || call.Distribute? || call.Allocate?
        || call.BatchAllocate? || after.budgets == before.budgets)
    && (call.CreateVault? || call.ClaimVault? || after.timeLocks == before.timeLocks)
  }

  lemma AdministrationTouches(w: World, now: nat, call: Call)
    requires Administration(call) && Apply(w, now, call).Ok?
    ensures Touches(call, w.ledger, Apply(w, now, call).value.ledger)
  {
  }

  lemma DistributeTouches(w: World, admin: Address, projects: seq<Symbol>, call: Call)
    requires call.Distribute? && ApplyDistribute(w, admin, projects).Ok?
    ensures Touches(call, w.ledger, ApplyDistribute(w, admin, projects).value.ledger)
  {
    hide Preview, PayMatches;
    MatchesKeepTheRest(w.ledger, projects, Preview(w.ledger, projects).value);
  }

  lemma FundsTouch(w: World, now: nat, call: Call)
    requires call.FundOrg? || call.DepositPool?
    requires Apply(w, now, call).Ok?
    ensures Touches(call, w.ledger, Apply(w, now, call).value.ledger)
  {
    hide Credit, Move, UseNonce, Amount, Active;
  }

  lemma LocksTouch(w: World, now: nat, call: Call)
    requires call.CreateVault? || call.ClaimVault?
    requires Apply(w, now, call).Ok?
    ensures Touches(call, w.ledger, Apply(w, now, call).value.ledger)
  {
    hide Move, Active;
  }

  lemma LoansTouch(w: World, now: nat, call: Call)
    requires call.FlashLoan? && Apply(w, now, call).Ok?
    ensures Touches(call, w.ledger, Apply(w, now, call).value.ledger)
  {
    hide Move, AfterCallback, Amount, Active, Fee;
  }

  lemma ContributionsTouch(w: World, now: nat, call: Call)
    requires call.Contribute? && Apply(w, now, call).Ok?
    ensures Touches(call, w.ledger, Apply(w, now, call).value.ledger)
  {
    hide StatsFit, Credit, Move, UseNonce, MayContribute, ContributionsTo;
  }

  lemma AllocationsTouch(w: World, now: nat, call: Call)
    requires call.Allocate? || call.BatchAllocate?
    requires Apply(w, now, call).Ok?
    ensures Touches(call, w.ledger, Apply(w, now, call).value.ledger)
  {
    hide ScheduleTotal, BatchTotal, GrantAll, Grant, Debit, Amount, Active, OrgAdmin, Employed;
  }

  lemma ClaimsTouch(w: World, now: nat, call: Call)
    requires call.Claim? && Apply(w, now, call).Ok?
    ensures Touches(call, w.ledger, Apply(w, now, call).value.ledger)
  {
    hide Move, UseNonce, Active, Vested, Owed, AccountOf;
  }

  lemma VaultTouches(w: World, now: nat, call: Call)
    requires call.VaultDeposit? || call.VaultWithdraw?
    requires Apply(w, now, call).Ok?
    ensures Touches(call, w.ledger, Apply(w, now, call).value.ledger)
  {
    hide Sum, Move, Amount, Active, ConversionFits;
  }

  lemma CallTouches(w: World, now: nat, call: Call)
    requires Apply(w, now, call).Ok?
    ensures Touches(call, w.ledger, Apply(w, now, call).value.ledger)
  {
    if call.Distribute? {
      hide ApplyDistribute;
      DistributeTouches(w, call.admin, call.projects, call);
    } else {
      hide Apply, Touches;
      if Administration(call) {
        AdministrationTouches(w, now, call);
      } else if call.FundOrg? || call.DepositPool? {
        FundsTouch(w, now, call);
      } else if call.CreateVault? || call.ClaimVault? {
        LocksTouch(w, now, call);
      } else if call.FlashLoan? {
        LoansTouch(w, now, call);
      } else if call.Contribute? {
        ContributionsTouch(w, now, call);
      } else if call.Allocate? || call.BatchAllocate? {
        AllocationsTouch(w, now, call);
      } else if call.Claim? {
        ClaimsTouch(w, now, call);
      } else {
        VaultTouches(w, now, call);
      }
    }
  }

  lemma VaultStep(w: World, e: Event, holder: Address)
    ensures Get(Next(w, e).ledger.shares, holder, 0) == Get(w.ledger.shares, holder, 0) + VaultFlow(w, e, holder)
  {
    match e
    case Transferred(_, _, _) =>
    case Invoked(now, call) =>
      hide Apply;
      if Apply(w, now, call).Ok? {
        match call
        case VaultDeposit(_, _) => DepositFlow(w, now, call, holder);
        case VaultWithdraw(_, _) => WithdrawFlow(w, now, call, holder);
        case _ => CallTouches(w, now, call);
      }
  }

  /** In every run a holder's shares are the tokens put into the vault minus the tokens taken out. */
  lemma {:induction false} HoldersAreWhole(w: World, events: seq<Event>, holder: Address)
    ensures Get(Run(w, events).ledger.shares, holder, 0)
        == Get(w.ledger.shares, holder, 0) + VaultFlows(w, events, holder)
  {
    hide Next, VaultFlow;
    if events != [] {
      var k := |events| - 1;
      HoldersAreWhole(w, events[..k], holder);
      VaultStep(Run(w, events[..k]), events[k], holder);
    }
  }

  // --- Maintainers ------------------------------------------------------------------------------------------------

  /** The tokens a maintainer receives by claiming in one step. */
  ghost function ClaimFlow(w: World, e: Event, maintainer: Address): int {
    if e.Invoked? && e.call.Claim? && e.call.maintainer == maintainer
    then Get(Next(w, e).tokens, maintainer, 0) - Get(w.tokens, maintainer, 0)
    else 0
  }

  ghost function ClaimFlows(w: World, events: seq<Event>, maintainer: Address): int {
    if events == [] then 0
    else
      var k := |events| - 1;
      ClaimFlows(w, events[..k], maintainer) + ClaimFlow(Run(w, events[..k]), events[k], maintainer)
  }

  function ClaimedBy(l: Ledger, maintainer: Address): int {
    AccountOf(l.accounts, maintainer).claimed
  }

  lemma ClaimStep(w: World, now: nat, call: Call, maintainer: Address)
    requires call.Claim? && Apply(w, now, call).Ok?
    ensures var after := Apply(w, now, call).value;
            ClaimedBy(after.ledger, maintainer) == ClaimedBy(w.ledger, maintainer)
              + (if call.maintainer == maintainer then Get(after.tokens, maintainer, 0) - Get(w.tokens, maintainer, 0)
                 else 0)
  {
    hide Vested, UseNonce, Move, TrancheTotal, Active;
    var account := AccountOf(w.ledger.accounts, call.maintainer);
    MoveParties(w.tokens, SELF, call.maintainer, Vested(account.tranches, now).value - account.claimed);
  }

  lemma {:induction false} GrantsKeepClaims(accounts: map<Address, Account>, payouts: seq<PayoutParams>,
                                            maintainer: Address)
    requires GrantAll(accounts, payouts).Ok?
    ensures AccountOf(GrantAll(accounts, payouts).value, maintainer).claimed == AccountOf(accounts, maintainer).claimed
  {
    hide Owed;
    if payouts != [] {
      GrantsKeepClaims(accounts, payouts[..|payouts| - 1], maintainer);
    }
  }

  lemma GrantingKeepsClaims(w: World, now: nat, call: Call, maintainer: Address)
    requires call.Allocate? || call.BatchAllocate? || (call.AddMaintainer? && Rooted(w.ledger))
    requires Apply(w, now, call).Ok?
    ensures ClaimedBy(Apply(w, now, call).value.ledger, maintainer) == ClaimedBy(w.ledger, maintainer)
  {
    hide ScheduleTotal, BatchTotal, GrantAll, Debit, Owed, OrgAdmin, Employed, Active, Amount;
    if call.BatchAllocate? {
      GrantsKeepClaims(w.ledger.accounts, call.payouts, maintainer);
    }
  }

  lemma OthersKeepClaims(w: World, now: nat, call: Call, maintainer: Address)
    requires Rooted(w.ledger) && Apply(w, now, call).Ok? && !call.Claim?
    ensures ClaimedBy(Apply(w, now, call).value.ledger, maintainer) == ClaimedBy(w.ledger, maintainer)
  {
    hide Apply;
    if call.Allocate? || call.BatchAllocate? || call.AddMaintainer? {
      GrantingKeepsClaims(w, now, call, maintainer);
    } else {
      CallTouches(w, now, call);
    }
  }

  lemma ClaimFlowStep(w: World, e: Event, maintainer: Address)
    requires Sound(w.ledger)
    ensures ClaimedBy(Next(w, e).ledger, maintainer) == ClaimedBy(w.ledger, maintainer) + ClaimFlow(w, e, maintainer)
  {
    match e
    case Transferred(_, _, _) =>
    case Invoked(now, call) =>
      hide Apply, ClaimedBy;
      if Apply(w, now, call).Ok? {
        if call.Claim? {
          ClaimStep(w, now, call, maintainer);
        } else {
          OthersKeepClaims(w, now, call, maintainer);
        }
      }
  }

  /** In every run what a maintainer has been paid is what the account records as claimed. */
  lemma {:induction false} ClaimsAreRecorded(w: World, events: seq<Event>, maintainer: Address)
    requires Sound(w.ledger)
    ensures ClaimedBy(Run(w, events).ledger, maintainer)
        == ClaimedBy(w.ledger, maintainer) + ClaimFlows(w, events, maintainer)
  {
    hide Next, ClaimFlow, ClaimedBy, Sound;
    if events != [] {
      var k := |events| - 1;
      ClaimsAreRecorded(w, events[..k], maintainer);
      SurplusNeverFalls(w, events[..k]);
      ClaimFlowStep(Run(w, events[..k]), events[k], maintainer);
    }
  }

  lemma {:induction false} PositiveSumsFit(s: Schedule, k: nat)
    requires k <= |s| && forall i :: 0 <= i < |s| ==> s[i].amount > 0
    ensures SumsFit(s, k) <==> PrefixSum(s, k) <= I128_MAX
  {
    PrefixSumMonotone(s, 0, k);
    forall j | 0 <= j <= k
      ensures 0 <= PrefixSum(s, j) <= PrefixSum(s, k)
    {
      PrefixSumMonotone(s, 0, j);
      PrefixSumMonotone(s, j, k);
    }
  }

  lemma OwedWithinLiabilities(l: Ledger, maintainer: Address)
    requires Sound(l)
    ensures 0 <= Owed(AccountOf(l.accounts, maintainer)) <= Liabilities(l)
  {
    AccountOfSound(l.accounts, maintainer);
    assert NonNegative(OwedBy(l.accounts)) by {
      forall m | m in l.accounts
        ensures OwedBy(l.accounts)[m] >= 0
      {
        assert AccountSound(l.accounts[m]);
      }
    }
    hide Sum, TrancheTotal;
    SumAtLeast(OwedBy(l.accounts), maintainer);
    SumNonNegative(l.budgets);
    SumNonNegative(l.shares);
    SumNonNegative(l.timeLocks);
  }

  /**
    * Once every tranche has matured, a claim is accepted exactly when the sum of all tranches ever allocated still
    * fits, and it pays everything that is left. The funds are always there.
    */
  lemma MaturedClaimPaysAll(w: World, now: nat, maintainer: Address, nonce: Option<nat>)
    requires Sound(w.ledger) && Surplus(w) >= 0 && Active(w.ledger.config).Pass? && maintainer != SELF
    requires UseNonce(w.ledger.nonces, maintainer, nonce).Ok?
    requires var account := AccountOf(w.ledger.accounts, maintainer);
             && Owed(account) > 0
             && (forall i :: 0 <= i < |account.tranches| ==> account.tranches[i].unlockTimestamp <= now)
             && Get(w.tokens, maintainer, 0) + Owed(account) <= I128_MAX
    ensures var account, r := AccountOf(w.ledger.accounts, maintainer), ApplyClaim(w, now, maintainer, nonce);
            && (r.Ok? <==> TrancheTotal(account.tranches) <= I128_MAX)
            && (r.Err? ==> r.error == PayoutOverflow)
            && (r.Ok? ==> Owed(AccountOf(r.value.ledger.accounts, maintainer)) == 0)
            && (r.Ok? ==> Get(r.value.tokens, maintainer, 0) == Get(w.tokens, maintainer, 0) + Owed(account))
  {
    hide Sum, Vested, PrefixSum, TrancheTotal, Sound, Liabilities, Active, UseNonce, Move, AccountSound;
    var account := AccountOf(w.ledger.accounts, maintainer);
    SoundAccount(w.ledger, maintainer);
    VestedWhenMatured(account, now);
    OwedWithinLiabilities(w.ledger, maintainer);
    MoveSucceeds(w.tokens, SELF, maintainer, Owed(account));
    MoveParties(w.tokens, SELF, maintainer, Owed(account));
  }

  lemma SoundAccount(l: Ledger, maintainer: Address)
    requires Sound(l)
    ensures AccountSound(AccountOf(l.accounts, maintainer))
  {
    hide AccountSound;
    AccountOfSound(l.accounts, maintainer);
  }

  lemma VestedWhenMatured(account: Account, now: nat)
    requires AccountSound(account) && forall i :: 0 <= i < |account.tranches| ==>
        account.tranches[i].unlockTimestamp <= now
    ensures Vested(account.tranches, now) ==
            if TrancheTotal(account.tranches) <= I128_MAX then Some(TrancheTotal(account.tranches)) else None
  {
    AllMatured(account.tranches, now);
    CheckedSumExact(account.tranches, |account.tranches|);
    PositiveSumsFit(account.tranches, |account.tranches|);
  }

  // --- Quadratic funding ------------------------------------------------------------------------------------------

  /** What a contributor gives to a project in one step. */
  ghost function Given(w: World, e: Event, project: Symbol, who: Address): int {
    if e.Invoked? && e.call.Contribute? && e.call.project == project && e.call.from == who
        && Apply(w, e.now, e.call).Ok?
    then e.call.amount
    else 0
  }

  ghost function TotalGiven(w: World, events: seq<Event>, project: Symbol, who: Address): int {
    if events == [] then 0
    else
      var k := |events| - 1;
      TotalGiven(w, events[..k], project, who) + Given(Run(w, events[..k]), events[k], project, who)
  }

  lemma ContributeAdds(w: World, now: nat, call: Call, project: Symbol, who: Address)
    requires call.Contribute? && Apply(w, now, call).Ok?
    ensures Get(ContributionsTo(Apply(w, now, call).value.ledger, project), who, 0) ==
            Get(ContributionsTo(w.ledger, project), who, 0)
                + (if call.project == project && call.from == who then call.amount else 0)
  {
    hide StatsFit, UseNonce, Credit, Move, Active, Amount;
  }

  lemma GivenStep(w: World, e: Event, project: Symbol, who: Address)
    ensures Get(ContributionsTo(Next(w, e).ledger, project), who, 0) ==
            Get(ContributionsTo(w.ledger, project), who, 0) + Given(w, e, project, who)
  {
    match e
    case Transferred(_, _, _) =>
    case Invoked(now, call) =>
      hide Apply, ContributionsTo, Touches;
      if Apply(w, now, call).Ok? {
        if call.Contribute? {
          ContributeAdds(w, now, call, project, who);
        } else {
          CallTouches(w, now, call);
          SameContributions(call, w.ledger, Next(w, e).ledger, project);
        }
      }
  }

  lemma SameContributions(call: Call, l: Ledger, after: Ledger, project: Symbol)
    requires Touches(call, l, after) && !call.Contribute?
    ensures ContributionsTo(l, project) == ContributionsTo(after, project)
  {
  }

  /** In every run the stored contribution is the sum of the accepted ones. */
  lemma {:induction false} ContributionsAddUp(w: World, events: seq<Event>, project: Symbol, who: Address)
    ensures Get(ContributionsTo(Run(w, events).ledger, project), who, 0) ==
            Get(ContributionsTo(w.ledger, project), who, 0) + TotalGiven(w, events, project, who)
  {
    hide Next, Given, ContributionsTo;
    if events != [] {
      var k := |events| - 1;
      ContributionsAddUp(w, events[..k], project, who);
      GivenStep(Run(w, events[..k]), events[k], project, who);
    }
  }

  /**
    * Two runs from a new registry in which every contributor gives a project the same in total leave the same
    * contributions, hence the same statistics and weight, in whatever order and portions it was given.
    */
  lemma OrderAndSplittingIrrelevant(tokens: Tokens, events: seq<Event>, tokens': Tokens, events': seq<Event>,
                                    project: Symbol)
    requires forall who :: TotalGiven(World(NewLedger(), tokens), events, project, who)
                        == TotalGiven(World(NewLedger(), tokens'), events', project, who)
    ensures ContributionsTo(Run(World(NewLedger(), tokens), events).ledger, project)
         == ContributionsTo(Run(World(NewLedger(), tokens'), events').ledger, project)
  {
    var w, w' := World(NewLedger(), tokens), World(NewLedger(), tokens');
    var c := ContributionsTo(Run(w, events).ledger, project);
    var c' := ContributionsTo(Run(w', events').ledger, project);
    NewLedgerSound();
    SurplusNeverFalls(w, events);
    SurplusNeverFalls(w', events');
    hide Run, TotalGiven;
    forall who
      ensures Get(c, who, 0) == Get(c', who, 0)
      ensures who in c ==> c[who] > 0
      ensures who in c' ==> c'[who] > 0
    {
      ContributionsAddUp(w, events, project, who);
      ContributionsAddUp(w', events', project, who);
    }
    SameMaps(c, c');
  }

  lemma SameMaps(c: map<Address, int>, d: map<Address, int>)
    requires forall who :: Get(c, who, 0) == Get(d, who, 0) && (who in c ==> c[who] > 0) && (who in d ==> d[who] > 0)
    ensures c == d
  {
    forall who
      ensures who in c <==> who in d
      ensures who in c && who in d ==> c[who] == d[who]
    {
      assert Get(c, who, 0) == Get(d, who, 0);
    }
  }

  /** The weight of a project is at most the number of its contributors times what they gave directly. */
  lemma WeightBound(contributions: map<Address, int>)
    requires forall who :: who in contributions ==> contributions[who] >= 0
    ensures Weight(contributions) <= |contributions| * Sum(contributions)
  {
    var roots := Roots(contributions);
    assert roots.Keys == contributions.Keys;
    SameSize(roots, contributions);
    hide Sum;
    forall who | who in roots
      ensures roots[who] >= 0 && roots[who] * roots[who] <= contributions[who]
    {
    }
    hide Root, Roots;
    CauchySchwarz(roots, contributions);
  }

  lemma EqualRoots(contributions: map<Address, int>, c: nat)
    requires forall a :: a in contributions ==> contributions[a] == c
    ensures RootSum(contributions) == |contributions| * Root(c)
  {
    hide Root, Sum;
    var roots := Roots(contributions);
    assert roots.Keys == contributions.Keys;
    SameSize(roots, contributions);
    SumOfEqual(roots, Root(c));
  }

  lemma RootSquare(c: nat)
    ensures Root(c) * Root(c) <= c
  {
  }

  /** Equal contributions weigh the square of their number times what one of them weighs alone. */
  lemma EqualContributions(contributions: map<Address, int>, c: nat, who: Address)
    requires forall a :: a in contributions ==> contributions[a] == c
    ensures Weight(contributions) == |contributions| * |contributions| * Weight(map[who := c])
    ensures Weight(map[who := c]) <= c
  {
    hide Root, RootSum;
    EqualRoots(contributions, c);
    EqualRoots(map[who := c], c);
    RootSquare(c);
    SquareOfProduct(|contributions|, Root(c));
  }

  lemma SquareOfProduct(n: int, r: int)
    ensures (n * r) * (n * r) == n * n * (r * r)
  {
  }

  lemma SameSize<A, B>(a: map<Address, A>, b: map<Address, B>)
    requires a.Keys == b.Keys
    ensures |a| == |b|
  {
    assert |a| == |a.Keys| && |b| == |b.Keys|;
  }

  // --- Distribution -----------------------------------------------------------------------------------------------

  lemma {:induction false} MatchesLand(l: Ledger, projects: seq<Symbol>, parts: seq<int>)
    requires |parts| == |projects| && PayMatches(l, projects, parts).Ok? && Unique(projects)
    requires forall i :: 0 <= i < |parts| ==> parts[i] >= 0
    ensures var budgets := PayMatches(l, projects, parts).value.budgets;
            && (forall i :: 0 <= i < |projects| ==>
                Get(budgets, projects[i], 0) == Get(l.budgets, projects[i], 0) + parts[i])
            && (forall p :: p !in projects ==> Get(budgets, p, 0) == Get(l.budgets, p, 0))
  {
    if projects != [] {
      var k := |projects| - 1;
      UniquePrefix(projects);
      hide Unique;
      MatchesLand(l, projects[..k], parts[..k]);
      var before := PayMatches(l, projects[..k], parts[..k]).value.budgets;
      var budgets := PayMatches(l, projects, parts).value.budgets;
      forall p
        ensures Get(budgets, p, 0) == Get(before, p, 0) + (if p == projects[k] then parts[k] else 0)
      {
      }
      hide PayMatches;
      forall i | 0 <= i < k
        ensures Get(budgets, projects[i], 0) == Get(l.budgets, projects[i], 0) + parts[i]
      {
        assert projects[..k][i] == projects[i] && parts[..k][i] == parts[i];
      }
    }
  }

  lemma UniquePrefix(projects: seq<Symbol>)
    requires Unique(projects) && projects != []
    ensures var k := |projects| - 1; Unique(projects[..k]) && projects[k] !in projects[..k]
    ensures forall i :: 0 <= i < |projects| - 1 ==> projects[i] != projects[|projects| - 1]
  {
  }

  /**
    * A distribution moves pool money into budgets: each project gets exactly its floored share, no other budget
    * changes, the budgets grow by what the pool loses, and less than one unit per project stays behind.
    */
  lemma DistributionConserves(w: World, admin: Address, projects: seq<Symbol>)
    requires Sound(w.ledger) && ApplyDistribute(w, admin, projects).Ok?
    ensures var l, after := w.ledger, ApplyDistribute(w, admin, projects).value.ledger;
            var weights := Weights(l, projects);
            && Sum(after.budgets) - Sum(l.budgets) == l.pool - after.pool
            && 0 <= after.pool < |projects| && after.pool <= l.pool
            && (forall i :: 0 <= i < |projects| ==>
                  IsFloor(l.pool * weights[i], Total(weights),
                          Get(after.budgets, projects[i], 0) - Get(l.budgets, projects[i], 0)))
            && (forall p :: p !in projects ==> Get(after.budgets, p, 0) == Get(l.budgets, p, 0))
  {
    hide Sum, Total, Weight, IsFloor, Sound, ApplyDistribute, Preview, Unique, PayMatches, Weights;
    var l := w.ledger;
    DistributeSteps(w, admin, projects);
    var parts := Preview(l, projects).value;
    SoundBudgets(l);
    PreviewWithinPool(l, projects);
    PreviewFloors(l, projects);
    PayMatchesSum(l, projects, parts);
    MatchesLand(l, projects, parts);
  }

  lemma DistributeSteps(w: World, admin: Address, projects: seq<Symbol>)
    requires ApplyDistribute(w, admin, projects).Ok?
    ensures Preview(w.ledger, projects).Ok? && Unique(projects)
    ensures var parts := Preview(w.ledger, projects).value;
            && |parts| == |projects| && PayMatches(w.ledger, projects, parts).Ok?
            && ApplyDistribute(w, admin, projects).value ==
                 w.(ledger := PayMatches(w.ledger, projects, parts).value.(pool := w.ledger.pool - Total(parts)))
  {
    hide Weights, Total, Unique, PayMatches, Floors;
  }

  lemma SoundBudgets(l: Ledger)
    requires Sound(l)
    ensures NonNegative(l.budgets) && Rooted(l) && l.pool >= 0
  {
  }

  lemma PreviewFloors(l: Ledger, projects: seq<Symbol>)
    requires Preview(l, projects).Ok?
    ensures var weights, parts := Weights(l, projects), Preview(l, projects).value;
            |parts| == |weights| && forall i :: 0 <= i < |projects| ==>
                IsFloor(l.pool * weights[i], Total(weights), parts[i])
  {
    hide Weight, IsFloor, Unique, RootSum, Total;
    var weights, parts := Weights(l, projects), Preview(l, projects).value;
    assert |parts| == |projects| && Total(weights) > 0 && l.pool > 0;
    assert forall i :: 0 <= i < |projects| ==> parts[i] == (l.pool * weights[i]) / Total(weights);
    forall i | 0 <= i < |projects|
      ensures IsFloor(l.pool * weights[i], Total(weights), parts[i])
    {
      hide Preview;
      RootSumNonNegative(ContributionsTo(l, projects[i]));
      PartFacts(l.pool, weights[i], Total(weights));
    }
  }

  // --- Replay protection --------------------------------------------------------------------------------------------

  /** The caller and the nonce a call consumes. */
  function NonceOf(call: Call): Option<(Address, nat)> {
    match call
    case FundOrg(_, from, _, nonce) => if nonce.Some? then Some((from, nonce.value)) else None
    case Contribute(_, from, _, nonce) => if nonce.Some? then Some((from, nonce.value)) else None
    case Claim(maintainer, nonce) => if nonce.Some? then Some((maintainer, nonce.value)) else None
    case _ => None
  }

  lemma NonceUsed(nonces: map<Address, nat>, caller: Address, expected: Option<nat>)
    requires UseNonce(nonces, caller, expected).Ok?
    ensures var after := UseNonce(nonces, caller, expected).value;
            && (forall a :: Get(after, a, 0) >= Get(nonces, a, 0))
            && (expected.Some? ==>
                Get(nonces, caller, 0) == expected.value && Get(after, caller, 0) == expected.value + 1)
  {
  }

  /** An accepted call consumes exactly the current nonce; nonces never go back. */
  lemma CallConsumesNonce(w: World, now: nat, call: Call)
    requires Apply(w, now, call).Ok?
    ensures var after := Apply(w, now, call).value;
            && (forall a :: Get(after.ledger.nonces, a, 0) >= Get(w.ledger.nonces, a, 0))
            && (NonceOf(call).Some? ==>
                  var (caller, nonce) := NonceOf(call).value;
                  Get(w.ledger.nonces, caller, 0) == nonce && Get(after.ledger.nonces, caller, 0) == nonce + 1)
  {
    hide UseNonce, Apply;
    if call.FundOrg? || call.Contribute? || call.Claim? {
      var caller, nonce := Caller(call), call.nonce;
      NonceGoesThrough(w, now, call);
      NonceUsed(w.ledger.nonces, caller, nonce);
    } else {
      CallTouches(w, now, call);
    }
  }

  function Caller(call: Call): Address
    requires call.FundOrg? || call.Contribute? || call.Claim?
  {
    if call.Claim? then call.maintainer else call.from
  }

  lemma NonceGoesThrough(w: World, now: nat, call: Call)
    requires (call.FundOrg? || call.Contribute? || call.Claim?) && Apply(w, now, call).Ok?
    ensures UseNonce(w.ledger.nonces, Caller(call), call.nonce) == Ok(Apply(w, now, call).value.ledger.nonces)
  {
    hide UseNonce, StatsFit, Vested, Owed, Credit, Move, Amount, Active;
  }

  lemma NoncesGrowStep(w: World, e: Event, caller: Address)
    ensures Get(Next(w, e).ledger.nonces, caller, 0) >= Get(w.ledger.nonces, caller, 0)
  {
    hide Apply;
    if e.Invoked? && Apply(w, e.now, e.call).Ok? {
      CallConsumesNonce(w, e.now, e.call);
    }
  }

  lemma {:induction false} NoncesGrow(w: World, events: seq<Event>, i: nat, caller: Address)
    requires i <= |events|
    ensures Get(Run(w, events).ledger.nonces, caller, 0) >= Get(Run(w, events[..i]).ledger.nonces, caller, 0)
    decreases |events|
  {
    hide Next;
    if i < |events| {
      var k := |events| - 1;
      assert events[..k][..i] == events[..i];
      NoncesGrow(w, events[..k], i, caller);
      NoncesGrowStep(Run(w, events[..k]), events[k], caller);
    } else {
      assert events[..i] == events;
    }
  }

  ghost predicate Accepted(w: World, events: seq<Event>, i: nat)
    requires i < |events| && events[i].Invoked?
  {
    Apply(Run(w, events[..i]), events[i].now, events[i].call).Ok?
  }

  /** No nonce is ever accepted twice from the same caller, whatever happens in between. */
  lemma NonceNeverReplayed(w: World, events: seq<Event>, i: nat, j: nat)
    requires i < j < |events| && events[i].Invoked? && events[j].Invoked?
    requires NonceOf(events[i].call).Some? && NonceOf(events[i].call) == NonceOf(events[j].call)
    ensures !(Accepted(w, events, i) && Accepted(w, events, j))
  {
    hide Apply, Run;
    if Accepted(w, events, i) && Accepted(w, events, j) {
      var (caller, nonce) := NonceOf(events[i].call).value;
      CallConsumesNonce(Run(w, events[..i]), events[i].now, events[i].call);
      CallConsumesNonce(Run(w, events[..j]), events[j].now, events[j].call);
      RunStep(w, events, i);
      assert events[..j][..i + 1] == events[..i + 1];
      NoncesGrow(w, events[..j], i + 1, caller);
    }
  }

  lemma RunStep(w: World, events: seq<Event>, i: nat)
    requires i < |events|
    ensures Run(w, events[..i + 1]) == Next(Run(w, events[..i]), events[i])
  {
    assert events[..i + 1][..i] == events[..i];
  }
}
