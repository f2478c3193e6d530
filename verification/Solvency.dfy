// Solvency of the payout registry: in every run its token balance covers everything it owes.

module Solvency {
  import opened Common
  import opened Sums
  import opened Rounding
  import opened VestingSearch
  import opened Ledger

  ghost predicate NonNegative<K(!new)>(m: map<K, int>) {
    forall k :: k in m ==> m[k] >= 0
  }

  ghost predicate AccountSound(a: Account) {
    0 <= a.claimed <= TrancheTotal(a.tranches) && forall i :: 0 <= i < |a.tranches| ==> a.tranches[i].amount > 0
  }

  ghost predicate AccountsSound(accounts: map<Address, Account>) {
    forall m :: m in accounts ==> AccountSound(accounts[m])
  }

  ghost predicate ContributionsSound(contributions: map<Symbol, map<Address, int>>) {
    forall p, c :: p in contributions && c in contributions[p] ==> contributions[p][c] > 0
  }

  /** Only registered organisations have budgets and contributions, only registered maintainers have accounts. */
  ghost predicate Rooted(l: Ledger) {
    l.budgets.Keys <= l.admins.Keys && l.contributions.Keys <= l.admins.Keys && l.accounts.Keys <= l.employers.Keys
  }

  /** No account of the registry is overdrawn, and no more has been claimed than was allocated. */
  ghost predicate Sound(l: Ledger) {
    && NonNegative(l.budgets) && AccountsSound(l.accounts) && l.pool >= 0 && NonNegative(l.shares)
    && NonNegative(l.timeLocks)
    && ContributionsSound(l.contributions) && 1 <= l.feeBps <= 1000
    && Rooted(l)
  }

  function OwedBy(accounts: map<Address, Account>): map<Address, int> {
    map m | m in accounts :: Owed(accounts[m])
  }

  /** Everything the registry owes. */
  ghost function Liabilities(l: Ledger): int {
    Sum(l.budgets) + Sum(OwedBy(l.accounts)) + l.pool + Sum(l.shares) + Sum(l.timeLocks)
  }

  /** What the registry holds beyond what it owes. */
  ghost function Surplus(w: World): int {
    Get(w.tokens, SELF, 0) - Liabilities(w.ledger)
  }

  // --- What the pieces do to the sums -----------------------------------------------------------------------

  lemma MoveOwn(tokens: Tokens, from: Address, to: Address, amount: int)
    requires Move(tokens, from, to, amount).Ok?
    ensures var after := Move(tokens, from, to, amount).value;
            Get(after, SELF, 0) == Get(tokens, SELF, 0)
                + (if to == SELF then amount else 0) - (if from == SELF then amount else 0)
    ensures amount >= 0
  {
  }

  lemma CreditSum(budgets: map<Symbol, int>, org: Symbol, amount: int)
    requires Credit(budgets, org, amount).Ok? && NonNegative(budgets) && amount >= 0
    ensures NonNegative(Credit(budgets, org, amount).value)
    ensures Sum(Credit(budgets, org, amount).value) == Sum(budgets) + amount
  {
    hide Sum;
    PutNonNegative(budgets, org, Get(budgets, org, 0) + amount);
  }

  lemma CreditKeys(budgets: map<Symbol, int>, org: Symbol, amount: int)
    ensures Credit(budgets, org, amount).Ok? ==> Credit(budgets, org, amount).value.Keys == budgets.Keys + {org}
    ensures Debit(budgets, org, amount).Ok? ==> Debit(budgets, org, amount).value.Keys == budgets.Keys + {org}
  {
  }

  lemma DebitSum(budgets: map<Symbol, int>, org: Symbol, amount: int)
    requires Debit(budgets, org, amount).Ok? && NonNegative(budgets)
    ensures NonNegative(Debit(budgets, org, amount).value)
    ensures Sum(Debit(budgets, org, amount).value) == Sum(budgets) - amount
  {
    hide Sum;
    PutNonNegative(budgets, org, Get(budgets, org, 0) - amount);
  }

  lemma OwedPut(accounts: map<Address, Account>, m: Address, a: Account)
    ensures Sum(OwedBy(accounts[m := a])) == Sum(OwedBy(accounts)) - Owed(AccountOf(accounts, m)) + Owed(a)
  {
    assert OwedBy(accounts[m := a]) == OwedBy(accounts)[m := Owed(a)];
    SumPut(OwedBy(accounts), m, Owed(a));
  }

  lemma AccountOfSound(accounts: map<Address, Account>, m: Address)
    requires AccountsSound(accounts)
    ensures AccountSound(AccountOf(accounts, m))
  {
  }

  lemma GrantSum(accounts: map<Address, Account>, m: Address, amount: int, tranches: Schedule)
    requires Grant(accounts, m, amount, tranches).Ok? && AccountsSound(accounts)
    requires TrancheTotal(tranches) == amount >= 0 && forall i :: 0 <= i < |tranches| ==> tranches[i].amount > 0
    ensures AccountsSound(Grant(accounts, m, amount, tranches).value)
    ensures Grant(accounts, m, amount, tranches).value.Keys == accounts.Keys + {m}
    ensures Sum(OwedBy(Grant(accounts, m, amount, tranches).value)) == Sum(OwedBy(accounts)) + amount
  {
    hide Sum, TrancheTotal, OwedBy;
    AccountOfSound(accounts, m);
    var before := AccountOf(accounts, m);
    var a := before.(tranches := before.tranches + tranches);
    TotalConcat(before.tranches, tranches);
    OwedPut(accounts, m, a);
  }

  /** A schedule is accepted exactly when its amounts are in bounds, its times sorted, and its sum fits. */
  lemma {:induction false} ScheduleAccepted(s: Schedule)
    ensures ScheduleTotal(s).Ok? <==>
      (forall i :: 0 <= i < |s| ==> 0 < s[i].amount <= MAX_AMOUNT_LIMIT) && Sorted(s) && TrancheTotal(s) <= I128_MAX
    ensures ScheduleTotal(s).Ok? ==> ScheduleTotal(s).value == TrancheTotal(s)
  {
    if s != [] {
      var k := |s| - 1;
      ScheduleAccepted(s[..k]);
      PrefixSumOf(s, s[..k], k);
      SortedByNeighbours(s);
    }
  }

  lemma SortedByNeighbours(s: Schedule)
    requires s != []
    ensures var k := |s| - 1;
            Sorted(s) <==> Sorted(s[..k]) && (k == 0 || s[k - 1].unlockTimestamp <= s[k].unlockTimestamp)
  {
    var k := |s| - 1;
    if Sorted(s[..k]) && (k == 0 || s[k - 1].unlockTimestamp <= s[k].unlockTimestamp) {
      forall i, j | 0 <= i < j < |s|
        ensures s[i].unlockTimestamp <= s[j].unlockTimestamp
      {
        if j < k {
          assert s[..k][i] == s[i] && s[..k][j] == s[j];
        } else if i < k - 1 {
          assert s[..k][i].unlockTimestamp <= s[..k][k - 1].unlockTimestamp;
        }
      }
    }
  }

  lemma {:induction false} GrantAllSum(accounts: map<Address, Account>, employers: map<Address, Symbol>, org: Symbol,
                                       payouts: seq<PayoutParams>)
    requires GrantAll(accounts, payouts).Ok? && BatchTotal(employers, org, payouts).Ok? && AccountsSound(accounts)
    requires accounts.Keys <= employers.Keys
    ensures AccountsSound(GrantAll(accounts, payouts).value) && BatchTotal(employers, org, payouts).value >= 0
    ensures GrantAll(accounts, payouts).value.Keys <= employers.Keys
    ensures Sum(OwedBy(GrantAll(accounts, payouts).value))
        == Sum(OwedBy(accounts)) + BatchTotal(employers, org, payouts).value
  {
    hide Sum, Grant, AccountsSound, OwedBy, TrancheTotal;
    if payouts != [] {
      var k := |payouts| - 1;
      GrantAllSum(accounts, employers, org, payouts[..k]);
      var amount := payouts[k].amount;
      SingleTranche(amount);
      GrantSum(GrantAll(accounts, payouts[..k]).value, payouts[k].maintainer, amount, [VestingTranche(0, amount)]);
    }
  }

  lemma SingleTranche(amount: int)
    ensures TrancheTotal([VestingTranche(0, amount)]) == amount
  {
    assert PrefixSum([VestingTranche(0, amount)], 0) == 0;
  }

  // --- Distribution -------------------------------------------------------------------------------------------

  lemma RootSumNonNegative(contributions: map<Address, int>)
    ensures RootSum(contributions) >= 0 && Weight(contributions) >= 0
  {
    SumNonNegative(Roots(contributions));
    var r := RootSum(contributions);
    assert r * r >= 0;
  }

  lemma EuclidIsFloor(n: nat, d: nat)
    requires d > 0
    ensures n / d >= 0 && IsFloor(n, d, n / d)
  {
    EuclidDivision(n, d);
  }

  /** The matches are floored shares: they use up the pool except for less than one unit per project. */
  lemma PreviewWithinPool(l: Ledger, projects: seq<Symbol>)
    requires Preview(l, projects).Ok?
    ensures var parts := Preview(l, projects).value;
            && |parts| == |projects| && (forall i :: 0 <= i < |parts| ==> parts[i] >= 0)
            && 0 <= Total(parts) <= l.pool && l.pool - Total(parts) < |projects|
            && (forall i :: 0 <= i < |parts| && parts[i] > 0 ==> projects[i] in l.contributions)
  {
    hide Weight, IsFloor, RootSum, Unique;
    var weights := Weights(l, projects);
    var parts := Preview(l, projects).value;
    forall i | 0 <= i < |weights|
      ensures weights[i] >= 0 && parts[i] >= 0 && IsFloor(l.pool * weights[i], Total(weights), parts[i])
      ensures parts[i] > 0 ==> projects[i] in l.contributions
    {
      assert weights[i] == Weight(ContributionsTo(l, projects[i]));
      assert Some(parts[i]) == Share(l.pool, weights[i], Total(weights));
      RootSumNonNegative(ContributionsTo(l, projects[i]));
      NoWeight(l, projects[i]);
      PartFacts(l.pool, weights[i], Total(weights));
    }
    hide Weights, Preview, Floors;
    FloorDistribution(l.pool, weights, parts);
  }

  lemma NoWeight(l: Ledger, project: Symbol)
    ensures project !in l.contributions ==> Weight(ContributionsTo(l, project)) == 0
  {
    if project !in l.contributions {
      assert Roots(map[]) == map[];
      SumPicks(Roots(map[]));
    }
  }

  lemma PartFacts(pool: nat, weight: nat, total: nat)
    requires total > 0
    ensures (pool * weight) / total >= 0 && IsFloor(pool * weight, total, (pool * weight) / total)
    ensures weight == 0 ==> (pool * weight) / total == 0
  {
    assert pool * weight >= 0;
    EuclidIsFloor(pool * weight, total);
  }

  /** Paying the matches touches nothing but budgets and statistics. */
  lemma {:induction false} PayMatchesSum(l: Ledger, projects: seq<Symbol>, parts: seq<int>)
    requires |parts| == |projects| && PayMatches(l, projects, parts).Ok? && NonNegative(l.budgets)
    requires forall i :: 0 <= i < |parts| ==> parts[i] >= 0
    requires Rooted(l) && forall i :: 0 <= i < |parts| && parts[i] > 0 ==> projects[i] in l.contributions
    ensures var paid := PayMatches(l, projects, parts).value;
            && paid == l.(matched := paid.matched, budgets := paid.budgets) && Rooted(paid)
            && NonNegative(paid.budgets) && Sum(paid.budgets) == Sum(l.budgets) + Total(parts)
  {
    if projects != [] {
      var k := |projects| - 1;
      PayMatchesSum(l, projects[..k], parts[..k]);
      var paid := PayMatches(l, projects[..k], parts[..k]).value;
      if parts[k] > 0 {
        CreditSum(paid.budgets, projects[k], parts[k]);
      }
    }
  }

  // --- Every call keeps the books -----------------------------------------------------------------------------

  /** The books are kept: nothing is overdrawn and the surplus is what it was. */
  ghost predicate Kept(w: World, after: World) {
    Sound(after.ledger) && Surplus(after) == Surplus(w)
  }

  lemma FundKept(w: World, org: Symbol, from: Address, amount: int, nonce: Option<nat>)
    requires Sound(w.ledger) && ApplyFund(w, org, from, amount, nonce).Ok?
    ensures Kept(w, ApplyFund(w, org, from, amount, nonce).value)
  {
    hide Sum, NonNegative, AccountsSound, ContributionsSound, OwedBy, UseNonce, Credit, Move;
    CreditKeys(w.ledger.budgets, org, amount);
    CreditSum(w.ledger.budgets, org, amount);
    MoveOwn(w.tokens, from, SELF, amount);
  }

  lemma DepositKept(w: World, from: Address, amount: int)
    requires Sound(w.ledger) && ApplyDepositPool(w, from, amount).Ok?
    ensures Kept(w, ApplyDepositPool(w, from, amount).value)
  {
    hide Sum, NonNegative, AccountsSound, ContributionsSound, OwedBy;
    MoveOwn(w.tokens, from, SELF, amount);
  }

  lemma ContributeKept(w: World, project: Symbol, from: Address, amount: int, nonce: Option<nat>)
    requires Sound(w.ledger) && ApplyContribute(w, project, from, amount, nonce).Ok?
    ensures Kept(w, ApplyContribute(w, project, from, amount, nonce).value)
  {
    hide Sum, NonNegative, AccountsSound, OwedBy, StatsFit, UseNonce, ContributionsSound, ContributionsTo;
    hide Credit, Move;
    CreditKeys(w.ledger.budgets, project, amount);
    CreditSum(w.ledger.budgets, project, amount);
    MoveOwn(w.tokens, from, SELF, amount);
    ContributionsPut(w.ledger, project, from, amount);
  }

  lemma ContributionsPut(l: Ledger, project: Symbol, from: Address, amount: int)
    requires ContributionsSound(l.contributions) && amount > 0
    ensures var given := ContributionsTo(l, project);
            ContributionsSound(l.contributions[project := given[from := Get(given, from, 0) + amount]])
  {
  }

  lemma DistributeKept(w: World, admin: Address, projects: seq<Symbol>)
    requires Sound(w.ledger) && ApplyDistribute(w, admin, projects).Ok?
    ensures Kept(w, ApplyDistribute(w, admin, projects).value)
  {
    hide Sum, NonNegative, AccountsSound, ContributionsSound, OwedBy;
    PreviewWithinPool(w.ledger, projects);
    hide Preview;
    PayMatchesSum(w.ledger, projects, Preview(w.ledger, projects).value);
    hide PayMatches;
  }

  lemma AllocateKept(w: World, org: Symbol, admin: Address, maintainer: Address, amount: int, tranches: Schedule)
    requires Sound(w.ledger) && ApplyAllocate(w, org, admin, maintainer, amount, tranches).Ok?
    ensures Kept(w, ApplyAllocate(w, org, admin, maintainer, amount, tranches).value)
  {
    hide Sum, NonNegative, AccountsSound, ContributionsSound, OwedBy, ScheduleTotal, Sorted, Debit, Grant;
    ScheduleAccepted(tranches);
    CreditKeys(w.ledger.budgets, org, amount);
    DebitSum(w.ledger.budgets, org, amount);
    GrantSum(w.ledger.accounts, maintainer, amount, tranches);
  }

  lemma BatchKept(w: World, admin: Address, org: Symbol, payouts: seq<PayoutParams>)
    requires Sound(w.ledger) && ApplyBatchAllocate(w, admin, org, payouts).Ok?
    ensures Kept(w, ApplyBatchAllocate(w, admin, org, payouts).value)
  {
    hide Sum, NonNegative, AccountsSound, ContributionsSound, OwedBy, BatchTotal, GrantAll, Debit;
    GrantAllSum(w.ledger.accounts, w.ledger.employers, org, payouts);
    CreditKeys(w.ledger.budgets, org, BatchTotal(w.ledger.employers, org, payouts).value);
    DebitSum(w.ledger.budgets, org, BatchTotal(w.ledger.employers, org, payouts).value);
  }

  /** Whatever the search finds is a prefix sum, hence no more than was allocated. */
  lemma VestedWithinTotal(a: Account, now: nat)
    requires AccountSound(a) && Vested(a.tranches, now).Some?
    ensures Vested(a.tranches, now).value <= TrancheTotal(a.tranches)
  {
    PrefixSumMonotone(a.tranches, UnlockedCount(a.tranches, now), |a.tranches|);
  }

  lemma ClaimKept(w: World, now: nat, maintainer: Address, nonce: Option<nat>)
    requires Sound(w.ledger) && ApplyClaim(w, now, maintainer, nonce).Ok?
    ensures Kept(w, ApplyClaim(w, now, maintainer, nonce).value)
  {
    hide Sum, NonNegative, ContributionsSound, OwedBy, AccountSound, Vested, Move, UseNonce;
    var l := w.ledger;
    AccountOfSound(l.accounts, maintainer);
    var account := AccountOf(l.accounts, maintainer);
    var vested := Vested(account.tranches, now).value;
    VestedWithinTotal(account, now);
    ClaimedSound(account, vested);
    OwedPut(l.accounts, maintainer, account.(claimed := vested));
    MoveOwn(w.tokens, SELF, maintainer, vested - account.claimed);
  }

  lemma ClaimedSound(a: Account, claimed: int)
    requires AccountSound(a) && a.claimed <= claimed <= TrancheTotal(a.tranches)
    ensures AccountSound(a.(claimed := claimed))
  {
  }

  lemma PutNonNegative<K(!new)>(m: map<K, int>, k: K, v: int)
    requires NonNegative(m)
    ensures Get(m, k, 0) >= 0 && (v >= 0 ==> NonNegative(m[k := v]))
    ensures Sum(m[k := v]) == Sum(m) - Get(m, k, 0) + v
  {
    SumPut(m, k, v);
  }

  lemma RemoveNonNegative<K(!new)>(m: map<K, int>, k: K)
    requires NonNegative(m) && k in m
    ensures NonNegative(Without(m, k)) && Sum(Without(m, k)) == Sum(m) - m[k]
  {
    SumRemove(m, k);
  }

  lemma VaultDepositKept(w: World, from: Address, assets: int)
    requires Sound(w.ledger) && ApplyVaultDeposit(w, from, assets).Ok?
    ensures Kept(w, ApplyVaultDeposit(w, from, assets).value)
  {
    hide Sum, AccountsSound, ContributionsSound, OwedBy, ConversionFits, Move, NonNegative;
    var l := w.ledger;
    PutNonNegative(l.shares, from, Get(l.shares, from, 0) + assets);
    MoveOwn(w.tokens, from, SELF, assets);
  }

  lemma VaultWithdrawKept(w: World, from: Address, burned: int)
    requires Sound(w.ledger) && ApplyVaultWithdraw(w, from, burned).Ok?
    ensures Kept(w, ApplyVaultWithdraw(w, from, burned).value)
  {
    hide Sum, AccountsSound, ContributionsSound, OwedBy, ConversionFits, Move, NonNegative;
    var l := w.ledger;
    PutNonNegative(l.shares, from, Get(l.shares, from, 0) - burned);
    MoveOwn(w.tokens, SELF, from, burned);
  }

  lemma CreateVaultKept(w: World, now: nat, from: Address, owner: Address, amount: int, maturity: nat)
    requires Sound(w.ledger) && ApplyCreateVault(w, now, from, owner, amount, maturity).Ok?
    ensures Kept(w, ApplyCreateVault(w, now, from, owner, amount, maturity).value)
  {
    hide Sum, AccountsSound, ContributionsSound, OwedBy, ConversionFits, Move, NonNegative;
    var l := w.ledger;
    PutNonNegative(l.timeLocks, (owner, maturity), Get(l.timeLocks, (owner, maturity), 0) + amount);
    MoveOwn(w.tokens, from, SELF, amount);
  }

  lemma ClaimVaultKept(w: World, now: nat, owner: Address, maturity: nat)
    requires Sound(w.ledger) && ApplyClaimVault(w, now, owner, maturity).Ok?
    ensures Kept(w, ApplyClaimVault(w, now, owner, maturity).value)
  {
    hide Sum, AccountsSound, ContributionsSound, OwedBy, ConversionFits, Move, NonNegative;
    var l := w.ledger;
    RemoveNonNegative(l.timeLocks, (owner, maturity));
    MoveOwn(w.tokens, SELF, owner, l.timeLocks[(owner, maturity)]);
  }

  lemma AddMaintainerKept(w: World, org: Symbol, maintainer: Address)
    requires Sound(w.ledger) && ApplyAddMaintainer(w, org, maintainer).Ok?
    ensures Kept(w, ApplyAddMaintainer(w, org, maintainer).value)
  {
    hide Sum, NonNegative, ContributionsSound, OwedBy;
    OwedPut(w.ledger.accounts, maintainer, Account(0, []));
  }

  lemma RegisterOrgKept(w: World, id: Symbol, admin: Address)
    requires Sound(w.ledger) && ApplyRegisterOrg(w, id, admin).Ok?
    ensures Kept(w, ApplyRegisterOrg(w, id, admin).value)
  {
    hide Sum, AccountsSound, ContributionsSound, OwedBy;
    PutNonNegative(w.ledger.budgets, id, 0);
  }

  lemma AdministrationKept(w: World, now: nat, call: Call)
    requires Administration(call) && !call.RegisterOrg? && !call.AddMaintainer?
    requires Sound(w.ledger) && Apply(w, now, call).Ok?
    ensures Kept(w, Apply(w, now, call).value)
  {
    hide Sum, NonNegative, AccountsSound, ContributionsSound, OwedBy;
  }

  // --- Flash loans ----------------------------------------------------------------------------------------------

  /** A callback can only add to the registry's balance. */
  lemma {:induction false} CallbackCannotTake(tokens: Tokens, actions: seq<Action>)
    requires AfterCallback(tokens, actions).Ok?
    ensures Get(AfterCallback(tokens, actions).value, SELF, 0) >= Get(tokens, SELF, 0)
    decreases |actions|
  {
    if actions != [] {
      match actions[0]
      case Transfer(from, to, amount) =>
        MoveOwn(tokens, from, to, amount);
        CallbackCannotTake(Move(tokens, from, to, amount).value, actions[1..]);
      case Reenter(_, _) =>
        CallbackCannotTake(tokens, actions[1..]);
    }
  }

  /** The fee is the exact fee rounded up, so never zero. */
  lemma FeeRoundsUp(amount: int, bps: int)
    requires amount > 0 && bps >= 1
    ensures var fee := Fee(amount, bps);
            fee >= 1 && 10_000 * (fee - 1) < amount * bps <= 10_000 * fee
  {
    assert amount * bps >= 1;
  }

  /** A completed flash loan leaves the ledger alone and earns at least its fee, whatever the callback does. */
  lemma FlashLoanEarnsFee(w: World, receiver: Address, amount: int, callback: seq<Action>)
    requires Sound(w.ledger) && ApplyFlashLoan(w, receiver, amount, callback).Ok?
    ensures var after := ApplyFlashLoan(w, receiver, amount, callback).value;
            && after.ledger == w.ledger && Fee(amount, w.ledger.feeBps) >= 1
            && Surplus(after) >= Surplus(w) + Fee(amount, w.ledger.feeBps)
  {
    hide Sum, NonNegative, AccountsSound, ContributionsSound, OwedBy, AfterCallback, Move;
    FeeRoundsUp(amount, w.ledger.feeBps);
    hide Fee;
  }

  // --- Runs -----------------------------------------------------------------------------------------------------

  /** What a step adds to the surplus at least: a loan's fee or a gift; every other step adds nothing. */
  ghost function Earned(w: World, e: Event): int {
    match e
    case Invoked(now, call) =>
      if call.FlashLoan? && Apply(w, now, call).Ok? then Fee(call.amount, w.ledger.feeBps) else 0
    case Transferred(from, to, amount) =>
      if from != SELF && to == SELF && Move(w.tokens, from, to, amount).Ok? then amount else 0
  }

  ghost function TotalEarned(w: World, events: seq<Event>): int {
    if events == [] then 0
    else TotalEarned(w, events[..|events| - 1]) + Earned(Run(w, events[..|events| - 1]), events[|events| - 1])
  }

  /** Every accepted call keeps the books; only a flash loan changes the surplus, and never downwards. */
  lemma CallKeepsBooks(w: World, now: nat, call: Call)
    requires Sound(w.ledger) && Apply(w, now, call).Ok?
    ensures var after := Apply(w, now, call).value;
            if call.FlashLoan? then
              after.ledger == w.ledger && Surplus(after) >= Surplus(w) + Fee(call.amount, w.ledger.feeBps)
            else Kept(w, after)
  {
    hide Sound, Surplus, ApplyInit, ApplyRegisterOrg, ApplyAddAdmin, ApplyRemoveAdmin, ApplyAddMaintainer;
    hide ApplyHumanity;
    hide ApplyPause, ApplySetFee, ApplyFund, ApplyDepositPool, ApplyContribute, ApplyDistribute, ApplyAllocate;
    hide ApplyBatchAllocate, ApplyClaim, ApplyVaultDeposit, ApplyVaultWithdraw, ApplyCreateVault, ApplyClaimVault;
    hide ApplyFlashLoan;
    hide Kept;
    match call
    case RegisterOrg(id, admin) => RegisterOrgKept(w, id, admin);
    case AddMaintainer(org, maintainer) => AddMaintainerKept(w, org, maintainer);
    case FundOrg(org, from, amount, nonce) => FundKept(w, org, from, amount, nonce);
    case DepositPool(from, amount) => DepositKept(w, from, amount);
    case Contribute(project, from, amount, nonce) => ContributeKept(w, project, from, amount, nonce);
    case Distribute(admin, projects) => DistributeKept(w, admin, projects);
    case Allocate(org, admin, maintainer, amount, tranches) =>
        AllocateKept(w, org, admin, maintainer, amount, tranches);
    case BatchAllocate(admin, org, payouts) => BatchKept(w, admin, org, payouts);
    case Claim(maintainer, nonce) => ClaimKept(w, now, maintainer, nonce);
    case VaultDeposit(from, assets) => VaultDepositKept(w, from, assets);
    case VaultWithdraw(from, burned) => VaultWithdrawKept(w, from, burned);
    case CreateVault(from, owner, amount, maturity) => CreateVaultKept(w, now, from, owner, amount, maturity);
    case ClaimVault(owner, maturity) => ClaimVaultKept(w, now, owner, maturity);
    case FlashLoan(receiver, amount, callback) => FlashLoanEarnsFee(w, receiver, amount, callback);
    case _ => AdministrationKept(w, now, call);
  }

  /** One step, failing or not, keeps the ledger sound and the surplus from falling. */
  lemma StepKeepsBooks(w: World, e: Event)
    requires Sound(w.ledger)
    ensures Sound(Next(w, e).ledger) && Earned(w, e) >= 0
    ensures Surplus(Next(w, e)) >= Surplus(w) + Earned(w, e)
    ensures !(e.Invoked? && e.call.FlashLoan?) ==> Surplus(Next(w, e)) == Surplus(w) + Earned(w, e)
  {
    match e
    case Invoked(now, call) =>
      hide Apply, Sound, Surplus;
      if Apply(w, now, call).Ok? {
        CallKeepsBooks(w, now, call);
        if call.FlashLoan? {
          LoanFeePositive(w, now, call);
        }
      }
    case Transferred(from, to, amount) =>
      hide Sum, Sound, Move;
      if from != SELF && Move(w.tokens, from, to, amount).Ok? {
        MoveOwn(w.tokens, from, to, amount);
      }
  }

  lemma LoanFeePositive(w: World, now: nat, call: Call)
    requires Sound(w.ledger) && call.FlashLoan? && Apply(w, now, call).Ok?
    ensures Fee(call.amount, w.ledger.feeBps) >= 1
  {
    hide Sum, NonNegative, AccountsSound, ContributionsSound, OwedBy, AfterCallback, Move, Surplus;
    FlashLoanEarnsFee(w, call.receiver, call.amount, call.callback);
    hide Fee;
  }

  /** In every run the surplus grows by at least what was earned, by exactly that without flash loans. */
  lemma {:induction false} SurplusNeverFalls(w: World, events: seq<Event>)
    requires Sound(w.ledger)
    ensures Sound(Run(w, events).ledger) && TotalEarned(w, events) >= 0
    ensures Surplus(Run(w, events)) >= Surplus(w) + TotalEarned(w, events)
    ensures (forall i :: 0 <= i < |events| ==> !(events[i].Invoked? && events[i].call.FlashLoan?))
              ==> Surplus(Run(w, events)) == Surplus(w) + TotalEarned(w, events)
  {
    hide Next, Sound, Surplus, Earned;
    if events != [] {
      var k := |events| - 1;
      SurplusNeverFalls(w, events[..k]);
      StepKeepsBooks(Run(w, events[..k]), events[k]);
    }
  }

  /** The registry before its first call. */
  function NewLedger(): Ledger {
    Ledger(None, map[], map[], map[], map[], map[], {}, 0, map[], map[], map[], map[], map[], DEFAULT_FEE_BPS)
  }

  lemma NewLedgerSound()
    ensures Sound(NewLedger()) && Liabilities(NewLedger()) == 0
  {
    assert OwedBy(map[]) == map[];
    SumPicks<Symbol>(map[]);
    SumPicks<Address>(map[]);
    SumPicks<(Address, nat)>(map[]);
  }

  /** Solvency: whatever is called, in whatever order, the registry's balance covers everything it owes. */
  lemma AlwaysSolvent(tokens: Tokens, events: seq<Event>)
    requires Get(tokens, SELF, 0) >= 0
    ensures var w := Run(World(NewLedger(), tokens), events);
            Sound(w.ledger) && Get(w.tokens, SELF, 0) >= Liabilities(w.ledger)
  {
    NewLedgerSound();
    hide Sound, Liabilities, Run, TotalEarned;
    SurplusNeverFalls(World(NewLedger(), tokens), events);
  }
}
