// The payout registry as it stores and updates its entries (lib.rs), proved to follow the ledger: every entry point
// computes its new entries from cached statistics and totals, and does what the ledger says.

module PayoutRegistry {
  import opened Common
  import opened Sums
  import opened SquareRoots
  import opened Rounding
  import Shares
  import opened VestingSearch
  import opened Ledger
  import opened Solvency

  /** `amount` is what is left to claim. */
  datatype MaintainerPayout = MaintainerPayout(amount: int, claimedAmount: int, tranches: Schedule)

  datatype QfProjectStats = QfProjectStats(
    directContributions: int, matchingAllocated: int, sqrtSum: int, contributorCount: int, weight: int)

  datatype QfAllocation = QfAllocation(
    project: Symbol, matchingAmount: int, directContributions: int, contributorCount: int, weight: int)

  const EMPTY_PAYOUT := MaintainerPayout(0, 0, [])
  const EMPTY_STATS := QfProjectStats(0, 0, 0, 0, 0)

  /** The storage entries, one field per family of keys. */
  datatype Storage = Storage(
    config: Option<Config>,
    organizations: map<Symbol, seq<Address>>,
    orgAdmin: map<Symbol, Address>,
    orgBudget: map<Symbol, int>,
    maintainerOrg: map<Address, Symbol>,
    maintainerBalance: map<Address, MaintainerPayout>,
    humanity: set<Address>,
    qfMatchingPool: int,
    qfContribution: map<Symbol, map<Address, int>>,
    qfProjectStats: map<Symbol, QfProjectStats>,
    vaultTotalShares: int,
    vaultTotalAssets: int,
    vaultShareBalance: map<Address, int>,
    vaults: map<(Address, nat), int>,
    nonces: map<Address, nat>,
    flashLoanFeeBps: int)

  function AccountsView(payouts: map<Address, MaintainerPayout>): map<Address, Account> {
    map m | m in payouts :: Account(payouts[m].claimedAmount, payouts[m].tranches)
  }

  function MatchedView(stats: map<Symbol, QfProjectStats>): map<Symbol, int> {
    map p | p in stats :: stats[p].matchingAllocated
  }

  /** The ledger the entries stand for: the caches dropped. */
  function View(s: Storage): Ledger {
    Ledger(s.config, s.organizations, s.orgAdmin, s.orgBudget, s.maintainerOrg, AccountsView(s.maintainerBalance),
           s.humanity, s.qfMatchingPool, s.qfContribution, MatchedView(s.qfProjectStats), s.vaultShareBalance, s.vaults,
           s.nonces, s.flashLoanFeeBps)
  }

  // --- The caches -----------------------------------------------------------------------------------------------

  predicate PayoutExact(p: MaintainerPayout) {
    p.amount + p.claimedAmount == TrancheTotal(p.tranches)
  }

  ghost predicate PayoutsExact(payouts: map<Address, MaintainerPayout>) {
    forall m :: m in payouts ==> PayoutExact(payouts[m])
  }

  /** The statistics are what recomputing them from the contributions would give. */
  ghost predicate StatsOf(stats: QfProjectStats, contributions: map<Address, int>) {
    && stats.directContributions == Sum(contributions)
    && stats.sqrtSum == RootSum(contributions)
    && stats.contributorCount == |contributions|
    && stats.weight == Weight(contributions)
  }

  ghost predicate StatsExact(stats: map<Symbol, QfProjectStats>, contributions: map<Symbol, map<Address, int>>) {
    stats.Keys == contributions.Keys && forall p :: p in stats ==> StatsOf(stats[p], contributions[p])
  }

  ghost predicate VaultExact(shares: map<Address, int>, totalShares: int, totalAssets: int) {
    totalShares == Sum(shares) && totalAssets == totalShares
  }

  ghost predicate CachesExact(s: Storage) {
    && PayoutsExact(s.maintainerBalance)
    && StatsExact(s.qfProjectStats, s.qfContribution)
    && VaultExact(s.vaultShareBalance, s.vaultTotalShares, s.vaultTotalAssets)
  }

  lemma PayoutPut(payouts: map<Address, MaintainerPayout>, m: Address, p: MaintainerPayout)
    requires PayoutsExact(payouts)
    ensures AccountsView(payouts[m := p]) == AccountsView(payouts)[m := Account(p.claimedAmount, p.tranches)]
    ensures PayoutExact(p) ==> PayoutsExact(payouts[m := p])
    ensures PayoutExact(Get(payouts, m, EMPTY_PAYOUT))
    ensures var q := Get(payouts, m, EMPTY_PAYOUT);
            AccountOf(AccountsView(payouts), m) == Account(q.claimedAmount, q.tranches)
  {
    EmptyPayoutExact();
    hide PayoutExact, TrancheTotal;
  }

  lemma EmptyPayoutExact()
    ensures PayoutExact(EMPTY_PAYOUT)
  {
  }

  lemma StatsEmpty()
    ensures StatsOf(EMPTY_STATS, map[])
  {
    assert Roots(map[]) == map[];
    SumPicks<Address>(map[]);
  }

  lemma StatsLookup(stats: map<Symbol, QfProjectStats>, contributions: map<Symbol, map<Address, int>>, p: Symbol)
    requires StatsExact(stats, contributions)
    ensures StatsOf(Get(stats, p, EMPTY_STATS), GivenIn(contributions, p))
    ensures Get(MatchedView(stats), p, 0) == Get(stats, p, EMPTY_STATS).matchingAllocated
  {
    StatsEmpty();
    hide StatsOf;
  }

  lemma StatsPut(stats: map<Symbol, QfProjectStats>, contributions: map<Symbol, map<Address, int>>, p: Symbol,
                 entry: QfProjectStats, given: map<Address, int>)
    requires StatsExact(stats, contributions) && StatsOf(entry, given)
    ensures StatsExact(stats[p := entry], contributions[p := given])
    ensures MatchedView(stats[p := entry]) == MatchedView(stats)[p := entry.matchingAllocated]
  {
    hide StatsOf;
  }

  /** One more contribution changes the statistics by the differences the contract adds. */
  lemma IncrementalStats(given: map<Address, int>, who: Address, amount: int, stats: QfProjectStats)
    requires StatsOf(stats, given) && amount > 0 && forall c :: c in given ==> given[c] > 0
    ensures var before := Get(given, who, 0);
            var after := given[who := before + amount];
            && before >= 0
            && Sum(after) == stats.directContributions + amount
            && RootSum(after) == stats.sqrtSum + (Root(before + amount) - Root(before))
            && |after| == stats.contributorCount + (if before == 0 then 1 else 0)
  {
    hide Sum, Root, Roots;
    var before := Get(given, who, 0);
    SumPut(given, who, before + amount);
    RootsPut(given, who, before + amount);
    SumPut(Roots(given), who, Root(before + amount));
    CountPut(given, who, before + amount);
  }

  lemma RootsPut(given: map<Address, int>, who: Address, amount: nat)
    requires forall c :: c in given ==> given[c] > 0
    ensures Roots(given[who := amount]) == Roots(given)[who := Root(amount)]
    ensures Get(given, who, 0) >= 0 && Get(Roots(given), who, 0) == Root(Get(given, who, 0))
  {
  }

  lemma CountPut(given: map<Address, int>, who: Address, amount: int)
    ensures |given[who := amount]| == |given| + (if who in given then 0 else 1)
  {
    var after := given[who := amount];
    if who in given {
      assert after.Keys == given.Keys;
      SameCount(after, given);
    } else {
      assert after.Keys == given.Keys + {who};
    }
  }

  /** `checked_square_i128` */
  function CheckedSquare(value: int): Option<int> {
    if value * value <= I128_MAX then Some(value * value) else None
  }

  lemma StatsFitIs(given: map<Address, int>, matched: int)
    ensures var direct, root, count, weight := Sum(given), RootSum(given), |given|, CheckedSquare(RootSum(given));
            && StatsFit(given) == (if direct > I128_MAX then Fail(BudgetOverflow)
                                   else if root > I128_MAX || count > U32_MAX || weight.None?
                                       then Fail(QuadraticOverflow)
                                   else Pass)
            && (weight.Some? ==> StatsOf(QfProjectStats(direct, matched, root, count, weight.value), given))
  {
    hide Sum, RootSum;
  }

  /** By how much a contribution's root grows. */
  function RootDelta(previous: nat, contribution: nat): int {
    Root(contribution) - Root(previous)
  }

  method RootDifference(previous: nat, contribution: nat) returns (delta: int)
    requires previous <= U128_MAX && contribution <= U128_MAX
    ensures delta == RootDelta(previous, contribution)
  {
    var previousRoot: int := IsqrtU128(previous);
    var newRoot: int := IsqrtU128(contribution);
    delta := newRoot - previousRoot;
  }

  lemma SameCount(a: map<Address, int>, b: map<Address, int>)
    requires a.Keys == b.Keys
    ensures |a| == |b|
  {
    assert |a| == |a.Keys| && |b| == |b.Keys|;
  }

  // --- The contract -----------------------------------------------------------------------------------------------

  class PayoutRegistry {
    var store: Storage
    /** The balances kept by the token contract. */
    var tokens: Tokens
    /** The reentrancy guard's flag. */
    var locked: bool

    ghost predicate Valid()
      reads this
    {
      CachesExact(store) && Sound(View(store))
    }

    ghost function Books(): World
      reads this
    {
      World(View(store), tokens)
    }

    /** The call did what the ledger says: the same new books with exact caches, or the same error and no change. */
    ghost predicate Did<T>(spec: Outcome<World>, r: Outcome<T>, store': Storage, tokens': Tokens)
      reads this
    {
      match spec
      case Ok(w) => r.Ok? && Books() == w && CachesExact(store)
      case Err(e) => r == Err(e) && store == store' && tokens == tokens'
    }

    constructor (tokens: Tokens)
      ensures Valid() && !locked && View(store) == NewLedger() && this.tokens == tokens
    {
      store := Storage(None, map[], map[], map[], map[], map[], {}, 0, map[], map[], 0, 0, map[], map[], map[],
                       DEFAULT_FEE_BPS);
      this.tokens := tokens;
      locked := false;
      new;
      NewStorage(store);
    }

    method QfDepositMatchingPool(from: Address, amount: int) returns (r: Outcome<int>)
      requires Valid()
      modifies this`store, this`tokens
      ensures Did(ApplyDepositPool(old(Books()), from, amount), r, old(store), old(tokens))
    {
      hide CachesExact, Sound, Move, AccountsView, MatchedView;
      :- Active(store.config);
      :- Need(from != SELF, SignatureMissing);
      :- Amount(amount);
      var pool := store.qfMatchingPool + amount;
      :- Need(pool <= I128_MAX, BudgetOverflow);
      var balances :- Move(tokens, from, SELF, amount);
      PoolCaches(store, pool);
      store := store.(qfMatchingPool := pool);
      tokens := balances;
      return Ok(0);
    }

    method FundOrg(org: Symbol, from: Address, amount: int, nonce: Option<nat>) returns (r: Outcome<int>)
      requires Valid()
      modifies this`store, this`tokens
      ensures Did(ApplyFund(old(Books()), org, from, amount, nonce), r, old(store), old(tokens))
    {
      hide Sound, Move, PayoutsExact, StatsExact, VaultExact, AccountsView, MatchedView;
      :- Active(store.config);
      :- Need(from != SELF, SignatureMissing);
      :- Amount(amount);
      :- Need(org in store.organizations, OrgNotFound);
      var nonces :- UseNonce(store.nonces, from, nonce);
      var budgets :- Credit(store.orgBudget, org, amount);
      var balances :- Move(tokens, from, SELF, amount);
      store := store.(orgBudget := budgets, nonces := nonces);
      tokens := balances;
      return Ok(0);
    }

    /**
      * The statistics after a contribution grew from `previous` to `contribution`; `after` are the contributions
      * then.
      */
    static method UpdatedStats(stats: QfProjectStats, previous: nat, contribution: nat, ghost after: map<Address, int>)
      returns (r: Outcome<QfProjectStats>)
      requires previous <= contribution <= I128_MAX
      requires Sum(after) == stats.directContributions + (contribution - previous)
      requires RootSum(after) == stats.sqrtSum + RootDelta(previous, contribution)
      requires |after| == stats.contributorCount + (if previous == 0 then 1 else 0)
      ensures r.Ok? ==> StatsFit(after).Pass? && StatsOf(r.value, after)
      ensures r.Ok? ==> r.value.matchingAllocated == stats.matchingAllocated
      ensures r.Err? ==> StatsFit(after) == Fail(r.error)
    {
      StatsFitIs(after, stats.matchingAllocated);
      hide RootDelta, RootSum, Sum, StatsFit, StatsOf, CheckedSquare;
      var rootDelta := RootDifference(previous, contribution);
      var direct := stats.directContributions + (contribution - previous);
      :- Need(direct <= I128_MAX, BudgetOverflow);
      var sqrtSum := stats.sqrtSum + rootDelta;
      :- Need(sqrtSum <= I128_MAX, QuadraticOverflow);
      var count := if previous == 0 then stats.contributorCount + 1 else stats.contributorCount;
      :- Need(count <= U32_MAX, QuadraticOverflow);
      var weight := CheckedSquare(sqrtSum);
      :- Need(weight.Some?, QuadraticOverflow);
      return Ok(QfProjectStats(direct, stats.matchingAllocated, sqrtSum, count, weight.value));
    }

    /** Statistics are updated by differences, not recomputed. */
    method QfContribute(project: Symbol, contributor: Address, amount: int, nonce: Option<nat>)
        returns (r: Outcome<int>)
      requires Valid()
      modifies this`store, this`tokens
      ensures Did(ApplyContribute(old(Books()), project, contributor, amount, nonce), r, old(store), old(tokens))
    {
      hide Sound, Move, Sum, StatsOf, RootSum, UseNonce, Credit, StatsFit, MayContribute, GivenIn, RootDelta;
      hide CachesExact, View, ApplyContribute, ContributionStored;
      ContributeSteps(store, tokens, project, contributor, amount, nonce);
      :- MayContribute(store.config, store.humanity, store.organizations, project, contributor, amount);
      var previous := Get(GivenIn(store.qfContribution, project), contributor, 0);
      var contribution := previous + amount;
      :- Need(contribution <= I128_MAX, BudgetOverflow);
      ContributionFacts(store, project, contributor, amount);
      var nonces :- UseNonce(store.nonces, contributor, nonce);
      var stats := Get(store.qfProjectStats, project, EMPTY_STATS);
      var entry :- UpdatedStats(stats, previous, contribution, AfterContribution(store, project, contributor, amount));
      var budgets :- Credit(store.orgBudget, project, amount);
      var balances :- Move(tokens, contributor, SELF, amount);
      ContributeAccepted(store, tokens, project, contributor, amount, nonce, entry, nonces, budgets, balances);
      hide AfterContribution;
      store := ContributionStored(store, project, contributor, amount, entry, nonces, budgets);
      tokens := balances;
      return Ok(0);
    }

    method Init(admins: seq<Address>, threshold: nat) returns (r: Outcome<int>)
      requires Valid()
      modifies this`store
      ensures Did(ApplyInit(old(Books()), admins, threshold), r, old(store), old(tokens))
    {
      hide Sound, PayoutsExact, StatsExact, VaultExact, AccountsView, MatchedView;
      :- Need(store.config.None?, AlreadyInitialized);
      :- Need(admins != [], EmptyAdminList);
      :- Need(|admins| == 1 && threshold == 1, InvalidThreshold);
      store := store.(config := Some(Config(admins[0], false)));
      return Ok(0);
    }

    method RegisterOrg(id: Symbol, admin: Address) returns (r: Outcome<int>)
      requires Valid()
      modifies this`store
      ensures Did(ApplyRegisterOrg(old(Books()), id, admin), r, old(store), old(tokens))
    {
      hide Sound, PayoutsExact, StatsExact, VaultExact, AccountsView, MatchedView;
      :- Need(id !in store.organizations, OrgAlreadyRegistered);
      store := store.(organizations := store.organizations[id := [admin]], orgAdmin := store.orgAdmin[id := admin],
                      orgBudget := store.orgBudget[id := 0]);
      return Ok(0);
    }

    method AddAdmin(org: Symbol, admin: Address, newAdmin: Address) returns (r: Outcome<int>)
      requires Valid()
      modifies this`store
      ensures Did(ApplyAddAdmin(old(Books()), org, admin, newAdmin), r, old(store), old(tokens))
    {
      hide Sound, PayoutsExact, StatsExact, VaultExact, AccountsView, MatchedView;
      :- OrgAdmin(store.organizations, org, admin);
      var admins := store.organizations[org];
      :- Need(|admins| < 10, MaxAdminLimitReached);
      for i := 0 to |admins|
        invariant newAdmin !in admins[..i]
      {
        var existing := admins[i];
        :- Need(existing != newAdmin, AdminAlreadyExists);
      }
      store := store.(organizations := store.organizations[org := admins + [newAdmin]]);
      return Ok(0);
    }

    method RemoveAdmin(org: Symbol, admin: Address, oldAdmin: Address) returns (r: Outcome<int>)
      requires Valid()
      modifies this`store
      ensures Did(ApplyRemoveAdmin(old(Books()), org, admin, oldAdmin), r, old(store), old(tokens))
    {
      hide Sound, PayoutsExact, StatsExact, VaultExact, AccountsView, MatchedView;
      :- OrgAdmin(store.organizations, org, admin);
      var admins := store.organizations[org];
      :- Need(|admins| > 1, CannotRemoveLastAdmin);
      var index := 0;
      while index < |admins| && admins[index] != oldAdmin
        invariant 0 <= index <= |admins| && oldAdmin !in admins[..index]
      {
        index := index + 1;
      }
      :- Need(index < |admins|, NotAnAdmin);
      FirstIndex(admins, oldAdmin, index);
      store := store.(organizations := store.organizations[org := admins[..index] + admins[index + 1..]]);
      return Ok(0);
    }

    method AddMaintainer(org: Symbol, maintainer: Address) returns (r: Outcome<int>)
      requires Valid()
      modifies this`store
      ensures Did(ApplyAddMaintainer(old(Books()), org, maintainer), r, old(store), old(tokens))
    {
      hide Sound, PayoutsExact, StatsExact, VaultExact, AccountsView, MatchedView, PayoutExact;
      :- Need(org in store.orgAdmin, OrgNotFound);
      :- Need(store.orgAdmin[org] != SELF, SignatureMissing);
      :- Need(maintainer !in store.maintainerOrg, MaintainerAlreadyRegistered);
      EmptyPayoutExact();
      PayoutPut(store.maintainerBalance, maintainer, EMPTY_PAYOUT);
      store := store.(maintainerOrg := store.maintainerOrg[maintainer := org],
                      maintainerBalance := store.maintainerBalance[maintainer := EMPTY_PAYOUT]);
      return Ok(0);
    }

    method SetHumanity(admin: Address, human: Address, verified: bool) returns (r: Outcome<int>)
      requires Valid()
      modifies this`store
      ensures Did(ApplyHumanity(old(Books()), admin, human, verified), r, old(store), old(tokens))
    {
      hide Sound, PayoutsExact, StatsExact, VaultExact, AccountsView, MatchedView;
      :- ProtocolAdmin(store.config, admin);
      hide Humans;
      store := store.(humanity := Humans(store.humanity, human, verified));
      return Ok(0);
    }

    method SetPaused(paused: bool) returns (r: Outcome<int>)
      requires Valid()
      modifies this`store
      ensures Did(ApplyPause(old(Books()), paused), r, old(store), old(tokens))
    {
      hide Sound, PayoutsExact, StatsExact, VaultExact, AccountsView, MatchedView;
      :- Need(store.config.Some?, ContractNotInitialized);
      store := store.(config := Some(store.config.value.(paused := paused)));
      return Ok(0);
    }

    method SetFlashLoanFee(admin: Address, bps: int) returns (r: Outcome<int>)
      requires Valid()
      modifies this`store
      ensures Did(ApplySetFee(old(Books()), admin, bps), r, old(store), old(tokens))
    {
      hide Sound, PayoutsExact, StatsExact, VaultExact, AccountsView, MatchedView;
      :- ProtocolAdmin(store.config, admin);
      :- Need(1 <= bps <= 1000, InvalidAmount);
      store := store.(flashLoanFeeBps := bps);
      return Ok(0);
    }

    /** Claims what the binary search finds vested beyond what was claimed. */
    method ClaimPayout(now: nat, maintainer: Address, nonce: Option<nat>) returns (r: Outcome<int>)
      requires Valid()
      modifies this`store, this`tokens
      ensures Did(ApplyClaim(old(Books()), now, maintainer, nonce), r, old(store), old(tokens))
      ensures r.Ok? ==> Get(tokens, maintainer, 0) == Get(old(tokens), maintainer, 0) + r.value
    {
      hide Sound, StatsExact, VaultExact, AccountsView, MatchedView, PayoutsExact, PayoutExact, TrancheTotal, Vested;
      hide UseNonce, Move;
      :- Active(store.config);
      :- Need(maintainer != SELF, SignatureMissing);
      var payout := Get(store.maintainerBalance, maintainer, EMPTY_PAYOUT);
      PayoutLookup(store.maintainerBalance, maintainer);
      :- Need(payout.amount != 0, NoClaimableBalance);
      var vested := VestedAmountBinary(payout.tranches, now);
      :- Need(vested.Some?, PayoutOverflow);
      :- Need(vested.value > payout.claimedAmount, PayoutLocked);
      var amount := vested.value - payout.claimedAmount;
      var nonces :- UseNonce(store.nonces, maintainer, nonce);
      var balances :- Move(tokens, SELF, maintainer, amount);
      var entry := payout.(amount := payout.amount - amount, claimedAmount := vested.value);
      PayoutShifted(payout, entry);
      PayoutPut(store.maintainerBalance, maintainer, entry);
      MoveReceived(tokens, maintainer, amount);
      store := store.(maintainerBalance := store.maintainerBalance[maintainer := entry], nonces := nonces);
      tokens := balances;
      return Ok(amount);
    }

    /** Mints shares at the vault's price, which stays one to one. */
    method VaultDeposit(from: Address, assets: int) returns (r: Outcome<int>)
      requires Valid()
      modifies this`store, this`tokens
      ensures Did(ApplyVaultDeposit(old(Books()), from, assets), r, old(store), old(tokens))
      ensures r.Ok? ==> r.value == assets
    {
      hide Sound, Sum, StatsExact, PayoutsExact, AccountsView, MatchedView, Move, ConversionFits, Shares.ToShares;
      hide Shares.ToAssets;
      :- Active(store.config);
      :- Need(from != SELF, SignatureMissing);
      :- Amount(assets);
      VaultPrice(store, from, assets);
      var minted := Shares.ToShares(assets, store.vaultTotalShares, store.vaultTotalAssets);
      :- Need(minted.Some?, PrinceError.RoundingOverflow);
      if minted.value == 0 {
        return Err(ZeroSharesMinted);
      }
      var totalShares, totalAssets := store.vaultTotalShares + minted.value, store.vaultTotalAssets + assets;
      :- Need(totalShares <= I128_MAX, PrinceError.RoundingOverflow);
      if totalAssets > I128_MAX {
        return Err(PrinceError.RoundingOverflow);
      }
      var balance := Get(store.vaultShareBalance, from, 0) + minted.value;
      if balance > I128_MAX {
        return Err(PrinceError.RoundingOverflow);
      }
      var balances :- Move(tokens, from, SELF, assets);
      SumPut(store.vaultShareBalance, from, balance);
      store := store.(vaultTotalShares := totalShares, vaultTotalAssets := totalAssets,
                      vaultShareBalance := store.vaultShareBalance[from := balance]);
      tokens := balances;
      return Ok(minted.value);
    }

    /** Burns shares at the vault's price; the holder gets exactly the shares' number of assets. */
    method VaultWithdraw(from: Address, burned: int) returns (r: Outcome<int>)
      requires Valid()
      modifies this`store, this`tokens
      ensures Did(ApplyVaultWithdraw(old(Books()), from, burned), r, old(store), old(tokens))
      ensures r.Ok? ==> r.value == burned
    {
      hide Sound, Sum, StatsExact, PayoutsExact, AccountsView, MatchedView, Move, ConversionFits, Shares.ToShares;
      hide Shares.ToAssets;
      :- Active(store.config);
      :- Need(from != SELF, SignatureMissing);
      :- Need(burned > 0, InvalidAmount);
      VaultPrice(store, from, burned);
      var balance := Get(store.vaultShareBalance, from, 0);
      :- Need(burned <= balance, InsufficientShareBalance);
      var paid := Shares.ToAssets(burned, store.vaultTotalShares, store.vaultTotalAssets);
      :- Need(paid.Some?, PrinceError.RoundingOverflow);
      var totalShares, totalAssets := store.vaultTotalShares - burned, store.vaultTotalAssets - paid.value;
      var balances :- Move(tokens, SELF, from, paid.value);
      SumPut(store.vaultShareBalance, from, balance - burned);
      store := store.(vaultTotalShares := totalShares, vaultTotalAssets := totalAssets,
                      vaultShareBalance := store.vaultShareBalance[from := balance - burned]);
      tokens := balances;
      return Ok(paid.value);
    }

    method CreateVault(now: nat, from: Address, owner: Address, amount: int, maturity: nat) returns (r: Outcome<int>)
      requires Valid()
      modifies this`store, this`tokens
      ensures Did(ApplyCreateVault(old(Books()), now, from, owner, amount, maturity), r, old(store), old(tokens))
    {
      hide Sound, PayoutsExact, StatsExact, VaultExact, AccountsView, MatchedView, Move;
      :- Active(store.config);
      :- Need(from != SELF, SignatureMissing);
      :- Need(0 < amount <= MAX_AMOUNT_LIMIT, InvalidAmount);
      :- Need(maturity > now, InvalidAmount);
      var balances :- Move(tokens, from, SELF, amount);
      var locked := Get(store.vaults, (owner, maturity), 0) + amount;
      :- Need(locked <= I128_MAX, Aborted);
      store := store.(vaults := store.vaults[(owner, maturity) := locked]);
      tokens := balances;
      return Ok(0);
    }

    method ClaimVault(now: nat, owner: Address, maturity: nat) returns (r: Outcome<int>)
      requires Valid()
      modifies this`store, this`tokens
      ensures Did(ApplyClaimVault(old(Books()), now, owner, maturity), r, old(store), old(tokens))
    {
      hide Sound, PayoutsExact, StatsExact, VaultExact, AccountsView, MatchedView, Move;
      :- Active(store.config);
      :- Need(owner != SELF, SignatureMissing);
      :- Need((owner, maturity) in store.vaults, NotAuthorized);
      :- Need(now >= maturity, PayoutLocked);
      var amount := store.vaults[(owner, maturity)];
      var balances :- Move(tokens, SELF, owner, amount);
      store := store.(vaults := Without(store.vaults, (owner, maturity)));
      tokens := balances;
      return Ok(amount);
    }

    /** The vesting checks of an allocation, tranche by tranche. */
    static method ValidateTranches(tranches: Schedule) returns (r: Outcome<int>)
      ensures r == ScheduleTotal(tranches)
    {
      hide ScheduleTotal;
      ScheduleNext(tranches, 0);
      var lastTime: nat := 0;
      var total := 0;
      for i := 0 to |tranches|
        invariant ScheduleTotal(tranches[..i]) == Ok(total)
        invariant i > 0 ==> lastTime == tranches[i - 1].unlockTimestamp
      {
        ScheduleNext(tranches, i + 1);
        ScheduleFails(tranches, i + 1);
        :- Amount(tranches[i].amount);
        :- Need(i == 0 || lastTime <= tranches[i].unlockTimestamp, InvalidAmount);
        :- Need(total + tranches[i].amount <= I128_MAX, PayoutOverflow);
        total := total + tranches[i].amount;
        lastTime := tranches[i].unlockTimestamp;
      }
      assert tranches[..|tranches|] == tranches;
      return Ok(total);
    }

    /** `allocate_payout_vesting`; `allocate_payout` passes a single tranche. */
    method AllocatePayoutVesting(org: Symbol, admin: Address, maintainer: Address, amount: int, tranches: Schedule)
      returns (r: Outcome<int>)
      requires Valid()
      modifies this`store
      ensures Did(ApplyAllocate(old(Books()), org, admin, maintainer, amount, tranches), r, old(store), old(tokens))
    {
      hide Sound, PayoutsExact, StatsExact, VaultExact, AccountsView, MatchedView;
      hide ScheduleTotal, Debit, Grant, GrantPayout, OrgAdmin, Employed;
      :- Active(store.config);
      :- OrgAdmin(store.organizations, org, admin);
      :- Amount(amount);
      :- Need(tranches != [], EmptyBatch);
      var total :- ValidateTranches(tranches);
      :- Need(total == amount, InvalidAmount);
      :- Employed(store.maintainerOrg, maintainer, org);
      var budgets :- Debit(store.orgBudget, org, amount);
      ScheduleAccepted(tranches);
      GrantRefines(store.maintainerBalance, maintainer, amount, tranches);
      var payouts :- GrantPayout(store.maintainerBalance, maintainer, amount, tranches);
      store := store.(orgBudget := budgets, maintainerBalance := payouts);
      return Ok(0);
    }

    /** The validation pass of a batch. */
    static method ValidateBatch(employers: map<Address, Symbol>, org: Symbol, payouts: seq<PayoutParams>)
        returns (r: Outcome<int>)
      ensures r == BatchTotal(employers, org, payouts)
    {
      hide BatchTotal;
      BatchNext(employers, org, payouts, 0);
      var total := 0;
      for i := 0 to |payouts|
        invariant BatchTotal(employers, org, payouts[..i]) == Ok(total)
      {
        BatchNext(employers, org, payouts, i + 1);
        BatchFails(employers, org, payouts, i + 1);
        :- Amount(payouts[i].amount);
        :- Employed(employers, payouts[i].maintainer, org);
        :- Need(total + payouts[i].amount <= I128_MAX, PayoutOverflow);
        total := total + payouts[i].amount;
      }
      assert payouts[..|payouts|] == payouts;
      return Ok(total);
    }

    /** The second pass of a batch: every entry becomes an unlocked tranche. */
    static method GrantBatch(balances: map<Address, MaintainerPayout>, payouts: seq<PayoutParams>)
      returns (r: Outcome<map<Address, MaintainerPayout>>)
      requires PayoutsExact(balances)
      ensures match GrantAll(AccountsView(balances), payouts)
              case Ok(accounts) => r.Ok? && PayoutsExact(r.value) && AccountsView(r.value) == accounts
              case Err(e) => r == Err(e)
    {
      hide GrantAll, PayoutsExact, AccountsView, GrantPayout, Grant;
      GrantAllNext(AccountsView(balances), payouts, 0);
      var granted := balances;
      for i := 0 to |payouts|
        invariant PayoutsExact(granted) && GrantAll(AccountsView(balances), payouts[..i]) == Ok(AccountsView(granted))
      {
        GrantAllNext(AccountsView(balances), payouts, i + 1);
        GrantAllFails(AccountsView(balances), payouts, i + 1);
        var entry := payouts[i];
        SingleTranche(entry.amount);
        GrantRefines(granted, entry.maintainer, entry.amount, [VestingTranche(0, entry.amount)]);
        granted :- GrantPayout(granted, entry.maintainer, entry.amount, [VestingTranche(0, entry.amount)]);
      }
      assert payouts[..|payouts|] == payouts;
      return Ok(granted);
    }

    method BatchAllocate(admin: Address, org: Symbol, payouts: seq<PayoutParams>) returns (r: Outcome<int>)
      requires Valid()
      modifies this`store
      ensures Did(ApplyBatchAllocate(old(Books()), admin, org, payouts), r, old(store), old(tokens))
    {
      hide Sound, PayoutsExact, StatsExact, VaultExact, AccountsView, MatchedView, BatchTotal, GrantAll, Debit;
      hide OrgAdmin;
      :- OrgAdmin(store.organizations, org, admin);
      :- Need(|payouts| <= 100, BatchSizeExceeded);
      :- Need(payouts != [], EmptyBatch);
      var total :- ValidateBatch(store.maintainerOrg, org, payouts);
      var budgets :- Debit(store.orgBudget, org, total);
      var balances :- GrantBatch(store.maintainerBalance, payouts);
      store := store.(orgBudget := budgets, maintainerBalance := balances);
      return Ok(0);
    }

    static method UniqueProjects(projects: seq<Symbol>) returns (unique: bool)
      ensures unique == Unique(projects)
    {
      for i := 0 to |projects|
        invariant forall p, q :: 0 <= p < i && p < q < |projects| ==> projects[p] != projects[q]
      {
        for j := i + 1 to |projects|
          invariant forall q :: i < q < j ==> projects[i] != projects[q]
        {
          if projects[i] == projects[j] {
            return false;
          }
        }
      }
      return true;
    }

    /** The sum of the cached weights, checked at every addition. */
    method TotalWeight(projects: seq<Symbol>) returns (r: Outcome<int>)
      requires Valid()
      ensures var total := Total(Weights(View(store), projects));
              r == if total <= I128_MAX then Ok(total) else Err(QuadraticOverflow)
    {
      hide Sound, Total, StatsOf, Weight, Weights, AccountsView, MatchedView, StatsExact, PayoutsExact, VaultExact;
      hide GivenIn;
      ghost var weights := Weights(View(store), projects);
      TotalNext(weights, 0);
      var total := 0;
      for i := 0 to |projects|
        invariant total == Total(weights[..i]) <= I128_MAX
      {
        TotalNext(weights, i + 1);
        CachedWeight(store, projects, i);
        TotalGrows(View(store), projects, i + 1);
        var weight := Get(store.qfProjectStats, projects[i], EMPTY_STATS).weight;
        :- Need(total + weight <= I128_MAX, QuadraticOverflow);
        total := total + weight;
      }
      assert weights[..|projects|] == weights;
      return Ok(total);
    }

    /** The floored share of every project, with the statistics it is based on. */
    method QfPreviewDistribution(projects: seq<Symbol>) returns (r: Outcome<seq<QfAllocation>>)
      requires Valid()
      ensures match Preview(View(store), projects)
              case Ok(parts) => r.Ok? && AllocationsOf(store, projects, parts, r.value)
              case Err(e) => r == Err(e)
    {
      hide Sound, Total, Weights, AccountsView, MatchedView, StatsExact, PayoutsExact, VaultExact, Unique, AllFit;
      hide Floors, AllocationsOf;
      :- Need(projects != [], EmptyBatch);
      :- Need(|projects| <= 100, BatchSizeExceeded);
      var unique := UniqueProjects(projects);
      :- Need(unique, DuplicateProject);
      var pool := store.qfMatchingPool;
      :- Need(pool > 0, EmptyMatchingPool);
      var total :- TotalWeight(projects);
      :- Need(total > 0, EmptyQuadraticRound);
      r := Allocations(projects, pool, total);
    }

    method Allocations(projects: seq<Symbol>, pool: int, total: int) returns (r: Outcome<seq<QfAllocation>>)
      requires Valid() && pool > 0 && 0 < total <= I128_MAX
      ensures var weights := Weights(View(store), projects);
              if AllFit(pool, weights, total) then r.Ok?
                  && AllocationsOf(store, projects, Floors(pool, weights, total), r.value)
              else r == Err(PrinceError.RoundingOverflow)
    {
      hide Sound, Weights, CachesExact, View, SafeMulDiv, Share, AllocationOf, AllFit, Floors, AllocationsOf, Get;
      AllocationsStart(store, projects);
      ghost var weights := Weights(View(store), projects);
      ghost var parts: seq<int> := [];
      var allocations: seq<QfAllocation> := [];
      for i := 0 to |projects|
        invariant |parts| == i && AllocationsOf(store, projects[..i], parts, allocations)
        invariant forall k :: 0 <= k < i ==> Share(pool, weights[k], total) == Some(parts[k])
      {
        CachedWeight(store, projects, i);
        var stats := Get(store.qfProjectStats, projects[i], EMPTY_STATS);
        SharePart(pool, stats.weight, total);
        NotAllFit(pool, weights, total, i);
        var part := SafeMulDiv(pool, stats.weight, total, Floor);
        :- Need(part.Ok?, PrinceError.RoundingOverflow);
        AllocationsNext(store, projects, i, parts, allocations, part.value);
        allocations := allocations + [AllocationOf(store, projects[i], part.value)];
        parts := parts + [part.value];
      }
      FloorsAre(pool, weights, total, parts);
      assert projects[..|projects|] == projects;
      return Ok(allocations);
    }

    /** Pays the allocations into the budgets and notes them in the statistics; returns what was distributed. */
    static method PayAllocations(s0: Storage, allocations: seq<QfAllocation>, ghost projects: seq<Symbol>,
                                 ghost parts: seq<int>)
      returns (r: Outcome<(Storage, int)>)
      requires CachesExact(s0) && AllocationsOf(s0, projects, parts, allocations) && Total(parts) <= I128_MAX
      requires forall i :: 0 <= i < |parts| ==> parts[i] >= 0 && (parts[i] > 0 ==> projects[i] in s0.qfContribution)
      ensures match PayMatches(View(s0), projects, parts)
              case Ok(l) => r.Ok? && View(r.value.0) == l && CachesExact(r.value.0) && r.value.1 == Total(parts)
              case Err(e) => r == Err(e)
    {
      hide CachesExact, View, PayMatches, Total;
      PayNext(View(s0), projects, parts, 0);
      TotalNext(parts, 0);
      var s, distributed := s0, 0;
      for i := 0 to |allocations|
        invariant CachesExact(s) && s.qfContribution == s0.qfContribution
        invariant PayMatches(View(s0), projects[..i], parts[..i]) == Ok(View(s))
        invariant distributed == Total(parts[..i])
      {
        var allocation := allocations[i];
        PayNext(View(s0), projects, parts, i + 1);
        PayFails(View(s0), projects, parts, i + 1);
        TotalNext(parts, i + 1);
        TotalGrowing(parts, i + 1);
        if allocation.matchingAmount > 0 {
          ViewFields(s, allocation.project);
          var stats := Get(s.qfProjectStats, allocation.project, EMPTY_STATS);
          :- Need(stats.matchingAllocated + allocation.matchingAmount <= I128_MAX, BudgetOverflow);
          var budgets :- Credit(s.orgBudget, allocation.project, allocation.matchingAmount);
          var entry := stats.(matchingAllocated := stats.matchingAllocated + allocation.matchingAmount);
          MatchStored(s, allocation.project, entry, budgets);
          s := s.(qfProjectStats := s.qfProjectStats[allocation.project := entry], orgBudget := budgets);
        }
        if distributed + allocation.matchingAmount > I128_MAX {
          return Err(QuadraticOverflow);
        }
        distributed := distributed + allocation.matchingAmount;
      }
      assert projects[..|projects|] == projects && parts[..|parts|] == parts;
      return Ok((s, distributed));
    }

    /** The undistributed dust stays in the pool. */
    method QfDistribute(admin: Address, projects: seq<Symbol>) returns (r: Outcome<seq<QfAllocation>>)
      requires Valid()
      modifies this`store
      ensures Did(ApplyDistribute(old(Books()), admin, projects), r, old(store), old(tokens))
    {
      hide Sound, CachesExact, Preview, PayMatches, Total, AccountsView, MatchedView;
      :- Active(store.config);
      :- ProtocolAdmin(store.config, admin);
      var allocations :- QfPreviewDistribution(projects);
      ghost var parts := Preview(View(store), projects).value;
      PreviewWithinPool(View(store), projects);
      PoolFits(View(store), projects);
      hide AllocationOf;
      var paid :- PayAllocations(store, allocations, projects, parts);
      var s, distributed := paid.0, paid.1;
      var remaining := DustRemainder(store.qfMatchingPool, distributed);
      if remaining.Err? {
        return Err(PrinceError.RoundingOverflow);
      }
      PoolCaches(s, remaining.value);
      store := s.(qfMatchingPool := remaining.value);
      return Ok(allocations);
    }

    /**
      * Lends, runs the borrower's callback with the guard held, and checks the balance afterwards. A callback that
      * calls the registry again is turned away by the guard.
      */
    method FlashLoan(now: nat, receiver: Address, amount: int, callback: seq<Action>) returns (r: Outcome<int>)
      requires Valid() && locked
      modifies this
      ensures locked && Did(ApplyFlashLoan(old(Books()), receiver, amount, callback), r, old(store), old(tokens))
      decreases callback, 1
    {
      hide Sound, CachesExact, AccountsView, MatchedView, Move, AfterCallback;
      :- Active(store.config);
      :- Amount(amount);
      var before := Get(tokens, SELF, 0);
      :- Need(amount <= before, FlashLoanInsufficientLiquidity);
      var bps := store.flashLoanFeeBps;
      :- Need(amount * bps + 9_999 <= I128_MAX, BudgetOverflow);
      var fee := (amount * bps + 9_999) / 10_000;
      :- Need(amount + fee <= I128_MAX, BudgetOverflow);
      var lent :- Move(tokens, SELF, receiver, amount);
      :- Need(receiver != SELF, Aborted);
      var saved := tokens;
      tokens := lent;
      var completed := RunCallback(now, callback);
      if !completed {
        tokens := saved;
        return Err(Aborted);
      }
      if before + fee > I128_MAX {
        tokens := saved;
        return Err(BudgetOverflow);
      }
      if Get(tokens, SELF, 0) < before + fee {
        tokens := saved;
        return Err(FlashLoanRepaymentFailed);
      }
      return Ok(fee);
    }

    /** A borrower's callback. Its calls of the registry all fail, so they leave no trace but that failure. */
    method RunCallback(now: nat, actions: seq<Action>) returns (completed: bool)
      requires Valid() && locked
      modifies this
      ensures locked && store == old(store)
      ensures completed == AfterCallback(old(tokens), actions).Ok?
      ensures completed ==> tokens == AfterCallback(old(tokens), actions).value
      decreases actions, 0
    {
      hide Move, CachesExact, Sound;
      assert actions[0..] == actions;
      for i := 0 to |actions|
        invariant locked && store == old(store)
        invariant AfterCallback(tokens, actions[i..]) == AfterCallback(old(tokens), actions)
      {
        assert actions[i..][0] == actions[i] && actions[i..][1..] == actions[i + 1..];
        match actions[i]
        case Transfer(from, to, amount) =>
          if from == SELF {
            return false;
          }
          var moved := Move(tokens, from, to, amount);
          if moved.Err? {
            return false;
          }
          tokens := moved.value;
        case Reenter(call, caught) =>
          assert (actions decreases to actions[i]) && (actions[i] decreases to call);
          var r := Invoke(now, call);
          if r.Err? && !caught {
            return false;
          }
      }
      return true;
    }

    /**
      * Every entry point behind the reentrancy guard: refused while the guard is held, otherwise the ledger's step.
      * The books stay sound and the caches exact, whatever is called.
      */
    method Invoke(now: nat, call: Call) returns (r: Outcome<int>)
      requires Valid()
      modifies this
      ensures Valid() && locked == old(locked)
      ensures old(locked) ==> r == Err(Reentrancy) && store == old(store) && tokens == old(tokens)
      ensures !old(locked) ==> Did(Apply(old(Books()), now, call), r, old(store), old(tokens))
      decreases call, 1
    {
      if locked {
        return Err(Reentrancy);
      }
      locked := true;
      r := Dispatch(now, call);
      locked := false;
      StillSound(old(Books()), now, call);
      hide Sound, CachesExact, Apply, View;
    }

    method Administer(now: nat, call: Call) returns (r: Outcome<int>)
      requires Valid() && Administration(call)
      modifies this`store
      ensures Did(Apply(old(Books()), now, call), r, old(store), old(tokens))
    {
      hide Sound, CachesExact, View, ApplyInit, ApplyRegisterOrg, ApplyAddAdmin, ApplyRemoveAdmin, ApplyAddMaintainer;
      hide ApplyHumanity;
      hide ApplyPause, ApplySetFee, ApplyFund, ApplyDepositPool, ApplyContribute, ApplyDistribute, ApplyAllocate;
      hide ApplyBatchAllocate, ApplyClaim, ApplyVaultDeposit, ApplyVaultWithdraw, ApplyCreateVault, ApplyClaimVault;
      hide ApplyFlashLoan;
      match call
      case Init(admins, threshold) => r := Init(admins, threshold);
      case RegisterOrg(id, admin) => r := RegisterOrg(id, admin);
      case AddAdmin(org, admin, newAdmin) => r := AddAdmin(org, admin, newAdmin);
      case RemoveAdmin(org, admin, oldAdmin) => r := RemoveAdmin(org, admin, oldAdmin);
      case AddMaintainer(org, maintainer) => r := AddMaintainer(org, maintainer);
      case VerifyHumanity(admin, human) => r := SetHumanity(admin, human, true);
      case RevokeHumanity(admin, human) => r := SetHumanity(admin, human, false);
      case Pause => r := SetPaused(true);
      case Unpause => r := SetPaused(false);
      case SetFlashLoanFee(admin, bps) => r := SetFlashLoanFee(admin, bps);
    }

    method Dispatch(now: nat, call: Call) returns (r: Outcome<int>)
      requires Valid() && locked
      modifies this
      ensures locked && Did(Apply(old(Books()), now, call), r, old(store), old(tokens))
      decreases call, 0
    {
      hide Sound, CachesExact, View, ApplyInit, ApplyRegisterOrg, ApplyAddAdmin, ApplyRemoveAdmin, ApplyAddMaintainer;
      hide ApplyHumanity;
      hide ApplyPause, ApplySetFee, ApplyFund, ApplyDepositPool, ApplyContribute, ApplyDistribute, ApplyAllocate;
      hide ApplyBatchAllocate, ApplyClaim, ApplyVaultDeposit, ApplyVaultWithdraw, ApplyCreateVault, ApplyClaimVault;
      hide ApplyFlashLoan;
      if Administration(call) {
        r := Administer(now, call);
        return;
      }
      match call
      case FundOrg(org, from, amount, nonce) => r := FundOrg(org, from, amount, nonce);
      case DepositPool(from, amount) => r := QfDepositMatchingPool(from, amount);
      case Contribute(project, from, amount, nonce) => r := QfContribute(project, from, amount, nonce);
      case Distribute(admin, projects) =>
        var allocations := QfDistribute(admin, projects);
        r := if allocations.Ok? then Ok(0) else Err(allocations.error);
      case Allocate(org, admin, maintainer, amount, tranches) =>
          r := AllocatePayoutVesting(org, admin, maintainer, amount, tranches);
      case BatchAllocate(admin, org, payouts) => r := BatchAllocate(admin, org, payouts);
      case Claim(maintainer, nonce) => r := ClaimPayout(now, maintainer, nonce);
      case VaultDeposit(from, assets) => r := VaultDeposit(from, assets);
      case VaultWithdraw(from, burned) => r := VaultWithdraw(from, burned);
      case CreateVault(from, owner, amount, maturity) => r := CreateVault(now, from, owner, amount, maturity);
      case ClaimVault(owner, maturity) => r := ClaimVault(now, owner, maturity);
      case FlashLoan(receiver, amount, callback) => r := FlashLoan(now, receiver, amount, callback);
    }

    /**
      * A history of calls and outside transfers, one transaction after the other: the contract follows the ledger's
      * run.
      */
    method Play(events: seq<Event>)
      requires Valid() && !locked
      modifies this
      ensures Valid() && !locked && Books() == Run(old(Books()), events)
    {
      hide Sound, CachesExact, Apply, View, Run;
      RunStarts(old(Books()), events);
      for i := 0 to |events|
        invariant Valid() && !locked && Books() == Run(old(Books()), events[..i])
      {
        RunContinues(old(Books()), events, i);
        match events[i]
        case Invoked(now, call) =>
          var r := Invoke(now, call);
        case Transferred(from, to, amount) =>
          var moved := Move(tokens, from, to, amount);
          if from != SELF && moved.Ok? {
            tokens := moved.value;
          }
      }
      assert events[..|events|] == events;
    }
  }

  lemma NewStorage(s: Storage)
    requires s == Storage(None, map[], map[], map[], map[], map[], {}, 0, map[], map[], 0, 0, map[], map[], map[],
                          DEFAULT_FEE_BPS)
    ensures CachesExact(s) && Sound(View(s)) && View(s) == NewLedger()
  {
    hide Sound, Sum, CachesExact, AccountsView, MatchedView;
    NewLedgerSound();
    NewViews();
    NewCaches(s);
  }

  lemma {:induction false} FirstIndex(s: seq<Address>, a: Address, i: nat)
    requires i < |s| && s[i] == a && a !in s[..i]
    ensures a in s && IndexOf(s, a) == i
  {
    if i > 0 {
      assert s[0] == s[..i][0] && s[1..][..i - 1] == s[..i][1..];
      FirstIndex(s[1..], a, i - 1);
    }
  }

  lemma PayoutLookup(payouts: map<Address, MaintainerPayout>, m: Address)
    requires PayoutsExact(payouts)
    ensures var p := Get(payouts, m, EMPTY_PAYOUT);
            AccountOf(AccountsView(payouts), m) == Account(p.claimedAmount, p.tranches) && PayoutExact(p)
            && Owed(Account(p.claimedAmount, p.tranches)) == p.amount
  {
    PayoutPut(payouts, m, EMPTY_PAYOUT);
  }

  lemma PayoutShifted(p: MaintainerPayout, q: MaintainerPayout)
    requires PayoutExact(p) && p.tranches == q.tranches && p.amount + p.claimedAmount == q.amount + q.claimedAmount
    ensures PayoutExact(q)
  {
  }

  lemma MoveReceived(tokens: Tokens, to: Address, amount: int)
    requires to != SELF && Move(tokens, SELF, to, amount).Ok?
    ensures Get(Move(tokens, SELF, to, amount).value, to, 0) == Get(tokens, to, 0) + amount
  {
  }

  /** As long as only deposits feed the vault its offset price is one. */
  lemma VaultPrice(s: Storage, holder: Address, amount: nat)
    requires CachesExact(s) && Sound(View(s))
    ensures 0 <= s.vaultTotalShares == s.vaultTotalAssets == Sum(s.vaultShareBalance)
    ensures 0 <= Get(s.vaultShareBalance, holder, 0) <= s.vaultTotalShares
    ensures Shares.ToShares(amount, s.vaultTotalShares, s.vaultTotalAssets) ==
            if ConversionFits(View(s), amount).Pass? then Some(amount) else None
    ensures amount <= s.vaultTotalShares ==>
            Shares.ToAssets(amount, s.vaultTotalShares, s.vaultTotalAssets) ==
            if ConversionFits(View(s), amount).Pass? then Some(amount) else None
    ensures ConversionFits(View(s), amount).Fail? ==>
        ConversionFits(View(s), amount).error == PrinceError.RoundingOverflow
  {
    hide Sum, StatsExact, PayoutsExact, AccountsSound, ContributionsSound, AccountsView, MatchedView, Shares.ToShares;
    hide Shares.ToAssets;
    SumAtLeast(s.vaultShareBalance, holder);
    SumNonNegative(s.vaultShareBalance);
    Shares.OneToOne(amount, s.vaultTotalShares);
  }

  /** Adds an amount and its tranches to a stored payout. */
  function GrantPayout(payouts: map<Address, MaintainerPayout>, maintainer: Address, amount: int, tranches: Schedule)
    : Outcome<map<Address, MaintainerPayout>>
  {
    var p := Get(payouts, maintainer, EMPTY_PAYOUT);
    if p.amount + amount > I128_MAX then Err(PayoutOverflow)
    else Ok(payouts[maintainer := MaintainerPayout(p.amount + amount, p.claimedAmount, p.tranches + tranches)])
  }

  lemma GrantRefines(payouts: map<Address, MaintainerPayout>, maintainer: Address, amount: int, tranches: Schedule)
    requires PayoutsExact(payouts) && TrancheTotal(tranches) == amount
    ensures match Grant(AccountsView(payouts), maintainer, amount, tranches)
            case Ok(accounts) =>
              var r := GrantPayout(payouts, maintainer, amount, tranches);
              r.Ok? && PayoutsExact(r.value) && AccountsView(r.value) == accounts
            case Err(e) => GrantPayout(payouts, maintainer, amount, tranches) == Err(e)
  {
    hide PayoutsExact, AccountsView, TrancheTotal, PayoutExact, Owed;
    PayoutLookup(payouts, maintainer);
    var p := Get(payouts, maintainer, EMPTY_PAYOUT);
    PayoutGrown(p, amount, tranches);
    PayoutPut(payouts, maintainer, MaintainerPayout(p.amount + amount, p.claimedAmount, p.tranches + tranches));
  }

  lemma PayoutGrown(p: MaintainerPayout, amount: int, tranches: Schedule)
    requires PayoutExact(p) && TrancheTotal(tranches) == amount
    ensures PayoutExact(MaintainerPayout(p.amount + amount, p.claimedAmount, p.tranches + tranches))
  {
    TotalConcat(p.tranches, tranches);
    hide TrancheTotal;
  }

  lemma ScheduleNext(s: Schedule, i: nat)
    requires i <= |s|
    ensures i == 0 ==> ScheduleTotal(s[..i]) == Ok(0)
    ensures i > 0 && ScheduleTotal(s[..i - 1]).Ok? ==>
      var total := ScheduleTotal(s[..i - 1]).value;
      ScheduleTotal(s[..i]) ==
        if Amount(s[i - 1].amount).Fail? then Err(Amount(s[i - 1].amount).error)
        else if i > 1 && s[i - 2].unlockTimestamp > s[i - 1].unlockTimestamp then Err(InvalidAmount)
        else if total + s[i - 1].amount > I128_MAX then Err(PayoutOverflow)
        else Ok(total + s[i - 1].amount)
  {
    if i > 0 {
      assert s[..i][..i - 1] == s[..i - 1];
    }
  }

  lemma {:induction false} ScheduleFails(s: Schedule, i: nat)
    requires i <= |s|
    ensures ScheduleTotal(s[..i]).Err? ==> ScheduleTotal(s) == ScheduleTotal(s[..i])
    decreases |s| - i
  {
    if i < |s| {
      assert s[..i + 1][..i] == s[..i];
      ScheduleFails(s, i + 1);
    } else {
      assert s[..i] == s;
    }
  }

  lemma BatchNext(employers: map<Address, Symbol>, org: Symbol, s: seq<PayoutParams>, i: nat)
    requires i <= |s|
    ensures i == 0 ==> BatchTotal(employers, org, s[..i]) == Ok(0)
    ensures i > 0 && BatchTotal(employers, org, s[..i - 1]).Ok? ==>
      var total := BatchTotal(employers, org, s[..i - 1]).value;
      var last := s[i - 1];
      BatchTotal(employers, org, s[..i]) ==
        if Amount(last.amount).Fail? then Err(Amount(last.amount).error)
        else if Employed(employers, last.maintainer, org).Fail?
            then Err(Employed(employers, last.maintainer, org).error)
        else if total + last.amount > I128_MAX then Err(PayoutOverflow)
        else Ok(total + last.amount)
  {
    if i > 0 {
      assert s[..i][..i - 1] == s[..i - 1];
    }
  }

  lemma {:induction false} BatchFails(employers: map<Address, Symbol>, org: Symbol, s: seq<PayoutParams>, i: nat)
    requires i <= |s|
    ensures BatchTotal(employers, org, s[..i]).Err? ==>
        BatchTotal(employers, org, s) == BatchTotal(employers, org, s[..i])
    decreases |s| - i
  {
    if i < |s| {
      assert s[..i + 1][..i] == s[..i];
      BatchFails(employers, org, s, i + 1);
    } else {
      assert s[..i] == s;
    }
  }

  lemma GrantAllNext(accounts: map<Address, Account>, s: seq<PayoutParams>, i: nat)
    requires i <= |s|
    ensures i == 0 ==> GrantAll(accounts, s[..i]) == Ok(accounts)
    ensures i > 0 && GrantAll(accounts, s[..i - 1]).Ok? ==>
      var last := s[i - 1];
      GrantAll(accounts, s[..i]) ==
      Grant(GrantAll(accounts, s[..i - 1]).value, last.maintainer, last.amount, [VestingTranche(0, last.amount)])
  {
    hide Grant;
    if i > 0 {
      assert s[..i][..i - 1] == s[..i - 1];
    }
  }

  lemma {:induction false} GrantAllFails(accounts: map<Address, Account>, s: seq<PayoutParams>, i: nat)
    requires i <= |s|
    ensures GrantAll(accounts, s[..i]).Err? ==> GrantAll(accounts, s) == GrantAll(accounts, s[..i])
    decreases |s| - i
  {
    hide Grant;
    if i < |s| {
      assert s[..i + 1][..i] == s[..i];
      GrantAllFails(accounts, s, i + 1);
    } else {
      assert s[..i] == s;
    }
  }

  // --- Distribution -----------------------------------------------------------------------------------------------

  function AllocationOf(s: Storage, project: Symbol, part: int): QfAllocation {
    var stats := Get(s.qfProjectStats, project, EMPTY_STATS);
    QfAllocation(project, part, stats.directContributions, stats.contributorCount, stats.weight)
  }

  ghost predicate AllocationsOf(s: Storage, projects: seq<Symbol>, parts: seq<int>, allocations: seq<QfAllocation>) {
    |allocations| == |parts| == |projects| && forall i :: 0 <= i < |projects| ==>
        allocations[i] == AllocationOf(s, projects[i], parts[i])
  }

  lemma AllocationsStart(s: Storage, projects: seq<Symbol>)
    ensures AllocationsOf(s, projects[..0], [], [])
  {
  }

  lemma AllocationsNext(s: Storage, projects: seq<Symbol>, i: nat, parts: seq<int>, allocations: seq<QfAllocation>,
                        part: int)
    requires i < |projects| && AllocationsOf(s, projects[..i], parts, allocations)
    ensures AllocationsOf(s, projects[..i + 1], parts + [part], allocations + [AllocationOf(s, projects[i], part)])
  {
    hide AllocationOf;
  }

  lemma TotalNext(s: seq<int>, i: nat)
    requires i <= |s|
    ensures i == 0 ==> Total(s[..i]) == 0
    ensures i > 0 ==> Total(s[..i]) == Total(s[..i - 1]) + s[i - 1]
  {
    if i > 0 {
      assert s[..i][..i - 1] == s[..i - 1];
    }
  }

  lemma {:induction false} TotalGrowing(s: seq<int>, i: nat)
    requires i <= |s| && forall k :: 0 <= k < |s| ==> s[k] >= 0
    ensures Total(s[..i]) <= Total(s)
    decreases |s| - i
  {
    hide Total;
    if i < |s| {
      TotalNext(s, i + 1);
      TotalGrowing(s, i + 1);
    } else {
      assert s[..i] == s;
    }
  }

  lemma TotalGrows(l: Ledger, projects: seq<Symbol>, i: nat)
    requires i <= |projects|
    ensures Total(Weights(l, projects)[..i]) <= Total(Weights(l, projects))
  {
    hide Weights, Weight, Total;
    forall k | 0 <= k < |projects|
      ensures Weights(l, projects)[k] >= 0
    {
      RootSumNonNegative(ContributionsTo(l, projects[k]));
    }
    TotalGrowing(Weights(l, projects), i);
  }

  /** The cached weight is the weight of the contributions. */
  lemma CachedWeight(s: Storage, projects: seq<Symbol>, i: nat)
    requires CachesExact(s) && i < |projects|
    ensures Get(s.qfProjectStats, projects[i], EMPTY_STATS).weight == Weights(View(s), projects)[i] >= 0
  {
    hide Weights, Weight, Sum, RootSum, PayoutsExact, VaultExact, StatsExact, AccountsView, MatchedView;
    StatsLookup(s.qfProjectStats, s.qfContribution, projects[i]);
    RootSumNonNegative(ContributionsTo(View(s), projects[i]));
  }

  /** Flooring a share of the pool: the quotient, or an overflowing product. */
  lemma SharePart(pool: int, weight: nat, total: int)
    requires 0 < pool && 0 < total <= I128_MAX
    ensures SafeMulDiv(pool, weight, total, Floor) ==
            match Share(pool, weight, total)
            case Some(part) => Ok(part)
            case None => Err(RoundingError.RoundingOverflow)
  {
    ProductNatural(pool, weight);
    if pool * weight <= I128_MAX {
      SafeDivRounds(pool * weight, total, Floor);
      EuclidIsFloor(pool * weight, total);
      FloorUnique(pool * weight, total, SafeDiv(pool * weight, total, Floor).value, (pool * weight) / total);
    }
  }

  lemma NotAllFit(pool: int, weights: seq<int>, total: int, i: nat)
    requires total > 0 && i < |weights|
    ensures Share(pool, weights[i], total).None? ==> !AllFit(pool, weights, total)
  {
    hide Share;
  }

  lemma FloorsAre(pool: int, weights: seq<int>, total: int, parts: seq<int>)
    requires total > 0 && |parts| == |weights| && forall k :: 0 <= k < |weights| ==>
        Share(pool, weights[k], total) == Some(parts[k])
    ensures AllFit(pool, weights, total) && Floors(pool, weights, total) == parts
  {
    hide Share;
  }

  lemma ProductNatural(a: int, b: nat)
    requires a > 0
    ensures a * b >= 0
  {
  }

  lemma {:induction false} SomePositive(s: seq<int>) returns (i: nat)
    requires Total(s) > 0
    ensures i < |s| && s[i] > 0
  {
    var k := |s| - 1;
    if s[k] > 0 {
      i := k;
    } else {
      i := SomePositive(s[..k]);
    }
  }

  lemma PoolFits(l: Ledger, projects: seq<Symbol>)
    requires Preview(l, projects).Ok?
    ensures l.pool <= I128_MAX
  {
    hide Weights, Unique, Total;
    var weights := Weights(l, projects);
    var i := SomePositive(weights);
    assert Share(l.pool, weights[i], Total(weights)).Some?;
    AtLeastItself(l.pool, weights[i]);
  }

  lemma AtLeastItself(a: nat, b: int)
    requires b > 0
    ensures a <= a * b
  {
  }

  lemma PayNext(l: Ledger, projects: seq<Symbol>, parts: seq<int>, i: nat)
    requires i <= |projects| == |parts|
    ensures i == 0 ==> PayMatches(l, projects[..i], parts[..i]) == Ok(l)
    ensures i > 0 && PayMatches(l, projects[..i - 1], parts[..i - 1]).Ok? ==>
      var paid, p, part := PayMatches(l, projects[..i - 1], parts[..i - 1]).value, projects[i - 1], parts[i - 1];
      PayMatches(l, projects[..i], parts[..i]) ==
        if part <= 0 then Ok(paid)
        else if Get(paid.matched, p, 0) + part > I128_MAX then Err(BudgetOverflow)
        else
          var budgets := Credit(paid.budgets, p, part);
          if budgets.Err? then Err(budgets.error)
          else Ok(paid.(matched := paid.matched[p := Get(paid.matched, p, 0) + part], budgets := budgets.value))
  {
    hide Credit;
    if i > 0 {
      assert projects[..i][..i - 1] == projects[..i - 1] && parts[..i][..i - 1] == parts[..i - 1];
    }
  }

  lemma {:induction false} PayFails(l: Ledger, projects: seq<Symbol>, parts: seq<int>, i: nat)
    requires i <= |projects| == |parts|
    ensures PayMatches(l, projects[..i], parts[..i]).Err? ==>
        PayMatches(l, projects, parts) == PayMatches(l, projects[..i], parts[..i])
    decreases |projects| - i
  {
    hide PayMatches;
    if i < |projects| {
      PayNextFails(l, projects, parts, i);
      PayFails(l, projects, parts, i + 1);
    } else {
      assert projects[..i] == projects && parts[..i] == parts;
    }
  }

  lemma PayNextFails(l: Ledger, projects: seq<Symbol>, parts: seq<int>, i: nat)
    requires i < |projects| == |parts|
    ensures PayMatches(l, projects[..i], parts[..i]).Err? ==>
              PayMatches(l, projects[..i + 1], parts[..i + 1]) == PayMatches(l, projects[..i], parts[..i])
  {
    assert projects[..i + 1][..i] == projects[..i] && parts[..i + 1][..i] == parts[..i];
  }

  lemma ViewFields(s: Storage, project: Symbol)
    requires CachesExact(s)
    ensures View(s).budgets == s.orgBudget
    ensures Get(View(s).matched, project, 0) == Get(s.qfProjectStats, project, EMPTY_STATS).matchingAllocated
  {
    hide StatsOf;
    StatsLookup(s.qfProjectStats, s.qfContribution, project);
  }

  /** Noting a match leaves the other statistics exact. */
  lemma MatchStored(s: Storage, project: Symbol, entry: QfProjectStats, budgets: map<Symbol, int>)
    requires CachesExact(s) && project in s.qfContribution
    requires entry == Get(s.qfProjectStats, project, EMPTY_STATS).(matchingAllocated := entry.matchingAllocated)
    ensures var after := s.(qfProjectStats := s.qfProjectStats[project := entry], orgBudget := budgets);
            && CachesExact(after)
            && View(after) == View(s).(matched := View(s).matched[project := entry.matchingAllocated],
                                       budgets := budgets)
  {
    hide PayoutsExact, StatsExact, VaultExact, AccountsView, MatchedView, Sum, RootSum, Weight;
    StatsLookup(s.qfProjectStats, s.qfContribution, project);
    var given := GivenIn(s.qfContribution, project);
    StatsPut(s.qfProjectStats, s.qfContribution, project, entry, given);
    assert s.qfContribution[project := given] == s.qfContribution;
  }

  lemma RunStarts(w: World, events: seq<Event>)
    ensures Run(w, events[..0]) == w
  {
  }

  lemma RunContinues(w: World, events: seq<Event>, i: nat)
    requires i < |events|
    ensures Run(w, events[..i + 1]) == Next(Run(w, events[..i]), events[i])
  {
    hide Next;
    assert events[..i + 1][..i] == events[..i];
  }

  /** An accepted call keeps the ledger sound. */
  lemma StillSound(w: World, now: nat, call: Call)
    requires Sound(w.ledger)
    ensures Apply(w, now, call).Ok? ==> Sound(Apply(w, now, call).value.ledger)
  {
    hide Apply, Sound, Surplus;
    if Apply(w, now, call).Ok? {
      CallKeepsBooks(w, now, call);
    }
  }

  lemma NewCaches(s: Storage)
    requires s.maintainerBalance == map[] && s.qfProjectStats == map[] && s.qfContribution == map[]
    requires s.vaultShareBalance == map[] && s.vaultTotalShares == s.vaultTotalAssets == 0
    ensures CachesExact(s)
  {
    SumPicks(s.vaultShareBalance);
    hide Sum, StatsOf, PayoutExact;
  }

  lemma NewViews()
    ensures AccountsView(map[]) == map[] && MatchedView(map[]) == map[]
  {
  }

  lemma PoolCaches(s: Storage, pool: int)
    requires CachesExact(s)
    ensures CachesExact(s.(qfMatchingPool := pool))
  {
  }

  lemma ContributionFacts(s: Storage, project: Symbol, who: Address, amount: int)
    requires CachesExact(s) && Sound(View(s)) && amount > 0
    ensures var stats := Get(s.qfProjectStats, project, EMPTY_STATS);
            var before := Get(GivenIn(s.qfContribution, project), who, 0);
            var after := AfterContribution(s, project, who, amount);
            && before >= 0
            && Sum(after) == stats.directContributions + amount
            && RootSum(after) == stats.sqrtSum + RootDelta(before, before + amount)
            && |after| == stats.contributorCount + (if before == 0 then 1 else 0)
            && Get(MatchedView(s.qfProjectStats), project, 0) == stats.matchingAllocated
  {
    hide StatsOf, Sum, RootSum, Root, StatsExact, PayoutsExact, VaultExact, Sound, AccountsView;
    var given, stats := GivenIn(s.qfContribution, project), Get(s.qfProjectStats, project, EMPTY_STATS);
    StatsLookup(s.qfProjectStats, s.qfContribution, project);
    GivenPositive(View(s), project);
    assert given == ContributionsTo(View(s), project);
    IncrementalStats(given, who, amount, stats);
  }

  lemma GivenPositive(l: Ledger, project: Symbol)
    requires Sound(l)
    ensures forall c :: c in ContributionsTo(l, project) ==> ContributionsTo(l, project)[c] > 0
  {
    hide Sum, PrefixSum;
  }

  function AfterContribution(s: Storage, project: Symbol, who: Address, amount: int): map<Address, int> {
    var given := GivenIn(s.qfContribution, project);
    given[who := Get(given, who, 0) + amount]
  }

  function ContributionStored(s: Storage, project: Symbol, who: Address, amount: int, entry: QfProjectStats,
                              nonces: map<Address, nat>, budgets: map<Symbol, int>): Storage {
    s.(qfContribution := s.qfContribution[project := AfterContribution(s, project, who, amount)],
       qfProjectStats := s.qfProjectStats[project := entry], nonces := nonces, orgBudget := budgets)
  }

  /** The refusals of a contribution in their order. */
  lemma ContributeSteps(s: Storage, tokens: Tokens, project: Symbol, who: Address, amount: int, nonce: Option<nat>)
    ensures var r := ApplyContribute(World(View(s), tokens), project, who, amount, nonce);
            var may := MayContribute(s.config, s.humanity, s.organizations, project, who, amount);
            if may.Fail? then r == Err(may.error)
            else if Get(GivenIn(s.qfContribution, project), who, 0) + amount > I128_MAX then r == Err(BudgetOverflow)
            else if UseNonce(s.nonces, who, nonce).Err? then r == Err(UseNonce(s.nonces, who, nonce).error)
            else
              var fit := StatsFit(AfterContribution(s, project, who, amount));
              if fit.Fail? then r == Err(fit.error)
              else if Credit(s.orgBudget, project, amount).Err?
                  then r == Err(Credit(s.orgBudget, project, amount).error)
              else if Move(tokens, who, SELF, amount).Err? then r == Err(Move(tokens, who, SELF, amount).error)
              else r.Ok?
  {
    hide Sum, MatchedView, AccountsView, StatsFit, Move, Credit, UseNonce, MayContribute, GivenIn;
  }

  /** The entries an accepted contribution writes are what the ledger says, with exact caches. */
  lemma ContributeAccepted(s: Storage, tokens: Tokens, project: Symbol, who: Address, amount: int, nonce: Option<nat>,
                           entry: QfProjectStats, nonces: map<Address, nat>, budgets: map<Symbol, int>,
                           balances: Tokens)
    requires CachesExact(s) && MayContribute(s.config, s.humanity, s.organizations, project, who, amount).Pass?
    requires Get(GivenIn(s.qfContribution, project), who, 0) + amount <= I128_MAX
    requires StatsOf(entry, AfterContribution(s, project, who, amount))
        && StatsFit(AfterContribution(s, project, who, amount)).Pass?
    requires entry.matchingAllocated == Get(MatchedView(s.qfProjectStats), project, 0)
    requires UseNonce(s.nonces, who, nonce) == Ok(nonces)
    requires Credit(s.orgBudget, project, amount) == Ok(budgets) && Move(tokens, who, SELF, amount) == Ok(balances)
    ensures var after := ContributionStored(s, project, who, amount, entry, nonces, budgets);
            && ApplyContribute(World(View(s), tokens), project, who, amount, nonce) == Ok(World(View(after), balances))
            && CachesExact(after)
  {
    hide Sum, MatchedView, AccountsView, StatsFit, StatsOf, StatsExact, PayoutsExact, VaultExact;
    hide Move, Credit, UseNonce, MayContribute, GivenIn;
    StatsPut(s.qfProjectStats, s.qfContribution, project, entry, AfterContribution(s, project, who, amount));
  }
}
