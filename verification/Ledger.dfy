// The payout registry as a transition system (lib.rs, zero_copy.rs): what every entry point does to the accounts it
// keeps and to the token balances, without the caches the contract stores beside them.

module Ledger {
  import opened Common
  import opened Sums
  import opened SquareRoots
  import opened Rounding
  import opened VestingSearch

  type Symbol = string
  type Address = nat

  /** The contract's own address. It never signs a call, so it is never a payer. */
  const SELF: Address := 0

  const MAX_AMOUNT_LIMIT: int := 10_000_000_000_000_000_000
  const DEFAULT_FEE_BPS := 30

  datatype PrinceError =
    | AlreadyInitialized | ContractNotInitialized | EmptyAdminList | InvalidThreshold | ProtocolPaused | Reentrancy
    | NotAuthorized | InvalidAmount | AmountExceedsLimit | OrgNotFound | OrgAlreadyRegistered | InvalidNonce
    | MaxAdminLimitReached | AdminAlreadyExists | CannotRemoveLastAdmin | NotAnAdmin
    | MaintainerAlreadyRegistered | MaintainerNotRegistered | MaintainerOrgMismatch
    | BudgetOverflow | InsufficientBudget | PayoutOverflow | EmptyBatch | BatchSizeExceeded
    | NoClaimableBalance | PayoutLocked
    | HumanityVerificationRequired | QuadraticOverflow | DuplicateProject | EmptyMatchingPool | EmptyQuadraticRound
    | RoundingOverflow | ZeroSharesMinted | InsufficientShareBalance
    | FlashLoanInsufficientLiquidity | FlashLoanRepaymentFailed
    | SignatureMissing  // `require_auth` of the contract's own address
    | TransferFailed    // the token contract refuses the transfer
    | Aborted           // an unwrapped overflow, or a callback that fails

  datatype Config = Config(admin: Address, paused: bool)

  /** A maintainer's account: all tranches ever allocated and what has been paid out of them. */
  datatype Account = Account(claimed: int, tranches: Schedule)

  type Tokens = map<Address, int>

  datatype Ledger = Ledger(
    config: Option<Config>,
    admins: map<Symbol, seq<Address>>,
    leads: map<Symbol, Address>,
    budgets: map<Symbol, int>,
    employers: map<Address, Symbol>,
    accounts: map<Address, Account>,
    humans: set<Address>,
    pool: int,
    contributions: map<Symbol, map<Address, int>>,
    matched: map<Symbol, int>,
    shares: map<Address, int>,
    timeLocks: map<(Address, nat), int>,
    nonces: map<Address, nat>,
    feeBps: int)

  /** The registry's ledger and the balances the token contract keeps. */
  datatype World = World(ledger: Ledger, tokens: Tokens)

  datatype PayoutParams = PayoutParams(maintainer: Address, amount: int)

  datatype Call =
    | Init(initialAdmins: seq<Address>, threshold: nat)
    | RegisterOrg(id: Symbol, admin: Address)
    | AddAdmin(org: Symbol, admin: Address, newAdmin: Address)
    | RemoveAdmin(org: Symbol, admin: Address, oldAdmin: Address)
    | AddMaintainer(org: Symbol, maintainer: Address)
    | VerifyHumanity(admin: Address, human: Address)
    | RevokeHumanity(admin: Address, human: Address)
    | Pause
    | Unpause
    | SetFlashLoanFee(admin: Address, bps: int)
    | FundOrg(org: Symbol, from: Address, amount: int, nonce: Option<nat>)
    | DepositPool(from: Address, amount: int)
    | Contribute(project: Symbol, from: Address, amount: int, nonce: Option<nat>)
    | Distribute(admin: Address, projects: seq<Symbol>)
    | Allocate(org: Symbol, admin: Address, maintainer: Address, amount: int, tranches: Schedule)
    | BatchAllocate(admin: Address, org: Symbol, payouts: seq<PayoutParams>)
    | Claim(maintainer: Address, nonce: Option<nat>)
    | VaultDeposit(from: Address, assets: int)
    | VaultWithdraw(from: Address, burned: int)
    | CreateVault(from: Address, owner: Address, amount: int, maturity: nat)
    | ClaimVault(owner: Address, maturity: nat)
    | FlashLoan(receiver: Address, amount: int, callback: seq<Action>)

  /** What a borrower's callback does: move tokens, or call the registry again, with or without catching the failure. */
  datatype Action =
    | Transfer(from: Address, to: Address, amount: int)
    | Reenter(call: Call, caught: bool)

  type Outcome<T> = Result<T, PrinceError>

  /** Calls that set up members and roles and move no money. */
  predicate Administration(call: Call) {
    call.Init? || call.RegisterOrg? || call.AddAdmin? || call.RemoveAdmin? || call.AddMaintainer?
    || call.VerifyHumanity? || call.RevokeHumanity? || call.Pause? || call.Unpause? || call.SetFlashLoanFee?
  }

  // --- Pieces -------------------------------------------------------------------------------------------

  /** `assert_active` */
  function Active(config: Option<Config>): Check<PrinceError> {
    if config.None? then Fail(ContractNotInitialized)
    else if config.value.paused then Fail(ProtocolPaused)
    else Pass
  }

  function ProtocolAdmin(config: Option<Config>, admin: Address): Check<PrinceError> {
    if config.None? then Fail(ContractNotInitialized)
    else if admin != config.value.admin then Fail(NotAuthorized)
    else Pass
  }

  function OrgAdmin(admins: map<Symbol, seq<Address>>, org: Symbol, admin: Address): Check<PrinceError> {
    if org !in admins then Fail(OrgNotFound)
    else if admin !in admins[org] then Fail(NotAuthorized)
    else Pass
  }

  /** The bounds every funding amount is checked against. */
  function Amount(amount: int): Check<PrinceError> {
    if amount <= 0 then Fail(InvalidAmount)
    else if amount > MAX_AMOUNT_LIMIT then Fail(AmountExceedsLimit)
    else Pass
  }

  /** A transfer of the token: exact, refused without funds or when the receiver's balance overflows. */
  function Move(tokens: Tokens, from: Address, to: Address, amount: int): Outcome<Tokens> {
    if amount < 0 || Get(tokens, from, 0) < amount then Err(TransferFailed)
    else
      var taken := tokens[from := Get(tokens, from, 0) - amount];
      if Get(taken, to, 0) + amount > I128_MAX then Err(TransferFailed)
      else Ok(taken[to := Get(taken, to, 0) + amount])
  }

  /** `verify_and_consume_nonce`; the calls without a nonce pass none. */
  function UseNonce(nonces: map<Address, nat>, caller: Address, expected: Option<nat>): Outcome<map<Address, nat>> {
    if expected.None? then Ok(nonces)
    else if Get(nonces, caller, 0) != expected.value then Err(InvalidNonce)
    else if expected.value >= U64_MAX then Err(InvalidNonce)
    else Ok(nonces[caller := expected.value + 1])
  }

  /** `add_org_budget` */
  function Credit(budgets: map<Symbol, int>, org: Symbol, amount: int): Outcome<map<Symbol, int>> {
    var budget := Get(budgets, org, 0) + amount;
    if budget > I128_MAX then Err(BudgetOverflow) else Ok(budgets[org := budget])
  }

  /** `deduct_org_budget` */
  function Debit(budgets: map<Symbol, int>, org: Symbol, amount: int): Outcome<map<Symbol, int>> {
    var budget := Get(budgets, org, 0);
    if budget < amount then Err(InsufficientBudget) else Ok(budgets[org := budget - amount])
  }

  function AccountOf(accounts: map<Address, Account>, maintainer: Address): Account {
    Get(accounts, maintainer, Account(0, []))
  }

  /** What a maintainer has been allocated and not yet been paid. */
  function Owed(a: Account): int {
    TrancheTotal(a.tranches) - a.claimed
  }

  /** Appending tranches of `amount` in all to an account. */
  function Grant(accounts: map<Address, Account>, maintainer: Address, amount: int, tranches: Schedule)
    : Outcome<map<Address, Account>>
  {
    var account := AccountOf(accounts, maintainer);
    if Owed(account) + amount > I128_MAX then Err(PayoutOverflow)
    else Ok(accounts[maintainer := account.(tranches := account.tranches + tranches)])
  }

  // --- Quadratic funding ----------------------------------------------------------------------------------

  function GivenIn(contributions: map<Symbol, map<Address, int>>, project: Symbol): map<Address, int> {
    if project in contributions then contributions[project] else map[]
  }

  function ContributionsTo(l: Ledger, project: Symbol): map<Address, int> {
    GivenIn(l.contributions, project)
  }

  function Roots(contributions: map<Address, int>): map<Address, int> {
    map who | who in contributions && contributions[who] >= 0 :: Root(contributions[who])
  }

  ghost function RootSum(contributions: map<Address, int>): int {
    Sum(Roots(contributions))
  }

  ghost function Weight(contributions: map<Address, int>): int {
    RootSum(contributions) * RootSum(contributions)
  }

  /** The cached statistics have to fit their types. */
  ghost function StatsFit(contributions: map<Address, int>): Check<PrinceError> {
    if Sum(contributions) > I128_MAX then Fail(BudgetOverflow)
    else if RootSum(contributions) > I128_MAX || |contributions| > U32_MAX || Weight(contributions) > I128_MAX
        then Fail(QuadraticOverflow)
    else Pass
  }

  ghost function Weights(l: Ledger, projects: seq<Symbol>): (r: seq<int>)
    ensures |r| == |projects|
    ensures forall i :: 0 <= i < |projects| ==> r[i] == Weight(ContributionsTo(l, projects[i]))
  {
    seq(|projects|, i requires 0 <= i < |projects| => Weight(ContributionsTo(l, projects[i])))
  }

  predicate Unique(projects: seq<Symbol>) {
    forall i, j :: 0 <= i < j < |projects| ==> projects[i] != projects[j]
  }

  /** `qf_preview_distribution`: each project's floored share of the pool. */
  ghost function Preview(l: Ledger, projects: seq<Symbol>): Outcome<seq<int>> {
    var weights := Weights(l, projects);
    var total := Total(weights);
    :- Need(projects != [], EmptyBatch);
    :- Need(|projects| <= 100, BatchSizeExceeded);
    :- Need(Unique(projects), DuplicateProject);
    :- Need(l.pool > 0, EmptyMatchingPool);
    :- Need(total <= I128_MAX, QuadraticOverflow);
    :- Need(total > 0, EmptyQuadraticRound);
    :- Need(AllFit(l.pool, weights, total), PrinceError.RoundingOverflow);
    Ok(Floors(l.pool, weights, total))
  }

  /** A floored share of the pool; `None` when the product overflows. */
  function Share(pool: int, weight: int, total: int): Option<int>
    requires total > 0
  {
    if pool * weight <= I128_MAX then Some((pool * weight) / total) else None
  }

  predicate AllFit(pool: int, weights: seq<int>, total: int)
    requires total > 0
  {
    forall i :: 0 <= i < |weights| ==> Share(pool, weights[i], total).Some?
  }

  function Floors(pool: int, weights: seq<int>, total: int): (parts: seq<int>)
    requires total > 0 && AllFit(pool, weights, total)
    ensures |parts| == |weights|
    ensures forall i :: 0 <= i < |weights| ==> parts[i] == Share(pool, weights[i], total).value
  {
    seq(|weights|, i requires 0 <= i < |weights| => Share(pool, weights[i], total).value)
  }

  /** Pays the matches of the first projects into their budgets. */
  function PayMatches(l: Ledger, projects: seq<Symbol>, parts: seq<int>): Outcome<Ledger>
    requires |parts| == |projects|
  {
    if projects == [] then Ok(l)
    else
      var k := |projects| - 1;
      var paid :- PayMatches(l, projects[..k], parts[..k]);
      if parts[k] <= 0 then Ok(paid)
      else
        :- Need(Get(paid.matched, projects[k], 0) + parts[k] <= I128_MAX, BudgetOverflow);
        var budgets :- Credit(paid.budgets, projects[k], parts[k]);
        Ok(paid.(matched := paid.matched[projects[k] := Get(paid.matched, projects[k], 0) + parts[k]],
                 budgets := budgets))
  }

  // --- Entry points ---------------------------------------------------------------------------------------

  function ApplyInit(w: World, admins: seq<Address>, threshold: nat): Outcome<World> {
    var l := w.ledger;
    :- Need(l.config.None?, AlreadyInitialized);
    :- Need(admins != [], EmptyAdminList);
    :- Need(|admins| == 1 && threshold == 1, InvalidThreshold);
    Ok(w.(ledger := l.(config := Some(Config(admins[0], false)))))
  }

  function ApplyRegisterOrg(w: World, id: Symbol, admin: Address): Outcome<World> {
    var l := w.ledger;
    :- Need(id !in l.admins, OrgAlreadyRegistered);
    Ok(w.(ledger := l.(admins := l.admins[id := [admin]], leads := l.leads[id := admin],
                       budgets := l.budgets[id := 0])))
  }

  function ApplyAddAdmin(w: World, org: Symbol, admin: Address, newAdmin: Address): Outcome<World> {
    var l := w.ledger;
    :- OrgAdmin(l.admins, org, admin);
    :- Need(|l.admins[org]| < 10, MaxAdminLimitReached);
    :- Need(newAdmin !in l.admins[org], AdminAlreadyExists);
    Ok(w.(ledger := l.(admins := l.admins[org := l.admins[org] + [newAdmin]])))
  }

  function IndexOf(s: seq<Address>, a: Address): (i: nat)
    requires a in s
    ensures i < |s| && s[i] == a && a !in s[..i]
  {
    if s[0] == a then 0 else
      var j := IndexOf(s[1..], a);
      assert s[..j + 1] == [s[0]] + s[1..][..j];
      j + 1
  }

  function ApplyRemoveAdmin(w: World, org: Symbol, admin: Address, oldAdmin: Address): Outcome<World> {
    var l := w.ledger;
    :- OrgAdmin(l.admins, org, admin);
    var admins := l.admins[org];
    :- Need(|admins| > 1, CannotRemoveLastAdmin);
    if oldAdmin !in admins then Err(NotAnAdmin)
    else
      var i := IndexOf(admins, oldAdmin);
      Ok(w.(ledger := l.(admins := l.admins[org := admins[..i] + admins[i + 1..]])))
  }

  function ApplyAddMaintainer(w: World, org: Symbol, maintainer: Address): Outcome<World> {
    var l := w.ledger;
    :- Need(org in l.leads, OrgNotFound);
    :- Need(l.leads[org] != SELF, SignatureMissing);
    :- Need(maintainer !in l.employers, MaintainerAlreadyRegistered);
    Ok(w.(ledger := l.(employers := l.employers[maintainer := org],
                       accounts := l.accounts[maintainer := Account(0, [])])))
  }

  function Humans(humans: set<Address>, human: Address, verified: bool): set<Address> {
    if verified then humans + {human} else humans - {human}
  }

  function ApplyHumanity(w: World, admin: Address, human: Address, verified: bool): Outcome<World> {
    var l := w.ledger;
    :- ProtocolAdmin(l.config, admin);
    Ok(w.(ledger := l.(humans := Humans(l.humans, human, verified))))
  }

  function ApplyPause(w: World, paused: bool): Outcome<World> {
    var l := w.ledger;
    :- Need(l.config.Some?, ContractNotInitialized);
    Ok(w.(ledger := l.(config := Some(l.config.value.(paused := paused)))))
  }

  function ApplySetFee(w: World, admin: Address, bps: int): Outcome<World> {
    var l := w.ledger;
    :- ProtocolAdmin(l.config, admin);
    :- Need(1 <= bps <= 1000, InvalidAmount);
    Ok(w.(ledger := l.(feeBps := bps)))
  }

  function ApplyFund(w: World, org: Symbol, from: Address, amount: int, nonce: Option<nat>): Outcome<World> {
    var l := w.ledger;
    :- Active(l.config);
    :- Need(from != SELF, SignatureMissing);
    :- Amount(amount);
    :- Need(org in l.admins, OrgNotFound);
    var nonces :- UseNonce(l.nonces, from, nonce);
    var budgets :- Credit(l.budgets, org, amount);
    var tokens :- Move(w.tokens, from, SELF, amount);
    Ok(World(l.(budgets := budgets, nonces := nonces), tokens))
  }

  function ApplyDepositPool(w: World, from: Address, amount: int): Outcome<World> {
    var l := w.ledger;
    :- Active(l.config);
    :- Need(from != SELF, SignatureMissing);
    :- Amount(amount);
    :- Need(l.pool + amount <= I128_MAX, BudgetOverflow);
    var tokens :- Move(w.tokens, from, SELF, amount);
    Ok(World(l.(pool := l.pool + amount), tokens))
  }

  /** The guards of a contribution. */
  function MayContribute(config: Option<Config>, humans: set<Address>, admins: map<Symbol, seq<Address>>,
                         project: Symbol, from: Address, amount: int): (r: Check<PrinceError>)
    ensures r.Pass? ==> from != SELF && 0 < amount <= MAX_AMOUNT_LIMIT && project in admins
  {
    if Active(config).Fail? then Active(config)
    else if from == SELF then Fail(SignatureMissing)
    else if Amount(amount).Fail? then Amount(amount)
    else if from !in humans then Fail(HumanityVerificationRequired)
    else Need(project in admins, OrgNotFound)
  }

  ghost function ApplyContribute(w: World, project: Symbol, from: Address, amount: int,
                                 nonce: Option<nat>): Outcome<World> {
    var l := w.ledger;
    :- MayContribute(l.config, l.humans, l.admins, project, from, amount);
    var given := ContributionsTo(l, project);
    :- Need(Get(given, from, 0) + amount <= I128_MAX, BudgetOverflow);
    var nonces :- UseNonce(l.nonces, from, nonce);
    var after := given[from := Get(given, from, 0) + amount];
    :- StatsFit(after);
    var budgets :- Credit(l.budgets, project, amount);
    var tokens :- Move(w.tokens, from, SELF, amount);
    Ok(World(l.(contributions := l.contributions[project := after],
                matched := l.matched[project := Get(l.matched, project, 0)],
                nonces := nonces, budgets := budgets), tokens))
  }

  ghost function ApplyDistribute(w: World, admin: Address, projects: seq<Symbol>): Outcome<World> {
    var l := w.ledger;
    :- Active(l.config);
    :- ProtocolAdmin(l.config, admin);
    var parts :- Preview(l, projects);
    if |parts| != |projects| then Err(Aborted)
    else
      var paid :- PayMatches(l, projects, parts);
      Ok(w.(ledger := paid.(pool := l.pool - Total(parts))))
  }

  /** The checks on a vesting schedule: positive bounded amounts, non-decreasing times, checked sum. */
  function ScheduleTotal(s: Schedule): Outcome<int> {
    if s == [] then Ok(0)
    else
      var k := |s| - 1;
      var total :- ScheduleTotal(s[..k]);
      :- Amount(s[k].amount);
      :- Need(k == 0 || s[k - 1].unlockTimestamp <= s[k].unlockTimestamp, InvalidAmount);
      :- Need(total + s[k].amount <= I128_MAX, PayoutOverflow);
      Ok(total + s[k].amount)
  }

  function Employed(employers: map<Address, Symbol>, maintainer: Address, org: Symbol): Check<PrinceError> {
    if maintainer !in employers then Fail(MaintainerNotRegistered)
    else Need(employers[maintainer] == org, MaintainerOrgMismatch)
  }

  function ApplyAllocate(w: World, org: Symbol, admin: Address, maintainer: Address, amount: int,
                         tranches: Schedule): Outcome<World> {
    var l := w.ledger;
    :- Active(l.config);
    :- OrgAdmin(l.admins, org, admin);
    :- Amount(amount);
    :- Need(tranches != [], EmptyBatch);
    var total :- ScheduleTotal(tranches);
    :- Need(total == amount, InvalidAmount);
    :- Employed(l.employers, maintainer, org);
    var budgets :- Debit(l.budgets, org, amount);
    var accounts :- Grant(l.accounts, maintainer, amount, tranches);
    Ok(w.(ledger := l.(budgets := budgets, accounts := accounts)))
  }

  /** The validation pass of a batch. */
  function BatchTotal(employers: map<Address, Symbol>, org: Symbol, payouts: seq<PayoutParams>): Outcome<int> {
    if payouts == [] then Ok(0)
    else
      var k := |payouts| - 1;
      var total :- BatchTotal(employers, org, payouts[..k]);
      :- Amount(payouts[k].amount);
      :- Employed(employers, payouts[k].maintainer, org);
      :- Need(total + payouts[k].amount <= I128_MAX, PayoutOverflow);
      Ok(total + payouts[k].amount)
  }

  /** Every entry of a batch becomes a tranche that is unlocked at once. */
  function GrantAll(accounts: map<Address, Account>, payouts: seq<PayoutParams>): Outcome<map<Address, Account>> {
    if payouts == [] then Ok(accounts)
    else
      var k := |payouts| - 1;
      var granted :- GrantAll(accounts, payouts[..k]);
      Grant(granted, payouts[k].maintainer, payouts[k].amount, [VestingTranche(0, payouts[k].amount)])
  }

  /** Unlike the single allocation, a batch is accepted while the protocol is paused. */
  function ApplyBatchAllocate(w: World, admin: Address, org: Symbol, payouts: seq<PayoutParams>): Outcome<World> {
    var l := w.ledger;
    :- OrgAdmin(l.admins, org, admin);
    :- Need(|payouts| <= 100, BatchSizeExceeded);
    :- Need(payouts != [], EmptyBatch);
    var total :- BatchTotal(l.employers, org, payouts);
    var budgets :- Debit(l.budgets, org, total);
    var accounts :- GrantAll(l.accounts, payouts);
    Ok(w.(ledger := l.(budgets := budgets, accounts := accounts)))
  }

  function ApplyClaim(w: World, now: nat, maintainer: Address, nonce: Option<nat>): Outcome<World> {
    var l := w.ledger;
    :- Active(l.config);
    :- Need(maintainer != SELF, SignatureMissing);
    var account := AccountOf(l.accounts, maintainer);
    :- Need(Owed(account) != 0, NoClaimableBalance);
    var vested := Vested(account.tranches, now);
    :- Need(vested.Some?, PayoutOverflow);
    :- Need(vested.value > account.claimed, PayoutLocked);
    var nonces :- UseNonce(l.nonces, maintainer, nonce);
    var tokens :- Move(w.tokens, SELF, maintainer, vested.value - account.claimed);
    Ok(World(l.(accounts := l.accounts[maintainer := account.(claimed := vested.value)], nonces := nonces), tokens))
  }

  /** Conversion at the vault's offset price must not overflow; while only deposits feed the vault it is one to one. */
  ghost function ConversionFits(l: Ledger, amount: int): Check<PrinceError> {
    var total := Sum(l.shares);
    Need(total < I128_MAX && amount * (total + 1) <= I128_MAX, PrinceError.RoundingOverflow)
  }

  ghost function ApplyVaultDeposit(w: World, from: Address, assets: int): Outcome<World> {
    var l := w.ledger;
    :- Active(l.config);
    :- Need(from != SELF, SignatureMissing);
    :- Amount(assets);
    :- ConversionFits(l, assets);
    :- Need(Sum(l.shares) + assets <= I128_MAX, PrinceError.RoundingOverflow);
    var tokens :- Move(w.tokens, from, SELF, assets);
    Ok(World(l.(shares := l.shares[from := Get(l.shares, from, 0) + assets]), tokens))
  }

  ghost function ApplyVaultWithdraw(w: World, from: Address, burned: int): Outcome<World> {
    var l := w.ledger;
    :- Active(l.config);
    :- Need(from != SELF, SignatureMissing);
    :- Need(burned > 0, InvalidAmount);
    :- Need(burned <= Get(l.shares, from, 0), InsufficientShareBalance);
    :- ConversionFits(l, burned);
    var tokens :- Move(w.tokens, SELF, from, burned);
    Ok(World(l.(shares := l.shares[from := Get(l.shares, from, 0) - burned]), tokens))
  }

  function ApplyCreateVault(w: World, now: nat, from: Address, owner: Address, amount: int,
                            maturity: nat): Outcome<World> {
    var l := w.ledger;
    :- Active(l.config);
    :- Need(from != SELF, SignatureMissing);
    :- Need(0 < amount <= MAX_AMOUNT_LIMIT, InvalidAmount);
    :- Need(maturity > now, InvalidAmount);
    var tokens :- Move(w.tokens, from, SELF, amount);
    var locked := Get(l.timeLocks, (owner, maturity), 0) + amount;
    :- Need(locked <= I128_MAX, Aborted);
    Ok(World(l.(timeLocks := l.timeLocks[(owner, maturity) := locked]), tokens))
  }

  function ApplyClaimVault(w: World, now: nat, owner: Address, maturity: nat): Outcome<World> {
    var l := w.ledger;
    :- Active(l.config);
    :- Need(owner != SELF, SignatureMissing);
    if (owner, maturity) !in l.timeLocks then Err(NotAuthorized)
    else
      :- Need(now >= maturity, PayoutLocked);
      var tokens :- Move(w.tokens, SELF, owner, l.timeLocks[(owner, maturity)]);
      Ok(World(l.(timeLocks := Without(l.timeLocks, (owner, maturity))), tokens))
  }

  function Fee(amount: int, bps: int): int {
    (amount * bps + 9_999) / 10_000
  }

  /**
    * The token balances after a callback. The guard is held, so calling the registry again only fails: it ends the
    * callback unless the borrower catches it. The registry's own tokens are out of reach.
    */
  function AfterCallback(tokens: Tokens, actions: seq<Action>): (r: Outcome<Tokens>)
    ensures r.Err? ==> r.error == Aborted
    decreases |actions|
  {
    if actions == [] then Ok(tokens)
    else
      match actions[0]
      case Transfer(from, to, amount) =>
        if from == SELF then Err(Aborted)
        else
          var moved := Move(tokens, from, to, amount);
          if moved.Err? then Err(Aborted) else AfterCallback(moved.value, actions[1..])
      case Reenter(_, caught) =>
        if caught then AfterCallback(tokens, actions[1..]) else Err(Aborted)
  }

  function ApplyFlashLoan(w: World, receiver: Address, amount: int, callback: seq<Action>): Outcome<World> {
    var before := Get(w.tokens, SELF, 0);
    :- Active(w.ledger.config);
    :- Amount(amount);
    :- Need(amount <= before, FlashLoanInsufficientLiquidity);
    var fee := Fee(amount, w.ledger.feeBps);
    :- Need(amount * w.ledger.feeBps + 9_999 <= I128_MAX && amount + fee <= I128_MAX, BudgetOverflow);
    var lent :- Move(w.tokens, SELF, receiver, amount);
    :- Need(receiver != SELF, Aborted);
    var after :- AfterCallback(lent, callback);
    :- Need(before + fee <= I128_MAX, BudgetOverflow);
    :- Need(Get(after, SELF, 0) >= before + fee, FlashLoanRepaymentFailed);
    Ok(w.(tokens := after))
  }

  /** One call at ledger time `now`: the next world, or the error with which it is undone. */
  ghost function Apply(w: World, now: nat, call: Call): Outcome<World> {
    match call
    case Init(admins, threshold) => ApplyInit(w, admins, threshold)
    case RegisterOrg(id, admin) => ApplyRegisterOrg(w, id, admin)
    case AddAdmin(org, admin, newAdmin) => ApplyAddAdmin(w, org, admin, newAdmin)
    case RemoveAdmin(org, admin, oldAdmin) => ApplyRemoveAdmin(w, org, admin, oldAdmin)
    case AddMaintainer(org, maintainer) => ApplyAddMaintainer(w, org, maintainer)
    case VerifyHumanity(admin, human) => ApplyHumanity(w, admin, human, true)
    case RevokeHumanity(admin, human) => ApplyHumanity(w, admin, human, false)
    case Pause => ApplyPause(w, true)
    case Unpause => ApplyPause(w, false)
    case SetFlashLoanFee(admin, bps) => ApplySetFee(w, admin, bps)
    case FundOrg(org, from, amount, nonce) => ApplyFund(w, org, from, amount, nonce)
    case DepositPool(from, amount) => ApplyDepositPool(w, from, amount)
    case Contribute(project, from, amount, nonce) => ApplyContribute(w, project, from, amount, nonce)
    case Distribute(admin, projects) => ApplyDistribute(w, admin, projects)
    case Allocate(org, admin, maintainer, amount, tranches) =>
        ApplyAllocate(w, org, admin, maintainer, amount, tranches)
    case BatchAllocate(admin, org, payouts) => ApplyBatchAllocate(w, admin, org, payouts)
    case Claim(maintainer, nonce) => ApplyClaim(w, now, maintainer, nonce)
    case VaultDeposit(from, assets) => ApplyVaultDeposit(w, from, assets)
    case VaultWithdraw(from, burned) => ApplyVaultWithdraw(w, from, burned)
    case CreateVault(from, owner, amount, maturity) => ApplyCreateVault(w, now, from, owner, amount, maturity)
    case ClaimVault(owner, maturity) => ApplyClaimVault(w, now, owner, maturity)
    case FlashLoan(receiver, amount, callback) => ApplyFlashLoan(w, receiver, amount, callback)
  }

  // --- Runs -----------------------------------------------------------------------------------------------

  /** What happens from outside: a call of the registry, or a transfer between other holders of the token. */
  datatype Event =
    | Invoked(now: nat, call: Call)
    | Transferred(from: Address, to: Address, amount: int)

  /** A failing call or transfer changes nothing. */
  ghost function Next(w: World, e: Event): World {
    match e
    case Invoked(now, call) =>
      var r := Apply(w, now, call);
      if r.Ok? then r.value else w
    case Transferred(from, to, amount) =>
      var r := Move(w.tokens, from, to, amount);
      if from != SELF && r.Ok? then w.(tokens := r.value) else w
  }

  ghost function Run(w: World, events: seq<Event>): World {
    if events == [] then w else Next(Run(w, events[..|events| - 1]), events[|events| - 1])
  }
}
