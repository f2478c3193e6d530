// Who may do what, and when: the reasons for which the payout registry refuses a call, and the rights they protect.

module LedgerGuards {
  import opened Common
  import opened Sums
  import opened SquareRoots
  import opened Rounding
  import opened VestingSearch
  import opened Ledger
  import opened Solvency
  import opened LedgerLaws
  import opened LedgerFlows

  // --- The reasons for a refusal ------------------------------------------------------------------------------

  type Reason = Option<PrinceError>

  /** A trillion tokens in stroops. */
  const LIMIT: int := 1_000_000_000_000 * 10_000_000

  /** The first of some reasons. */
  function First(r1: Reason, r2: Reason, r3: Reason := None, r4: Reason := None, r5: Reason := None, r6: Reason := None,
                 r7: Reason := None, r8: Reason := None, r9: Reason := None, r10: Reason := None): Reason {
    if r1.Some? then r1 else if r2.Some? then r2 else if r3.Some? then r3 else if r4.Some? then r4
    else if r5.Some? then r5 else if r6.Some? then r6 else if r7.Some? then r7 else if r8.Some? then r8
    else if r9.Some? then r9 else r10
  }

  function When(condition: bool, error: PrinceError): Reason {
    if condition then Some(error) else None
  }

  /** The registry is not set up, or paused. */
  function Halted(l: Ledger): Reason {
    match l.config
    case None => Some(ContractNotInitialized)
    case Some(c) => if c.paused then Some(ProtocolPaused) else None
  }

  function NoAmount(amount: int): Reason {
    if amount < 1 then Some(InvalidAmount) else if LIMIT < amount then Some(AmountExceedsLimit) else None
  }

  /** The call is not one of the protocol admin. */
  function NotProtocolAdmin(l: Ledger, caller: Address): Reason {
    match l.config
    case None => Some(ContractNotInitialized)
    case Some(c) => if caller == c.admin then None else Some(NotAuthorized)
  }

  predicate IsAdmin(l: Ledger, org: Symbol, a: Address) {
    org in l.admins && a in l.admins[org]
  }

  function NotOrgAdmin(l: Ledger, org: Symbol, caller: Address): Reason {
    if IsAdmin(l, org, caller) then None else if org in l.admins then Some(NotAuthorized) else Some(OrgNotFound)
  }

  predicate WorksFor(l: Ledger, maintainer: Address, org: Symbol) {
    maintainer in l.employers && l.employers[maintainer] == org
  }

  function NotEmployed(l: Ledger, maintainer: Address, org: Symbol): Reason {
    if WorksFor(l, maintainer, org) then None
    else if maintainer in l.employers then Some(MaintainerOrgMismatch) else Some(MaintainerNotRegistered)
  }

  /** The payer lacks the funds, or the payee's balance would overflow. */
  function NoTransfer(tokens: Tokens, from: Address, to: Address, amount: int): Reason {
    var received := if from == to then 0 else amount;
    When(amount < 0 || Get(tokens, from, 0) < amount || I128_MAX - received < Get(tokens, to, 0), TransferFailed)
  }

  function StaleNonce(l: Ledger, caller: Address, nonce: Option<nat>): Reason {
    When(nonce.Some? && (nonce.value != Get(l.nonces, caller, 0) || nonce.value >= U64_MAX), InvalidNonce)
  }

  lemma ActiveIs(l: Ledger)
    ensures Active(l.config) == match Halted(l) case None => Pass case Some(e) => Fail(e)
  {
  }

  lemma RightsAre(l: Ledger, org: Symbol, caller: Address, maintainer: Address)
    ensures ProtocolAdmin(l.config, caller) == match NotProtocolAdmin(l, caller) case None => Pass case Some(e) =>
        Fail(e)
    ensures OrgAdmin(l.admins, org, caller) == match NotOrgAdmin(l, org, caller) case None => Pass case Some(e) =>
        Fail(e)
    ensures Employed(l.employers, maintainer, org) ==
              match NotEmployed(l, maintainer, org) case None => Pass case Some(e) => Fail(e)
  {
  }

  lemma AmountIs(amount: int)
    ensures Amount(amount) == match NoAmount(amount) case None => Pass case Some(e) => Fail(e)
  {
  }

  lemma MoveIs(tokens: Tokens, from: Address, to: Address, amount: int)
    ensures NoTransfer(tokens, from, to, amount) == if Move(tokens, from, to, amount).Ok? then None
        else Some(TransferFailed)
    ensures Move(tokens, from, to, amount).Err? ==> Move(tokens, from, to, amount).error == TransferFailed
  {
  }

  lemma NonceIs(l: Ledger, caller: Address, nonce: Option<nat>)
    ensures StaleNonce(l, caller, nonce) == if UseNonce(l.nonces, caller, nonce).Ok? then None else Some(InvalidNonce)
    ensures UseNonce(l.nonces, caller, nonce).Err? ==> UseNonce(l.nonces, caller, nonce).error == InvalidNonce
  {
  }

  /** `r` is refused for the reason, if there is one, and accepted otherwise. */
  predicate RefusedFor<T>(r: Outcome<T>, reason: Reason) {
    match reason
    case None => r.Ok?
    case Some(e) => r == Err(e)
  }

  // --- Setting up -------------------------------------------------------------------------------------------------

  /** The first reason against a call that sets up members and roles. */
  function AgainstAdministration(w: World, call: Call): Reason
    requires Administration(call)
  {
    var l := w.ledger;
    match call
    case Init(admins, threshold) =>
      First(When(l.config.Some?, AlreadyInitialized), When(|admins| == 0, EmptyAdminList),
            When(|admins| > 1 || threshold != 1, InvalidThreshold))
    case RegisterOrg(id, _) => When(id in l.admins, OrgAlreadyRegistered)
    case AddAdmin(org, admin, newAdmin) =>
      First(NotOrgAdmin(l, org, admin), When(org in l.admins && 10 <= |l.admins[org]|, MaxAdminLimitReached),
            When(IsAdmin(l, org, newAdmin), AdminAlreadyExists))
    case RemoveAdmin(org, admin, oldAdmin) =>
      First(NotOrgAdmin(l, org, admin), When(org in l.admins && |l.admins[org]| < 2, CannotRemoveLastAdmin),
            When(!IsAdmin(l, org, oldAdmin), NotAnAdmin))
    case AddMaintainer(org, maintainer) =>
      First(When(org !in l.leads, OrgNotFound), When(org in l.leads && l.leads[org] == SELF, SignatureMissing),
            When(maintainer in l.employers, MaintainerAlreadyRegistered))
    case VerifyHumanity(admin, _) => NotProtocolAdmin(l, admin)
    case RevokeHumanity(admin, _) => NotProtocolAdmin(l, admin)
    case Pause => When(l.config == None, ContractNotInitialized)
    case Unpause => When(l.config == None, ContractNotInitialized)
    case SetFlashLoanFee(admin, bps) =>
      First(NotProtocolAdmin(l, admin), When(bps < 1 || 1000 < bps, InvalidAmount))
  }

  lemma AdministrationRefused(w: World, now: nat, call: Call)
    requires Administration(call)
    ensures RefusedFor(Apply(w, now, call), AgainstAdministration(w, call))
  {
  }

  // --- Paying in ----------------------------------------------------------------------------------------------------

  /** A payer and an amount that the registry takes from. */
  function Unpayable(from: Address, amount: int): Reason {
    First(When(from == SELF, SignatureMissing), NoAmount(amount))
  }

  predicate PaysIn(call: Call) {
    call.FundOrg? || call.DepositPool? || call.Contribute? || call.VaultDeposit? || call.CreateVault?
  }

  /** The first reason against a payment into the registry. */
  ghost function AgainstPayingIn(w: World, now: nat, call: Call): Reason
    requires PaysIn(call)
  {
    var l := w.ledger;
    match call
    case FundOrg(org, from, amount, nonce) =>
      First(Halted(l), Unpayable(from, amount), When(org !in l.admins, OrgNotFound), StaleNonce(l, from, nonce),
            When(I128_MAX - amount < Get(l.budgets, org, 0), BudgetOverflow),
            NoTransfer(w.tokens, from, SELF, amount))
    case DepositPool(from, amount) =>
      First(Halted(l), Unpayable(from, amount), When(I128_MAX - amount < l.pool, BudgetOverflow),
            NoTransfer(w.tokens, from, SELF, amount))
    case Contribute(project, from, amount, nonce) =>
      var given := Get(ContributionsTo(l, project), from, 0) + amount;
      var misfit := StatsFit(ContributionsTo(l, project)[from := given]);
      First(Halted(l), Unpayable(from, amount), When(from !in l.humans, HumanityVerificationRequired),
            When(project !in l.admins, OrgNotFound), When(I128_MAX < given, BudgetOverflow),
            StaleNonce(l, from, nonce), match misfit case Pass => None case Fail(e) => Some(e),
            When(I128_MAX - amount < Get(l.budgets, project, 0), BudgetOverflow),
            NoTransfer(w.tokens, from, SELF, amount))
    case VaultDeposit(from, assets) =>
      First(Halted(l), Unpayable(from, assets), UnfitConversion(l, assets),
            When(I128_MAX - assets < Sum(l.shares), PrinceError.RoundingOverflow),
            NoTransfer(w.tokens, from, SELF, assets))
    case CreateVault(from, owner, amount, maturity) =>
      First(Halted(l), When(from == SELF, SignatureMissing),
            When(amount < 1 || LIMIT < amount, InvalidAmount), When(maturity <= now, InvalidAmount),
            NoTransfer(w.tokens, from, SELF, amount),
            When(I128_MAX - amount < Get(l.timeLocks, (owner, maturity), 0), Aborted))
  }

  /** The share price conversion overflows. */
  ghost function UnfitConversion(l: Ledger, amount: int): Reason {
    When(I128_MAX <= Sum(l.shares) || I128_MAX < amount * (Sum(l.shares) + 1), PrinceError.RoundingOverflow)
  }

  lemma FundingRefused(w: World, now: nat, call: Call)
    requires call.FundOrg? || call.DepositPool?
    ensures RefusedFor(Apply(w, now, call), AgainstPayingIn(w, now, call))
  {
    hide Move, NoTransfer, UseNonce, StaleNonce, Halted, Active, Amount, NoAmount;
    ActiveIs(w.ledger);
    AmountIs(call.amount);
    MoveIs(w.tokens, call.from, SELF, call.amount);
    if call.FundOrg? {
      NonceIs(w.ledger, call.from, call.nonce);
    }
  }

  lemma ContributingRefused(w: World, now: nat, call: Call)
    requires call.Contribute?
    ensures RefusedFor(Apply(w, now, call), AgainstPayingIn(w, now, call))
  {
    hide Sum, StatsFit, Move, NoTransfer, UseNonce, StaleNonce, Halted, Active, Amount, NoAmount;
    ActiveIs(w.ledger);
    AmountIs(call.amount);
    MoveIs(w.tokens, call.from, SELF, call.amount);
    NonceIs(w.ledger, call.from, call.nonce);
  }

  lemma LockingRefused(w: World, now: nat, call: Call)
    requires call.VaultDeposit? || call.CreateVault?
    ensures RefusedFor(Apply(w, now, call), AgainstPayingIn(w, now, call))
  {
    hide Sum, Move, NoTransfer, Halted, Active, Amount, NoAmount;
    ActiveIs(w.ledger);
    var amount := if call.VaultDeposit? then call.assets else call.amount;
    AmountIs(amount);
    MoveIs(w.tokens, call.from, SELF, amount);
  }

  lemma PayingInRefused(w: World, now: nat, call: Call)
    requires PaysIn(call)
    ensures RefusedFor(Apply(w, now, call), AgainstPayingIn(w, now, call))
  {
    hide Apply, AgainstPayingIn, RefusedFor;
    if call.Contribute? {
      ContributingRefused(w, now, call);
    } else if call.FundOrg? || call.DepositPool? {
      FundingRefused(w, now, call);
    } else {
      LockingRefused(w, now, call);
    }
  }

  // --- Paying out ---------------------------------------------------------------------------------------------------

  predicate PaysOut(call: Call) {
    call.Claim? || call.VaultWithdraw? || call.ClaimVault?
  }

  /** The first reason against a payment out of the registry. */
  ghost function AgainstPayingOut(w: World, now: nat, call: Call): Reason
    requires PaysOut(call)
  {
    var l := w.ledger;
    match call
    case Claim(maintainer, nonce) =>
      var account := AccountOf(l.accounts, maintainer);
      var count := UnlockedCount(account.tranches, now);
      var due := PrefixSum(account.tranches, count) - account.claimed;
      First(Halted(l), When(maintainer == SELF, SignatureMissing),
            When(TrancheTotal(account.tranches) == account.claimed, NoClaimableBalance),
            When(!SumsFit(account.tranches, count), PayoutOverflow), When(due < 1, PayoutLocked),
            StaleNonce(l, maintainer, nonce), NoTransfer(w.tokens, SELF, maintainer, due))
    case VaultWithdraw(from, burned) =>
      First(Halted(l), When(from == SELF, SignatureMissing), When(burned < 1, InvalidAmount),
            When(Get(l.shares, from, 0) < burned, InsufficientShareBalance), UnfitConversion(l, burned),
            NoTransfer(w.tokens, SELF, from, burned))
    case ClaimVault(owner, maturity) =>
      var key := (owner, maturity);
      First(Halted(l), When(owner == SELF, SignatureMissing), When(key !in l.timeLocks, NotAuthorized),
            When(now < maturity, PayoutLocked), NoTransfer(w.tokens, SELF, owner, Get(l.timeLocks, key, 0)))
  }

  lemma PayingOutRefused(w: World, now: nat, call: Call)
    requires PaysOut(call)
    ensures RefusedFor(Apply(w, now, call), AgainstPayingOut(w, now, call))
  {
    hide Sum, Move, NoTransfer, UseNonce, StaleNonce, Halted, Active, SumsFit, UnlockedCount, PrefixSum;
    hide CheckedPrefixSum;
    ActiveIs(w.ledger);
    match call
    case Claim(maintainer, nonce) =>
      var account := AccountOf(w.ledger.accounts, maintainer);
      var count := UnlockedCount(account.tranches, now);
      CheckedSumExact(account.tranches, count);
      NonceIs(w.ledger, maintainer, nonce);
      MoveIs(w.tokens, SELF, maintainer, PrefixSum(account.tranches, count) - account.claimed);
    case VaultWithdraw(from, burned) => MoveIs(w.tokens, SELF, from, burned);
    case ClaimVault(owner, maturity) => MoveIs(w.tokens, SELF, owner, Get(w.ledger.timeLocks, (owner, maturity), 0));
  }

  // --- Allocating and distributing ----------------------------------------------------------------------------------

  /** A batch entry is in bounds and goes to a maintainer of the organisation. */
  predicate EntryFits(l: Ledger, org: Symbol, p: PayoutParams) {
    0 < p.amount <= LIMIT && WorksFor(l, p.maintainer, org)
  }

  /** A batch passes validation exactly when all entries do and the sum fits. */
  lemma {:induction false} BatchValid(l: Ledger, org: Symbol, payouts: seq<PayoutParams>)
    ensures BatchTotal(l.employers, org, payouts).Ok? <==>
              (forall i :: 0 <= i < |payouts| ==> EntryFits(l, org, payouts[i])) && BatchSum(payouts) <= I128_MAX
    ensures BatchTotal(l.employers, org, payouts).Ok? ==>
        BatchTotal(l.employers, org, payouts).value == BatchSum(payouts) >= 0
  {
    if payouts != [] {
      var k := |payouts| - 1;
      BatchValid(l, org, payouts[..k]);
      RightsAre(l, org, SELF, payouts[k].maintainer);
      AmountIs(payouts[k].amount);
      hide Amount, Employed, WorksFor;
      EntriesSplit(l, org, payouts);
      if forall i :: 0 <= i < |payouts| ==> EntryFits(l, org, payouts[i]) {
        BatchSumNonNegative(l, org, payouts[..k]);
      }
    }
  }

  lemma EntriesSplit(l: Ledger, org: Symbol, payouts: seq<PayoutParams>)
    requires payouts != []
    ensures var k := |payouts| - 1;
            (forall i :: 0 <= i < |payouts| ==> EntryFits(l, org, payouts[i])) <==>
              (forall i :: 0 <= i < k ==> EntryFits(l, org, payouts[..k][i])) && EntryFits(l, org, payouts[k])
  {
    hide EntryFits;
    var k := |payouts| - 1;
    assert forall i :: 0 <= i < k ==> payouts[..k][i] == payouts[i];
  }

  lemma {:induction false} BatchSumNonNegative(l: Ledger, org: Symbol, payouts: seq<PayoutParams>)
    requires forall i :: 0 <= i < |payouts| ==> EntryFits(l, org, payouts[i])
    ensures BatchSum(payouts) >= 0
  {
    if payouts != [] {
      BatchSumNonNegative(l, org, payouts[..|payouts| - 1]);
    }
  }

  /** The reason against one tranche behind others that passed. */
  function AgainstTranche(s: Schedule, k: nat): Reason
    requires k < |s|
  {
    First(NoAmount(s[k].amount), When(k > 0 && s[k].unlockTimestamp < s[k - 1].unlockTimestamp, InvalidAmount),
          When(I128_MAX < PrefixSum(s, k + 1), PayoutOverflow))
  }

  /** A schedule is refused for the first of its tranches that has a reason against it. */
  lemma {:induction false} ScheduleRefused(s: Schedule)
    ensures ScheduleTotal(s).Err? ==>
              exists k: nat :: k < |s| && ScheduleTotal(s[..k]).Ok?
                  && AgainstTranche(s, k) == Some(ScheduleTotal(s).error)
  {
    if s != [] {
      var n := |s| - 1;
      ScheduleRefused(s[..n]);
      if ScheduleTotal(s[..n]).Err? {
        var k: nat :| k < n && ScheduleTotal(s[..n][..k]).Ok?
            && AgainstTranche(s[..n], k) == Some(ScheduleTotal(s[..n]).error);
        assert s[..n][..k] == s[..k] && s[..n][..k + 1] == s[..k + 1];
        PrefixSumOf(s[..n], s, k + 1);
        assert AgainstTranche(s, k) == AgainstTranche(s[..n], k);
        assert ScheduleTotal(s[..k]).Ok? && AgainstTranche(s, k) == Some(ScheduleTotal(s).error);
      } else if ScheduleTotal(s).Err? {
        hide Sorted;
        ScheduleAccepted(s[..n]);
        PrefixSumOf(s[..n], s, n);
        AmountIs(s[n].amount);
        assert ScheduleTotal(s[..n]).Ok? && AgainstTranche(s, n) == Some(ScheduleTotal(s).error);
      }
    }
  }

  /** The reason against one batch entry behind others that passed. */
  function AgainstEntry(l: Ledger, org: Symbol, payouts: seq<PayoutParams>, k: nat): Reason
    requires k < |payouts|
  {
    First(NoAmount(payouts[k].amount), NotEmployed(l, payouts[k].maintainer, org),
          When(I128_MAX < BatchSum(payouts[..k + 1]), PayoutOverflow))
  }

  /** Entry `k` is the first one with a reason against it. */
  predicate FirstFault(l: Ledger, org: Symbol, payouts: seq<PayoutParams>, k: nat, error: PrinceError) {
    k < |payouts| && BatchTotal(l.employers, org, payouts[..k]).Ok? && AgainstEntry(l, org, payouts, k) == Some(error)
  }

  lemma EarlierFault(l: Ledger, org: Symbol, payouts: seq<PayoutParams>, k: nat, error: PrinceError)
    requires payouts != [] && FirstFault(l, org, payouts[..|payouts| - 1], k, error)
    ensures FirstFault(l, org, payouts, k, error)
  {
    hide NotEmployed, NoAmount, BatchTotal, BatchSum;
    var n := |payouts| - 1;
    assert payouts[..n][..k] == payouts[..k] && payouts[..n][..k + 1] == payouts[..k + 1];
  }

  lemma LastFault(l: Ledger, org: Symbol, payouts: seq<PayoutParams>)
    requires payouts != [] && BatchTotal(l.employers, org, payouts).Err?
    requires BatchTotal(l.employers, org, payouts[..|payouts| - 1]).Ok?
    ensures FirstFault(l, org, payouts, |payouts| - 1, BatchTotal(l.employers, org, payouts).error)
  {
    var n := |payouts| - 1;
    BatchValid(l, org, payouts[..n]);
    RightsAre(l, org, SELF, payouts[n].maintainer);
    AmountIs(payouts[n].amount);
    assert payouts[..n + 1] == payouts;
    hide Amount, Employed, NotEmployed, NoAmount;
  }

  /** A batch is refused for the first of its entries that has a reason against it. */
  lemma {:induction false} BatchRefused(l: Ledger, org: Symbol, payouts: seq<PayoutParams>)
    ensures BatchTotal(l.employers, org, payouts).Err? ==>
              exists k: nat :: FirstFault(l, org, payouts, k, BatchTotal(l.employers, org, payouts).error)
  {
    if payouts != [] && BatchTotal(l.employers, org, payouts).Err? {
      var n, error := |payouts| - 1, BatchTotal(l.employers, org, payouts).error;
      if BatchTotal(l.employers, org, payouts[..n]).Err? {
        hide FirstFault;
        BatchRefused(l, org, payouts[..n]);
        var k: nat :| FirstFault(l, org, payouts[..n], k, BatchTotal(l.employers, org, payouts[..n]).error);
        EarlierFault(l, org, payouts, k, error);
      } else {
        hide FirstFault;
        LastFault(l, org, payouts);
      }
    }
  }

  /** What a maintainer would be owed after a batch still fits. */
  predicate ShareFits(accounts: map<Address, Account>, payouts: seq<PayoutParams>, m: Address) {
    Owed(AccountOf(accounts, m)) + BatchShare(payouts, m) <= I128_MAX
  }

  predicate AllSharesFit(accounts: map<Address, Account>, payouts: seq<PayoutParams>) {
    forall i :: 0 <= i < |payouts| ==> ShareFits(accounts, payouts, payouts[i].maintainer)
  }

  /** All grants of a batch succeed exactly when every maintainer in it stays within range. */
  lemma {:induction false} GrantsSucceed(accounts: map<Address, Account>, payouts: seq<PayoutParams>)
    requires forall i :: 0 <= i < |payouts| ==> payouts[i].amount > 0
    ensures GrantAll(accounts, payouts).Err? ==> GrantAll(accounts, payouts).error == PayoutOverflow
    ensures GrantAll(accounts, payouts).Ok? <==>
              (forall i :: 0 <= i < |payouts| ==> ShareFits(accounts, payouts, payouts[i].maintainer))
  {
    hide ShareFits, BatchShare, Owed;
    if payouts != [] {
      var k := |payouts| - 1;
      var last := payouts[k];
      GrantsSucceed(accounts, payouts[..k]);
      forall i | 0 <= i < |payouts|
        ensures ShareFits(accounts, payouts, payouts[i].maintainer) ==>
            ShareFits(accounts, payouts[..k], payouts[i].maintainer)
        ensures payouts[i].maintainer != last.maintainer ==>
                (ShareFits(accounts, payouts, payouts[i].maintainer) <==>
                 ShareFits(accounts, payouts[..k], payouts[i].maintainer))
      {
        LastShare(accounts, payouts, payouts[i].maintainer);
      }
      if GrantAll(accounts, payouts[..k]).Ok? {
        GrantedShare(accounts, payouts, k);
      }
      assert forall i :: 0 <= i < k ==> payouts[..k][i] == payouts[i];
    }
  }

  lemma LastShare(accounts: map<Address, Account>, payouts: seq<PayoutParams>, m: Address)
    requires payouts != [] && payouts[|payouts| - 1].amount > 0
    ensures ShareFits(accounts, payouts, m) ==> ShareFits(accounts, payouts[..|payouts| - 1], m)
    ensures m != payouts[|payouts| - 1].maintainer ==>
            (ShareFits(accounts, payouts, m) <==> ShareFits(accounts, payouts[..|payouts| - 1], m))
  {
    hide Owed, AccountOf;
  }

  /** After the first grants the next one fits exactly when its maintainer's share so far does. */
  lemma GrantedShare(accounts: map<Address, Account>, payouts: seq<PayoutParams>, k: nat)
    requires k == |payouts| - 1 && GrantAll(accounts, payouts[..k]).Ok?
    ensures var granted := GrantAll(accounts, payouts[..k]).value;
            Owed(AccountOf(granted, payouts[k].maintainer)) + payouts[k].amount <= I128_MAX <==>
              ShareFits(accounts, payouts, payouts[k].maintainer)
  {
    GrantsLand(accounts, payouts[..k], payouts[k].maintainer);
    GrantsKeepClaims(accounts, payouts[..k], payouts[k].maintainer);
    hide GrantAll, AccountOf, TrancheTotal;
  }

  /** The first reason against an allocation. */
  function AgainstAllocating(w: World, call: Call): Reason
    requires call.Allocate? || call.BatchAllocate?
  {
    var l := w.ledger;
    match call
    case Allocate(org, admin, maintainer, amount, tranches) =>
      First(Halted(l), NotOrgAdmin(l, org, admin), NoAmount(amount), When(tranches == [], EmptyBatch),
            match ScheduleTotal(tranches) case Ok(_) => None case Err(e) => Some(e),
            When(TrancheTotal(tranches) != amount, InvalidAmount), NotEmployed(l, maintainer, org),
            When(Get(l.budgets, org, 0) < amount, InsufficientBudget),
            When(I128_MAX - amount < Owed(AccountOf(l.accounts, maintainer)), PayoutOverflow))
    case BatchAllocate(admin, org, payouts) =>
      First(NotOrgAdmin(l, org, admin), When(100 < |payouts|, BatchSizeExceeded), When(payouts == [], EmptyBatch),
            match BatchTotal(l.employers, org, payouts) case Ok(_) => None case Err(e) => Some(e),
            When(Get(l.budgets, org, 0) < BatchSum(payouts), InsufficientBudget),
            When(!AllSharesFit(l.accounts, payouts), PayoutOverflow))
  }

  lemma AllocatingRefused(w: World, now: nat, call: Call)
    requires call.Allocate? || call.BatchAllocate?
    ensures RefusedFor(Apply(w, now, call), AgainstAllocating(w, call))
  {
    hide Halted, Active, Amount, NoAmount, ScheduleTotal, TrancheTotal, Owed, BatchTotal, BatchSum, GrantAll, ShareFits;
    hide OrgAdmin, NotOrgAdmin, Employed, NotEmployed, Sorted;
    var l := w.ledger;
    ActiveIs(l);
    match call
    case Allocate(org, admin, maintainer, amount, tranches) =>
      RightsAre(l, org, admin, maintainer);
      AmountIs(amount);
      ScheduleAccepted(tranches);
    case BatchAllocate(admin, org, payouts) =>
      RightsAre(l, org, admin, SELF);
      BatchValid(l, org, payouts);
      if BatchTotal(l.employers, org, payouts).Ok? {
        assert forall i :: 0 <= i < |payouts| ==> EntryFits(l, org, payouts[i]);
        GrantsSucceed(l.accounts, payouts);
      }
  }

  /** A match that is paid does not take a budget or a project's matches out of range. */
  predicate MatchFits(l: Ledger, project: Symbol, part: int) {
    part <= 0 || (Get(l.matched, project, 0) + part <= I128_MAX && Get(l.budgets, project, 0) + part <= I128_MAX)
  }

  lemma {:induction false} MatchesLeaveOthers(l: Ledger, projects: seq<Symbol>, parts: seq<int>, project: Symbol)
    requires |parts| == |projects| && PayMatches(l, projects, parts).Ok? && project !in projects
    ensures var paid := PayMatches(l, projects, parts).value;
            Get(paid.matched, project, 0) == Get(l.matched, project, 0)
                && Get(paid.budgets, project, 0) == Get(l.budgets, project, 0)
  {
    if projects != [] {
      var k := |projects| - 1;
      MatchesLeaveOthers(l, projects[..k], parts[..k], project);
    }
  }

  /** Paying the matches of distinct projects fails exactly when one of them does not fit. */
  lemma {:induction false} MatchesFit(l: Ledger, projects: seq<Symbol>, parts: seq<int>)
    requires |parts| == |projects| && Unique(projects)
    ensures PayMatches(l, projects, parts).Err? ==> PayMatches(l, projects, parts).error == BudgetOverflow
    ensures PayMatches(l, projects, parts).Ok? <==>
        (forall i :: 0 <= i < |projects| ==> MatchFits(l, projects[i], parts[i]))
  {
    hide MatchFits;
    if projects != [] {
      var k := |projects| - 1;
      assert forall i, j :: 0 <= i < j < k ==> projects[..k][i] == projects[i] && projects[..k][j] == projects[j];
      MatchesFit(l, projects[..k], parts[..k]);
      assert forall i :: 0 <= i < k ==> projects[..k][i] == projects[i] && parts[..k][i] == parts[i];
      if PayMatches(l, projects[..k], parts[..k]).Ok? {
        MatchesLeaveOthers(l, projects[..k], parts[..k], projects[k]);
        LastMatchFits(l, projects, parts, k);
      }
    }
  }

  lemma LastMatchFits(l: Ledger, projects: seq<Symbol>, parts: seq<int>, k: nat)
    requires |parts| == |projects| == k + 1 && PayMatches(l, projects[..k], parts[..k]).Ok?
    requires var paid := PayMatches(l, projects[..k], parts[..k]).value;
             && Get(paid.matched, projects[k], 0) == Get(l.matched, projects[k], 0)
             && Get(paid.budgets, projects[k], 0) == Get(l.budgets, projects[k], 0)
    ensures PayMatches(l, projects, parts).Ok? <==> MatchFits(l, projects[k], parts[k])
    ensures PayMatches(l, projects, parts).Err? ==> PayMatches(l, projects, parts).error == BudgetOverflow
  {
  }

  /** The first reason against computing the matches of some projects. */
  ghost function AgainstPreview(l: Ledger, projects: seq<Symbol>): Reason {
    var weights := Weights(l, projects);
    First(When(projects == [], EmptyBatch), When(100 < |projects|, BatchSizeExceeded),
          When(exists i, j :: 0 <= i < j < |projects| && projects[i] == projects[j], DuplicateProject),
          When(l.pool < 1, EmptyMatchingPool), When(I128_MAX < Total(weights), QuadraticOverflow),
          When(Total(weights) < 1, EmptyQuadraticRound),
          When(exists i :: 0 <= i < |projects| && I128_MAX < l.pool * weights[i], PrinceError.RoundingOverflow))
  }

  /** The floored match of the `i`-th project. */
  ghost function MatchOf(l: Ledger, projects: seq<Symbol>, i: nat): int
    requires i < |projects| && Total(Weights(l, projects)) > 0
  {
    (l.pool * Weights(l, projects)[i]) / Total(Weights(l, projects))
  }

  /** The first reason against a distribution. */
  ghost function AgainstDistributing(w: World, admin: Address, projects: seq<Symbol>): Reason {
    var l := w.ledger;
    First(Halted(l), NotProtocolAdmin(l, admin), AgainstPreview(l, projects),
          When(Total(Weights(l, projects)) > 0 && !MatchesAllFit(l, projects), BudgetOverflow))
  }

  ghost predicate MatchesAllFit(l: Ledger, projects: seq<Symbol>)
    requires Total(Weights(l, projects)) > 0
  {
    forall i :: 0 <= i < |projects| ==> MatchFits(l, projects[i], MatchOf(l, projects, i))
  }

  lemma PreviewRefused(l: Ledger, projects: seq<Symbol>)
    ensures RefusedFor(Preview(l, projects), AgainstPreview(l, projects))
  {
    hide Weights, Total, AllFit, Floors, Unique;
    var weights := Weights(l, projects);
    UniqueIs(projects);
    if Total(weights) > 0 {
      SharesFit(l.pool, weights, Total(weights));
    }
  }

  lemma UniqueIs(projects: seq<Symbol>)
    ensures Unique(projects) <==> !exists i, j :: 0 <= i < j < |projects| && projects[i] == projects[j]
  {
  }

  lemma PreviewIs(l: Ledger, projects: seq<Symbol>)
    requires Preview(l, projects).Ok?
    ensures Total(Weights(l, projects)) > 0 && Unique(projects) && |Preview(l, projects).value| == |projects|
    ensures forall i :: 0 <= i < |projects| ==> Preview(l, projects).value[i] == MatchOf(l, projects, i)
  {
    hide Weights, Total, Unique;
  }

  lemma SharesFit(pool: int, weights: seq<int>, total: int)
    requires total > 0
    ensures AllFit(pool, weights, total) <==> !exists i :: 0 <= i < |weights| && I128_MAX < pool * weights[i]
  {
    hide Share;
    forall i | 0 <= i < |weights|
      ensures Share(pool, weights[i], total).Some? <==> pool * weights[i] <= I128_MAX
    {
      ShareIs(pool, weights[i], total);
    }
  }

  lemma ShareIs(pool: int, weight: int, total: int)
    requires total > 0
    ensures Share(pool, weight, total).Some? <==> pool * weight <= I128_MAX
  {
  }

  lemma DistributingRefused(w: World, now: nat, admin: Address, projects: seq<Symbol>)
    ensures RefusedFor(Apply(w, now, Distribute(admin, projects)), AgainstDistributing(w, admin, projects))
  {
    hide Halted, Active, ProtocolAdmin, NotProtocolAdmin, Preview, PayMatches, AgainstPreview, MatchesAllFit, Weights;
    hide Total, Unique;
    var l := w.ledger;
    ActiveIs(l);
    RightsAre(l, "", admin, SELF);
    PreviewRefused(l, projects);
    if Preview(l, projects).Ok? {
      PayingMatchesRefused(l, projects);
    }
  }

  lemma PayingMatchesRefused(l: Ledger, projects: seq<Symbol>)
    requires Preview(l, projects).Ok?
    ensures Total(Weights(l, projects)) > 0 && |Preview(l, projects).value| == |projects|
    ensures var paid := PayMatches(l, projects, Preview(l, projects).value);
            (paid.Ok? <==> MatchesAllFit(l, projects)) && (paid.Err? ==> paid.error == BudgetOverflow)
  {
    hide Preview, PayMatches, AgainstPreview, MatchFits, Weights, Total, Unique, MatchOf;
    PreviewIs(l, projects);
    MatchesFit(l, projects, Preview(l, projects).value);
  }

  // --- Lending ------------------------------------------------------------------------------------------------------

  /** The balances after the registry hands out a loan. */
  function Disbursed(tokens: Tokens, receiver: Address, amount: int): Tokens {
    tokens[SELF := Get(tokens, SELF, 0) - amount][receiver := Get(tokens, receiver, 0) + amount]
  }

  /** The first reason against a loan. */
  function AgainstLending(w: World, receiver: Address, amount: int, callback: seq<Action>): Reason {
    var held, fee := Get(w.tokens, SELF, 0), Fee(amount, w.ledger.feeBps);
    var after := AfterCallback(Disbursed(w.tokens, receiver, amount), callback);
    First(Halted(w.ledger), NoAmount(amount), When(held < amount, FlashLoanInsufficientLiquidity),
          When(I128_MAX < amount * w.ledger.feeBps + 9_999 || I128_MAX - amount < fee, BudgetOverflow),
          NoTransfer(w.tokens, SELF, receiver, amount), When(receiver == SELF, Aborted),
          match after case Ok(_) => None case Err(_) => Some(Aborted), When(I128_MAX - fee < held, BudgetOverflow),
          When(after.Ok? && Get(after.value, SELF, 0) < held + fee, FlashLoanRepaymentFailed))
  }

  lemma LendingRefused(w: World, now: nat, receiver: Address, amount: int, callback: seq<Action>)
    ensures RefusedFor(Apply(w, now, FlashLoan(receiver, amount, callback)),
                       AgainstLending(w, receiver, amount, callback))
  {
    hide Halted, Active, Amount, NoAmount, Fee, AfterCallback, NoTransfer;
    ActiveIs(w.ledger);
    AmountIs(amount);
    MoveIs(w.tokens, SELF, receiver, amount);
  }

  // --- All calls ----------------------------------------------------------------------------------------------------

  /** The first reason against a call, in the order in which the contract looks for one. */
  ghost function Against(w: World, now: nat, call: Call): Reason {
    if Administration(call) then AgainstAdministration(w, call)
    else if PaysIn(call) then AgainstPayingIn(w, now, call)
    else if PaysOut(call) then AgainstPayingOut(w, now, call)
    else if call.Allocate? || call.BatchAllocate? then AgainstAllocating(w, call)
    else if call.Distribute? then AgainstDistributing(w, call.admin, call.projects)
    else AgainstLending(w, call.receiver, call.amount, call.callback)
  }

  /** Every call is refused exactly when there is a reason against it, and for the first one. */
  lemma CallRefused(w: World, now: nat, call: Call)
    ensures RefusedFor(Apply(w, now, call), Against(w, now, call))
  {
    hide Apply, AgainstAdministration, AgainstPayingIn, AgainstPayingOut, AgainstAllocating, AgainstDistributing;
    hide AgainstLending;
    if Administration(call) {
      AdministrationRefused(w, now, call);
    } else if PaysIn(call) {
      PayingInRefused(w, now, call);
    } else if PaysOut(call) {
      PayingOutRefused(w, now, call);
    } else if call.Allocate? || call.BatchAllocate? {
      AllocatingRefused(w, now, call);
    } else if call.Distribute? {
      DistributingRefused(w, now, call.admin, call.projects);
    } else {
      LendingRefused(w, now, call.receiver, call.amount, call.callback);
    }
  }
}
