// Who pays whom: the token transfers behind every call of the payout registry, loans included.

module LedgerPayments {
  import opened Common
  import opened Sums
  import opened VestingSearch
  import opened Ledger
  import opened Solvency
  import opened LedgerLaws
  import opened LedgerFlows
  import opened LedgerGuards

  datatype Payment = Nobody | Payment(from: Address, to: Address, amount: int)

  /** The transfer an accepted call makes, other than a loan. */
  function PaymentOf(w: World, now: nat, call: Call): Payment {
    match call
    case FundOrg(_, from, amount, _) => Payment(from, SELF, amount)
    case DepositPool(from, amount) => Payment(from, SELF, amount)
    case Contribute(_, from, amount, _) => Payment(from, SELF, amount)
    case VaultDeposit(from, assets) => Payment(from, SELF, assets)
    case CreateVault(from, _, amount, _) => Payment(from, SELF, amount)
    case VaultWithdraw(from, burned) => Payment(SELF, from, burned)
    case ClaimVault(owner, maturity) => Payment(SELF, owner, Get(w.ledger.timeLocks, (owner, maturity), 0))
    case Claim(maintainer, _) =>
      var account := AccountOf(w.ledger.accounts, maintainer);
      Payment(SELF, maintainer, PrefixSum(account.tranches, UnlockedCount(account.tranches, now)) - account.claimed)
    case _ => Nobody
  }

  /** The payer loses the amount, the payee gains it, and nobody else's balance changes. */
  ghost predicate Paid(before: Tokens, after: Tokens, p: Payment) {
    match p
    case Nobody => after == before
    case Payment(from, to, amount) =>
      && from != to && 0 <= amount <= Get(before, from, 0)
      && Get(after, from, 0) == Get(before, from, 0) - amount
      && Get(after, to, 0) == Get(before, to, 0) + amount
      && forall a: Address :: a != from && a != to ==> Get(after, a, 0) == Get(before, a, 0)
  }

  lemma MovePays(tokens: Tokens, from: Address, to: Address, amount: int)
    requires Move(tokens, from, to, amount).Ok? && from != to
    ensures Paid(tokens, Move(tokens, from, to, amount).value, Payment(from, to, amount))
  {
  }

  lemma PayingInPays(w: World, now: nat, call: Call)
    requires PaysIn(call) && Apply(w, now, call).Ok?
    ensures Paid(w.tokens, Apply(w, now, call).value.tokens, PaymentOf(w, now, call))
  {
    hide Active, Amount, MayContribute, StatsFit, UseNonce, Credit, ConversionFits, Sum, Move, Paid;
    MovePays(w.tokens, call.from, SELF, if call.VaultDeposit? then call.assets else call.amount);
  }

  lemma PayingOutPays(w: World, now: nat, call: Call)
    requires PaysOut(call) && Apply(w, now, call).Ok?
    ensures Paid(w.tokens, Apply(w, now, call).value.tokens, PaymentOf(w, now, call))
  {
    hide Active, UseNonce, ConversionFits, Sum, Move, Paid, Owed, UnlockedCount, PrefixSum, CheckedPrefixSum;
    match call
    case Claim(maintainer, _) =>
      var account := AccountOf(w.ledger.accounts, maintainer);
      MovePays(w.tokens, SELF, maintainer, Vested(account.tranches, now).value - account.claimed);
    case VaultWithdraw(from, burned) => MovePays(w.tokens, SELF, from, burned);
    case ClaimVault(owner, maturity) => MovePays(w.tokens, SELF, owner, w.ledger.timeLocks[(owner, maturity)]);
  }

  lemma OthersPayNothing(w: World, now: nat, call: Call)
    requires Administration(call) || call.Allocate? || call.BatchAllocate? || call.Distribute?
    requires Apply(w, now, call).Ok?
    ensures Apply(w, now, call).value.tokens == w.tokens
  {
    hide Active, ProtocolAdmin, OrgAdmin, Amount, Employed, ScheduleTotal, BatchTotal, Debit, Grant, GrantAll, Preview;
    hide PayMatches;
    hide IndexOf;
  }

  /** An accepted call other than a loan makes exactly the transfer it stands for, and no third party notices. */
  lemma CallPays(w: World, now: nat, call: Call)
    requires !call.FlashLoan? && Apply(w, now, call).Ok?
    ensures Paid(w.tokens, Apply(w, now, call).value.tokens, PaymentOf(w, now, call))
  {
    hide Apply;
    if PaysIn(call) {
      PayingInPays(w, now, call);
    } else if PaysOut(call) {
      PayingOutPays(w, now, call);
    } else {
      OthersPayNothing(w, now, call);
    }
  }

  // --- Loans --------------------------------------------------------------------------------------------------------

  /** What a completed loan leaves: the balances after the callback, which began with the loan handed out. */
  lemma LoanLeaves(w: World, now: nat, receiver: Address, amount: int, callback: seq<Action>)
    requires Apply(w, now, FlashLoan(receiver, amount, callback)).Ok?
    ensures receiver != SELF && AfterCallback(Disbursed(w.tokens, receiver, amount), callback).Ok?
    ensures Apply(w, now, FlashLoan(receiver, amount, callback)).value
         == w.(tokens := AfterCallback(Disbursed(w.tokens, receiver, amount), callback).value)
  {
    hide Active, Amount, Fee, AfterCallback;
  }

  /** The borrower has the loan when the callback begins, and the registry does not. */
  lemma DisbursedPays(tokens: Tokens, receiver: Address, amount: int)
    requires receiver != SELF && 0 <= amount <= Get(tokens, SELF, 0)
    ensures Paid(tokens, Disbursed(tokens, receiver, amount), Payment(SELF, receiver, amount))
  {
  }

  lemma OneTransfer(tokens: Tokens, from: Address, x: int)
    requires from != SELF
    ensures AfterCallback(tokens, [Transfer(from, SELF, x)]) ==
            if Move(tokens, from, SELF, x).Ok? then Ok(Move(tokens, from, SELF, x).value) else Err(Aborted)
  {
    assert [Transfer(from, SELF, x)][1..] == [];
    assert forall t: Tokens :: AfterCallback(t, []) == Ok(t);
  }

  /** A loan that is simply paid back is accepted exactly when the payment covers principal and fee and can be made. */
  lemma RepaidLoanAccepted(w: World, now: nat, receiver: Address, amount: int, x: int)
    requires Active(w.ledger.config).Pass? && 0 < amount <= MAX_AMOUNT_LIMIT && receiver != SELF
    requires amount <= Get(w.tokens, SELF, 0)
    requires var fee := Fee(amount, w.ledger.feeBps);
             && 1 <= w.ledger.feeBps && amount * w.ledger.feeBps + 9_999 <= I128_MAX && amount + fee <= I128_MAX
             && Get(w.tokens, SELF, 0) + fee <= I128_MAX && Get(w.tokens, receiver, 0) + amount <= I128_MAX
             && Get(w.tokens, SELF, 0) + Get(w.tokens, receiver, 0) <= I128_MAX
    ensures var loan := Apply(w, now, FlashLoan(receiver, amount, [Transfer(receiver, SELF, x)]));
            var due, owned := amount + Fee(amount, w.ledger.feeBps), Get(w.tokens, receiver, 0) + amount;
            && (loan.Ok? <==> due <= x <= owned)
            && (loan.Ok? ==> Paid(w.tokens, loan.value.tokens, Payment(receiver, SELF, x - amount)))
            && (loan.Err? ==> loan.error == if 0 <= x <= owned then FlashLoanRepaymentFailed else Aborted)
  {
    hide Active, Fee, Apply, Halted, AfterCallback, Disbursed, Move, NoTransfer, Paid;
    var callback, lent := [Transfer(receiver, SELF, x)], Disbursed(w.tokens, receiver, amount);
    ActiveIs(w.ledger);
    AmountIs(amount);
    FeeRoundsUp(amount, w.ledger.feeBps);
    LendingRefused(w, now, receiver, amount, callback);
    NoTransferIs(w.tokens, SELF, receiver, amount);
    DisbursedPays(w.tokens, receiver, amount);
    OneTransfer(lent, receiver, x);
    MoveIs(lent, receiver, SELF, x);
    NoTransferIs(lent, receiver, SELF, x);
    if Move(lent, receiver, SELF, x).Ok? {
      MovePays(lent, receiver, SELF, x);
      PaidTwice(w.tokens, lent, Move(lent, receiver, SELF, x).value, receiver, amount, x);
      if Apply(w, now, FlashLoan(receiver, amount, callback)).Ok? {
        LoanLeaves(w, now, receiver, amount, callback);
      }
    }
    DisbursedBalances(w.tokens, lent, receiver, amount);
  }

  lemma NoTransferIs(tokens: Tokens, from: Address, to: Address, amount: int)
    requires from != to
    ensures NoTransfer(tokens, from, to, amount) ==
            if 0 <= amount <= Get(tokens, from, 0) && Get(tokens, to, 0) + amount <= I128_MAX then None
                else Some(TransferFailed)
  {
  }

  lemma DisbursedBalances(before: Tokens, lent: Tokens, receiver: Address, amount: int)
    requires Paid(before, lent, Payment(SELF, receiver, amount))
    ensures Get(lent, receiver, 0) == Get(before, receiver, 0) + amount
        && Get(lent, SELF, 0) == Get(before, SELF, 0) - amount
  {
  }

  lemma PaidTwice(before: Tokens, lent: Tokens, after: Tokens, receiver: Address, amount: int, x: int)
    requires Paid(before, lent, Payment(SELF, receiver, amount)) && Paid(lent, after, Payment(receiver, SELF, x))
    ensures Get(after, SELF, 0) == Get(before, SELF, 0) + x - amount
    ensures amount <= x && x - amount <= Get(before, receiver, 0) ==>
        Paid(before, after, Payment(receiver, SELF, x - amount))
  {
  }

  // --- Callbacks are outside transfers
  // --------------------------------------------------------------------------------

  /** The transfers of a callback, as events outside the registry. */
  function TransfersOf(actions: seq<Action>): seq<Event> {
    if actions == [] then []
    else
      (match actions[0] case Transfer(from, to, amount) => [Transferred(from, to, amount)] case Reenter(_, _) => [])
        + TransfersOf(actions[1..])
  }

  lemma {:induction false} RunFrom(w: World, e: Event, events: seq<Event>)
    ensures Run(w, [e] + events) == Run(Next(w, e), events)
  {
    hide Next;
    var all := [e] + events;
    if events == [] {
      assert all[..0] == [] && all[0] == e;
      assert Run(w, all[..0]) == w;
    } else {
      var k := |events| - 1;
      assert all[..k + 1] == [e] + events[..k] && all[k + 1] == events[k];
      RunFrom(w, e, events[..k]);
    }
  }

  /** A callback that succeeds leaves the balances its transfers leave when they happen outside the registry. */
  lemma {:induction false} CallbackIsItsTransfers(l: Ledger, tokens: Tokens, actions: seq<Action>)
    requires AfterCallback(tokens, actions).Ok?
    ensures Run(World(l, tokens), TransfersOf(actions)) == World(l, AfterCallback(tokens, actions).value)
    decreases |actions|
  {
    hide Move;
    if actions == [] {
      assert Run(World(l, tokens), []) == World(l, tokens);
    } else {
      match actions[0]
      case Transfer(from, to, amount) =>
        var moved := Move(tokens, from, to, amount).value;
        CallbackIsItsTransfers(l, moved, actions[1..]);
        RunFrom(World(l, tokens), Transferred(from, to, amount), TransfersOf(actions[1..]));
      case Reenter(_, _) =>
        CallbackIsItsTransfers(l, tokens, actions[1..]);
        assert [] + TransfersOf(actions[1..]) == TransfersOf(actions[1..]);
    }
  }

  /** One action of a callback. */
  function Acted(tokens: Tokens, action: Action): Outcome<Tokens> {
    match action
    case Transfer(from, to, amount) =>
      if from != SELF && Move(tokens, from, to, amount).Ok? then Ok(Move(tokens, from, to, amount).value)
          else Err(Aborted)
    case Reenter(_, caught) => if caught then Ok(tokens) else Err(Aborted)
  }

  /**
    * A callback acts in order, and fails as soon as a transfer fails or is the registry's, or a re-entry is not
    * caught.
    */
  lemma {:induction false} CallbackInOrder(tokens: Tokens, actions: seq<Action>, action: Action)
    ensures AfterCallback(tokens, actions + [action]) ==
            match AfterCallback(tokens, actions) case Ok(t) => Acted(t, action) case Err(_) => Err(Aborted)
    decreases |actions|
  {
    hide Move;
    var all := actions + [action];
    if actions == [] {
      assert all[0] == action && all[1..] == [];
      assert forall t: Tokens :: AfterCallback(t, []) == Ok(t);
    } else {
      assert all[0] == actions[0] && all[1..] == actions[1..] + [action];
      var next := Acted(tokens, actions[0]);
      if next.Ok? {
        CallbackInOrder(next.value, actions[1..], action);
      }
    }
  }

  // --- No token appears or disappears
  // -----------------------------------------------------------------------------------

  lemma MoveKeepsSupply(tokens: Tokens, from: Address, to: Address, amount: int)
    requires Move(tokens, from, to, amount).Ok?
    ensures Sum(Move(tokens, from, to, amount).value) == Sum(tokens)
  {
    hide Sum;
    var taken := tokens[from := Get(tokens, from, 0) - amount];
    SumPut(tokens, from, Get(tokens, from, 0) - amount);
    SumPut(taken, to, Get(taken, to, 0) + amount);
  }

  lemma {:induction false} CallbackKeepsSupply(tokens: Tokens, actions: seq<Action>)
    requires AfterCallback(tokens, actions).Ok?
    ensures Sum(AfterCallback(tokens, actions).value) == Sum(tokens)
    decreases |actions|
  {
    hide Move, Sum;
    if actions != [] {
      match actions[0]
      case Transfer(from, to, amount) =>
        MoveKeepsSupply(tokens, from, to, amount);
        CallbackKeepsSupply(Move(tokens, from, to, amount).value, actions[1..]);
      case Reenter(_, _) => CallbackKeepsSupply(tokens, actions[1..]);
    }
  }

  lemma DisbursingKeepsSupply(tokens: Tokens, receiver: Address, amount: int)
    requires receiver != SELF
    ensures Sum(Disbursed(tokens, receiver, amount)) == Sum(tokens)
  {
    hide Sum;
    var taken := tokens[SELF := Get(tokens, SELF, 0) - amount];
    SumPut(tokens, SELF, Get(tokens, SELF, 0) - amount);
    SumPut(taken, receiver, Get(tokens, receiver, 0) + amount);
  }

  lemma PayingInMoves(w: World, now: nat, call: Call)
    requires PaysIn(call) && Apply(w, now, call).Ok?
    ensures var amount := if call.VaultDeposit? then call.assets else call.amount;
            Move(w.tokens, call.from, SELF, amount) == Ok(Apply(w, now, call).value.tokens)
  {
    hide Active, Amount, MayContribute, StatsFit, UseNonce, Credit, ConversionFits, Sum, Move;
  }

  lemma PayingOutMoves(w: World, now: nat, call: Call)
    requires PaysOut(call) && Apply(w, now, call).Ok?
    ensures exists to: Address, amount: int :: Move(w.tokens, SELF, to, amount) == Ok(Apply(w, now, call).value.tokens)
  {
    hide Active, UseNonce, ConversionFits, Sum, Move, Owed, Vested;
  }

  lemma CallKeepsSupply(w: World, now: nat, call: Call)
    requires Apply(w, now, call).Ok?
    ensures Sum(Apply(w, now, call).value.tokens) == Sum(w.tokens)
  {
    hide Apply, Sum, Move, AfterCallback, Disbursed;
    if PaysIn(call) {
      PayingInMoves(w, now, call);
      MoveKeepsSupply(w.tokens, call.from, SELF, if call.VaultDeposit? then call.assets else call.amount);
    } else if PaysOut(call) {
      PayingOutMoves(w, now, call);
      var to: Address, amount: int :| Move(w.tokens, SELF, to, amount) == Ok(Apply(w, now, call).value.tokens);
      MoveKeepsSupply(w.tokens, SELF, to, amount);
    } else if call.FlashLoan? {
      LoanLeaves(w, now, call.receiver, call.amount, call.callback);
      DisbursingKeepsSupply(w.tokens, call.receiver, call.amount);
      CallbackKeepsSupply(Disbursed(w.tokens, call.receiver, call.amount), call.callback);
    } else {
      OthersPayNothing(w, now, call);
    }
  }

  /** In every run, loans included, the tokens of all holders together stay what they were. */
  lemma {:induction false} SupplyIsConstant(w: World, events: seq<Event>)
    ensures Sum(Run(w, events).tokens) == Sum(w.tokens)
  {
    hide Sum, Apply, Move;
    if events != [] {
      var k := |events| - 1;
      var before, e := Run(w, events[..k]), events[k];
      SupplyIsConstant(w, events[..k]);
      match e
      case Invoked(now, call) =>
        if Apply(before, now, call).Ok? {
          CallKeepsSupply(before, now, call);
        }
      case Transferred(from, to, amount) =>
        if Move(before.tokens, from, to, amount).Ok? {
          MoveKeepsSupply(before.tokens, from, to, amount);
        }
    }
  }

  // --- Nobody else pays
  // ---------------------------------------------------------------------------------------------------

  /** Whose tokens an event moves out, the registry's own apart. */
  predicate PaidBy(e: Event, a: Address) {
    match e
    case Transferred(from, _, _) => from == a
    case Invoked(_, call) =>
      (PaysIn(call) && call.from == a) || (call.FlashLoan? && MovedBy(call.callback, a))
  }

  predicate MovedBy(actions: seq<Action>, a: Address) {
    exists i :: 0 <= i < |actions| && actions[i].Transfer? && actions[i].from == a
  }

  lemma {:induction false} CallbackTakesFrom(tokens: Tokens, actions: seq<Action>, a: Address)
    requires AfterCallback(tokens, actions).Ok? && Get(AfterCallback(tokens, actions).value, a, 0) < Get(tokens, a, 0)
    ensures exists i :: 0 <= i < |actions| && actions[i].Transfer? && actions[i].from == a
    decreases |actions|
  {
    if actions != [] {
      var next := if actions[0].Transfer? then Move(tokens, actions[0].from, actions[0].to, actions[0].amount).value
          else tokens;
      if !(actions[0].Transfer? && actions[0].from == a) {
        assert Get(next, a, 0) >= Get(tokens, a, 0);
        CallbackTakesFrom(next, actions[1..], a);
        var i :| 0 <= i < |actions[1..]| && actions[1..][i].Transfer? && actions[1..][i].from == a;
        assert actions[i + 1].Transfer? && actions[i + 1].from == a;
      }
    }
  }

  lemma LoanTakesFrom(w: World, now: nat, call: Call, a: Address)
    requires call.FlashLoan? && Apply(w, now, call).Ok? && a != SELF
    requires Get(Apply(w, now, call).value.tokens, a, 0) < Get(w.tokens, a, 0)
    ensures exists i :: 0 <= i < |call.callback| && call.callback[i].Transfer? && call.callback[i].from == a
  {
    hide Apply, AfterCallback;
    LoanLeaves(w, now, call.receiver, call.amount, call.callback);
    LendingPositive(w, now, call);
    CallbackTakesFrom(Disbursed(w.tokens, call.receiver, call.amount), call.callback, a);
  }

  lemma LendingPositive(w: World, now: nat, call: Call)
    requires call.FlashLoan? && Apply(w, now, call).Ok?
    ensures call.amount > 0
  {
    hide Apply, AfterCallback, Fee, NoTransfer, Disbursed;
    LendingRefused(w, now, call.receiver, call.amount, call.callback);
  }

  /** Nobody's balance falls but by an event that moves that holder's tokens. */
  lemma OnlyPayersPay(w: World, e: Event, a: Address)
    requires a != SELF && Get(Next(w, e).tokens, a, 0) < Get(w.tokens, a, 0)
    ensures PaidBy(e, a)
  {
    hide Apply;
    match e
    case Transferred(from, to, amount) =>
    case Invoked(now, call) =>
      if Apply(w, now, call).Ok? {
        if call.FlashLoan? {
          LoanTakesFrom(w, now, call, a);
        } else {
          CallPays(w, now, call);
        }
      }
  }

  // --- Payouts are always there
  // -------------------------------------------------------------------------------------------

  lemma PartsWithinLiabilities(l: Ledger, from: Address, key: (Address, nat))
    requires Sound(l)
    ensures 0 <= Get(l.shares, from, 0) <= Sum(l.shares) <= Liabilities(l)
    ensures 0 <= Get(l.timeLocks, key, 0) <= Liabilities(l)
  {
    OwedNonNegative(l);
    hide Sum, OwedBy;
    SumNonNegative(l.budgets);
    SumNonNegative(l.shares);
    SumNonNegative(l.timeLocks);
    SumNonNegative(OwedBy(l.accounts));
    SumAtLeast(l.shares, from); SumAtLeast(l.timeLocks, key);
  }

  lemma OwedNonNegative(l: Ledger)
    requires Sound(l)
    ensures NonNegative(OwedBy(l.accounts))
  {
    hide TrancheTotal;
    forall m | m in l.accounts
      ensures OwedBy(l.accounts)[m] >= 0
    {
      assert AccountSound(l.accounts[m]);
    }
  }

  /** A holder can take out any part of the shares, to the last one, as long as the conversion does not overflow. */
  lemma WithdrawalAccepted(w: World, now: nat, from: Address, burned: int)
    requires Sound(w.ledger) && Surplus(w) >= 0 && Active(w.ledger.config).Pass? && from != SELF
    requires Get(w.tokens, from, 0) + burned <= I128_MAX
    ensures Apply(w, now, VaultWithdraw(from, burned)).Ok? <==>
              && 0 < burned <= Get(w.ledger.shares, from, 0)
              && Sum(w.ledger.shares) < I128_MAX && burned * (Sum(w.ledger.shares) + 1) <= I128_MAX
  {
    hide Sum, Sound, Liabilities, Apply, Active, Halted, NoTransfer;
    ActiveIs(w.ledger);
    PartsWithinLiabilities(w.ledger, from, (from, 0));
    NoTransferIs(w.tokens, SELF, from, burned);
    PayingOutRefused(w, now, VaultWithdraw(from, burned));
  }

  /** A matured lock can always be claimed by its owner, and only then. */
  lemma LockClaimAccepted(w: World, now: nat, owner: Address, maturity: nat)
    requires Sound(w.ledger) && Surplus(w) >= 0 && Active(w.ledger.config).Pass? && owner != SELF
    requires Get(w.tokens, owner, 0) + Get(w.ledger.timeLocks, (owner, maturity), 0) <= I128_MAX
    ensures Apply(w, now, ClaimVault(owner, maturity)).Ok? <==>
        (owner, maturity) in w.ledger.timeLocks && maturity <= now
  {
    hide Sum, Sound, Liabilities, Apply, Active, Halted, NoTransfer;
    ActiveIs(w.ledger);
    PartsWithinLiabilities(w.ledger, owner, (owner, maturity));
    NoTransferIs(w.tokens, SELF, owner, Get(w.ledger.timeLocks, (owner, maturity), 0));
    PayingOutRefused(w, now, ClaimVault(owner, maturity));
  }
}
