// What the roles of the payout registry protect: who can spend a budget, name admins, distribute the pool, be paid.

module LedgerRights {
  import opened Common
  import opened Sums
  import opened VestingSearch
  import opened Ledger
  import opened Solvency
  import opened LedgerLaws
  import opened LedgerFlows
  import opened LedgerGuards

  // --- Who is admitted --------------------------------------------------------------------------------------------

  /** Only an admin of an organisation spends its budget, and only on maintainers it employs. */
  lemma OnlyAdminsAllocate(w: World, now: nat, call: Call)
    requires (call.Allocate? || call.BatchAllocate?) && Apply(w, now, call).Ok?
    ensures IsAdmin(w.ledger, call.org, call.admin)
    ensures call.Allocate? ==> WorksFor(w.ledger, call.maintainer, call.org)
    ensures call.BatchAllocate? ==> forall i :: 0 <= i < |call.payouts| ==>
        WorksFor(w.ledger, call.payouts[i].maintainer, call.org)
  {
    hide Apply, ScheduleTotal, BatchTotal, TrancheTotal, Owed, BatchSum, ShareFits;
    AllocatingRefused(w, now, call);
    if call.BatchAllocate? {
      BatchValid(w.ledger, call.org, call.payouts);
    }
  }

  /** Only the protocol admin distributes the pool, sets the loan fee and attests humanity. */
  lemma OnlyProtocolAdmin(w: World, now: nat, call: Call)
    requires call.Distribute? || call.SetFlashLoanFee? || call.VerifyHumanity? || call.RevokeHumanity?
    requires Apply(w, now, call).Ok?
    ensures w.ledger.config.Some? && call.admin == w.ledger.config.value.admin
  {
    hide Apply, AgainstPreview, MatchesAllFit;
    if call.Distribute? {
      DistributingRefused(w, now, call.admin, call.projects);
    } else {
      AdministrationRefused(w, now, call);
    }
  }

  /** Only attested humans contribute. */
  lemma OnlyHumansContribute(w: World, now: nat, call: Call)
    requires call.Contribute? && Apply(w, now, call).Ok?
    ensures call.from in w.ledger.humans
  {
    hide Apply, StatsFit, NoTransfer, StaleNonce;
    PayingInRefused(w, now, call);
  }

  // --- What setting up changes --------------------------------------------------------------------------------------

  ghost predicate RolesKept(l: Ledger, after: Ledger) {
    && after.config == l.config && after.admins == l.admins && after.leads == l.leads
    && after.employers == l.employers && after.humans == l.humans && after.feeBps == l.feeBps
  }

  lemma FundsKeepRoles(w: World, now: nat, call: Call)
    requires call.FundOrg? || call.DepositPool? || call.VaultDeposit? || call.VaultWithdraw?
    requires Apply(w, now, call).Ok?
    ensures RolesKept(w.ledger, Apply(w, now, call).value.ledger)
  {
    hide Active, Amount, UseNonce, Credit, Move, ConversionFits, Sum;
  }

  lemma GrantsKeepRoles(w: World, now: nat, call: Call)
    requires call.Contribute? || call.Allocate? || call.BatchAllocate?
    requires Apply(w, now, call).Ok?
    ensures RolesKept(w.ledger, Apply(w, now, call).value.ledger)
  {
    hide Active, Amount, MayContribute, OrgAdmin, Employed, UseNonce, Credit, Debit, Move, StatsFit, ScheduleTotal;
    hide BatchTotal, Grant, GrantAll;
  }

  lemma ClaimsKeepRoles(w: World, now: nat, call: Call)
    requires call.Claim? && Apply(w, now, call).Ok?
    ensures RolesKept(w.ledger, Apply(w, now, call).value.ledger)
  {
    hide Active, UseNonce, Move, Owed, Vested, AccountOf;
  }

  lemma LocksKeepRoles(w: World, now: nat, call: Call)
    requires call.CreateVault? || call.ClaimVault?
    requires Apply(w, now, call).Ok?
    ensures RolesKept(w.ledger, Apply(w, now, call).value.ledger)
  {
    hide Active, Move;
  }

  lemma LoansKeepRoles(w: World, now: nat, call: Call)
    requires call.FlashLoan? && Apply(w, now, call).Ok?
    ensures RolesKept(w.ledger, Apply(w, now, call).value.ledger)
  {
    hide Active, Amount, Move, AfterCallback, Fee;
  }

  lemma DistributionKeepsRoles(w: World, now: nat, call: Call)
    requires call.Distribute? && Apply(w, now, call).Ok?
    ensures RolesKept(w.ledger, Apply(w, now, call).value.ledger)
  {
    hide Preview, PayMatches;
    DistributeSteps(w, call.admin, call.projects);
    MatchesKeepTheRest(w.ledger, call.projects, Preview(w.ledger, call.projects).value);
  }

  /** Calls that move money leave all roles and settings alone. */
  lemma MoneyKeepsRoles(w: World, now: nat, call: Call)
    requires !Administration(call) && Apply(w, now, call).Ok?
    ensures RolesKept(w.ledger, Apply(w, now, call).value.ledger)
  {
    hide Apply, RolesKept;
    if call.FundOrg? || call.DepositPool? || call.VaultDeposit? || call.VaultWithdraw? {
      FundsKeepRoles(w, now, call);
    } else if call.Contribute? || call.Allocate? || call.BatchAllocate? {
      GrantsKeepRoles(w, now, call);
    } else if call.Distribute? {
      DistributionKeepsRoles(w, now, call);
    } else if call.FlashLoan? {
      LoansKeepRoles(w, now, call);
    } else if call.Claim? {
      ClaimsKeepRoles(w, now, call);
    } else {
      LocksKeepRoles(w, now, call);
    }
  }

  /** No organisation is without an admin, with more than ten or with one twice. */
  ghost predicate AdminsSound(l: Ledger) {
    forall org :: org in l.admins ==> AdminListSound(l.admins[org])
  }

  ghost predicate AdminListSound(admins: seq<Address>) {
    1 <= |admins| <= 10 && forall i, j :: 0 <= i < j < |admins| ==> admins[i] != admins[j]
  }

  /** Which admins there are after a call: those there were, one more registered or named, one fewer removed. */
  function AdminAfter(l: Ledger, call: Call, org: Symbol, a: Address): bool {
    match call
    case RegisterOrg(id, admin) => IsAdmin(l, org, a) || (org == id && a == admin)
    case AddAdmin(o, _, newAdmin) => IsAdmin(l, org, a) || (org == o && a == newAdmin)
    case RemoveAdmin(o, _, oldAdmin) => IsAdmin(l, org, a) && !(org == o && a == oldAdmin)
    case _ => IsAdmin(l, org, a)
  }

  lemma ListChanges(admins: seq<Address>, a: Address)
    requires AdminListSound(admins)
    ensures a !in admins && |admins| < 10 ==> AdminListSound(admins + [a])
    ensures a in admins && |admins| > 1 ==>
              var i := IndexOf(admins, a);
              var rest := admins[..i] + admins[i + 1..];
              AdminListSound(rest) && forall x :: x in rest <==> x in admins && x != a
  {
    if a in admins && |admins| > 1 {
      var i := IndexOf(admins, a);
      var rest := admins[..i] + admins[i + 1..];
      assert forall j :: 0 <= j < |rest| ==> rest[j] == admins[if j < i then j else j + 1];
      forall x | x in admins && x != a
        ensures x in rest
      {
        var k :| 0 <= k < |admins| && admins[k] == x;
        assert rest[if k < i then k else k - 1] == x;
      }
    }
  }

  lemma AdminsAfterNaming(w: World, now: nat, call: Call, org: Symbol, a: Address)
    requires (call.AddAdmin? || call.RemoveAdmin?) && AdminsSound(w.ledger) && Apply(w, now, call).Ok?
    ensures var after := Apply(w, now, call).value.ledger;
            AdminsSound(after) && (IsAdmin(after, org, a) <==> AdminAfter(w.ledger, call, org, a))
  {
    hide AdminListSound, OrgAdmin, IndexOf;
    RightsAre(w.ledger, call.org, call.admin, 0);
    ListChanges(w.ledger.admins[call.org], if call.AddAdmin? then call.newAdmin else call.oldAdmin);
  }

  lemma AdminsAfterAdministration(w: World, now: nat, call: Call, org: Symbol, a: Address)
    requires Administration(call) && AdminsSound(w.ledger) && Apply(w, now, call).Ok?
    ensures var after := Apply(w, now, call).value.ledger;
            AdminsSound(after) && (IsAdmin(after, org, a) <==> AdminAfter(w.ledger, call, org, a))
  {
    hide AdminListSound, ProtocolAdmin;
    if call.AddAdmin? || call.RemoveAdmin? {
      hide Apply;
      AdminsAfterNaming(w, now, call, org, a);
    } else if call.RegisterOrg? {
      SingleAdmin(call.admin);
    }
  }

  lemma SingleAdmin(a: Address)
    ensures AdminListSound([a])
  {
  }

  /** The admins after any accepted call are exactly those, and the lists stay sound. */
  lemma AdminsAfterCall(w: World, now: nat, call: Call, org: Symbol, a: Address)
    requires AdminsSound(w.ledger) && Apply(w, now, call).Ok?
    ensures var after := Apply(w, now, call).value.ledger;
            AdminsSound(after) && (IsAdmin(after, org, a) <==> AdminAfter(w.ledger, call, org, a))
  {
    hide Apply;
    if Administration(call) {
      AdminsAfterAdministration(w, now, call, org, a);
    } else {
      MoneyKeepsRoles(w, now, call);
    }
  }

  /** The configuration after an accepted call. */
  function ConfigAfter(l: Ledger, call: Call): Option<Config> {
    match call
    case Init(admins, _) => if admins == [] then None else Some(Config(admins[0], false))
    case Pause => if l.config == None then None else Some(Config(l.config.value.admin, true))
    case Unpause => if l.config == None then None else Some(Config(l.config.value.admin, false))
    case _ => l.config
  }

  ghost predicate SettingsAfter(l: Ledger, call: Call, after: Ledger) {
    && after.config == ConfigAfter(l, call)
    && after.feeBps == (if call.SetFlashLoanFee? then call.bps else l.feeBps)
    && (forall h: Address :: h in after.humans <==>
          (call.VerifyHumanity? && h == call.human) || (h in l.humans && !(call.RevokeHumanity? && h == call.human)))
    && (forall m: Address, org: Symbol :: WorksFor(after, m, org) <==>
          WorksFor(l, m, org) || (call.AddMaintainer? && call.maintainer == m && call.org == org))
  }

  lemma SettingsAfterAdministration(w: World, now: nat, call: Call)
    requires Administration(call) && Apply(w, now, call).Ok?
    ensures SettingsAfter(w.ledger, call, Apply(w, now, call).value.ledger)
  {
    hide ProtocolAdmin, OrgAdmin, IndexOf;
  }

  /** The other roles and settings change by the calls that are meant to change them, as they say, and by no others. */
  lemma SettingsAfterCall(w: World, now: nat, call: Call)
    requires Apply(w, now, call).Ok?
    ensures SettingsAfter(w.ledger, call, Apply(w, now, call).value.ledger)
  {
    hide Apply;
    if Administration(call) {
      SettingsAfterAdministration(w, now, call);
    } else {
      MoneyKeepsRoles(w, now, call);
    }
  }

  // --- Over runs
  // ------------------------------------------------------------------------------------------------------

  lemma NewLedgerAdmins()
    ensures AdminsSound(NewLedger())
  {
  }

  lemma NextAdmins(w: World, e: Event)
    requires AdminsSound(w.ledger)
    ensures AdminsSound(Next(w, e).ledger)
  {
    hide Apply, AdminsSound;
    if e.Invoked? && Apply(w, e.now, e.call).Ok? {
      AdminsAfterCall(w, e.now, e.call, "", 0);
    }
  }

  lemma {:induction false} AdminsStaySound(w: World, events: seq<Event>)
    requires AdminsSound(w.ledger)
    ensures AdminsSound(Run(w, events).ledger)
  {
    hide Next, AdminsSound;
    if events != [] {
      AdminsStaySound(w, events[..|events| - 1]);
      NextAdmins(Run(w, events[..|events| - 1]), events[|events| - 1]);
    }
  }

  /** `a` is made an admin of the organisation: by registering it, or by one of its admins. */
  ghost predicate Appoints(w: World, e: Event, org: Symbol, a: Address) {
    && e.Invoked? && Apply(w, e.now, e.call).Ok?
    && match e.call
       case RegisterOrg(id, admin) => id == org && admin == a && org !in w.ledger.admins
       case AddAdmin(o, admin, newAdmin) => o == org && newAdmin == a && IsAdmin(w.ledger, org, admin)
       case _ => false
  }

  lemma AppointedByRight(w: World, now: nat, call: Call)
    requires Apply(w, now, call).Ok?
    ensures call.AddAdmin? || call.RemoveAdmin? ==> IsAdmin(w.ledger, call.org, call.admin)
    ensures call.RegisterOrg? ==> call.id !in w.ledger.admins
  {
    hide Apply;
    if Administration(call) {
      AdministrationRefused(w, now, call);
    }
  }

  /** In every run from a new registry an organisation's admins have been appointed by registration or by its admins. */
  lemma {:induction false} AdminsAreAppointed(tokens: Tokens, events: seq<Event>, org: Symbol, a: Address)
      returns (i: nat)
    requires IsAdmin(Run(World(NewLedger(), tokens), events).ledger, org, a)
    ensures i < |events| && Appoints(Run(World(NewLedger(), tokens), events[..i]), events[i], org, a)
  {
    hide Apply;
    i := 0;
    var w := World(NewLedger(), tokens);
    if events == [] {
      assert false;
    } else {
      var k := |events| - 1;
      var before := Run(w, events[..k]);
      NewLedgerAdmins();
      AdminsStaySound(w, events[..k]);
      if IsAdmin(before.ledger, org, a) {
        i := AdminsAreAppointed(tokens, events[..k], org, a);
        assert events[..k][..i] == events[..i];
      } else {
        i := k;
        AppointedNow(before, events[k], org, a);
      }
    }
  }

  lemma AppointedNow(w: World, e: Event, org: Symbol, a: Address)
    requires AdminsSound(w.ledger) && !IsAdmin(w.ledger, org, a) && IsAdmin(Next(w, e).ledger, org, a)
    ensures Appoints(w, e, org, a)
  {
    hide Apply, AdminsSound;
    if e.Invoked? && Apply(w, e.now, e.call).Ok? {
      AdminsAfterCall(w, e.now, e.call, org, a);
      AppointedByRight(w, e.now, e.call);
    }
  }

  /** The call spends the organisation's budget, on the word of one of its admins. */
  ghost predicate Spends(w: World, e: Event, org: Symbol) {
    && e.Invoked? && Apply(w, e.now, e.call).Ok? && (e.call.Allocate? || e.call.BatchAllocate?)
    && e.call.org == org && IsAdmin(w.ledger, org, e.call.admin)
  }

  lemma BudgetFallsNow(w: World, e: Event, org: Symbol)
    requires Sound(w.ledger) && Get(Next(w, e).ledger.budgets, org, 0) < Get(w.ledger.budgets, org, 0)
    ensures Spends(w, e, org)
  {
    hide Apply, Sound, Rooted, Next;
    SoundIsRooted(w.ledger);
    BudgetStep(w, e, org);
    OthersDoNotLower(w, e, org);
    if e.Invoked? && Apply(w, e.now, e.call).Ok? && (e.call.Allocate? || e.call.BatchAllocate?) {
      OnlyAdminsAllocate(w, e.now, e.call);
    }
  }

  lemma OthersDoNotLower(w: World, e: Event, org: Symbol)
    requires Sound(w.ledger) && BudgetFlow(w, e, org) < 0
    ensures e.Invoked? && Apply(w, e.now, e.call).Ok? && (e.call.Allocate? || e.call.BatchAllocate?)
        && e.call.org == org
  {
    hide Apply, Sound;
    if e.Invoked? && Apply(w, e.now, e.call).Ok? {
      if e.call.FundOrg? || e.call.Contribute? {
        PaidInPositive(w, e.now, e.call);
      } else if e.call.Distribute? {
        DistributionRaises(w, e.now, e.call, org);
      }
    }
  }

  lemma PaidInPositive(w: World, now: nat, call: Call)
    requires (call.FundOrg? || call.Contribute?) && Apply(w, now, call).Ok?
    ensures call.amount > 0
  {
    hide Apply, StatsFit, NoTransfer, StaleNonce;
    PayingInRefused(w, now, call);
  }

  lemma DistributionRaises(w: World, now: nat, call: Call, org: Symbol)
    requires Sound(w.ledger) && call.Distribute? && Apply(w, now, call).Ok?
    ensures Get(Apply(w, now, call).value.ledger.matched, org, 0) >= Get(w.ledger.matched, org, 0)
  {
    hide Preview, PayMatches, Sound;
    DistributeSteps(w, call.admin, call.projects);
    MatchedRises(w.ledger, call.projects, Preview(w.ledger, call.projects).value, org);
  }

  lemma {:induction false} MatchedRises(l: Ledger, projects: seq<Symbol>, parts: seq<int>, org: Symbol)
    requires |parts| == |projects| && PayMatches(l, projects, parts).Ok?
    ensures Get(PayMatches(l, projects, parts).value.matched, org, 0) >= Get(l.matched, org, 0)
  {
    if projects != [] {
      MatchedRises(l, projects[..|projects| - 1], parts[..|projects| - 1], org);
    }
  }

  /** When a budget falls over a run, one of the organisation's admins has spent from it. */
  lemma {:induction false} BudgetFallsByAdmins(w: World, events: seq<Event>, org: Symbol) returns (i: nat)
    requires Sound(w.ledger) && Get(Run(w, events).ledger.budgets, org, 0) < Get(w.ledger.budgets, org, 0)
    ensures i < |events| && Spends(Run(w, events[..i]), events[i], org)
  {
    hide Apply, Next, Sound, Spends;
    i := 0;
    if events == [] {
      assert false;
    } else {
      var k := |events| - 1;
      if Get(Run(w, events[..k]).ledger.budgets, org, 0) < Get(w.ledger.budgets, org, 0) {
        i := BudgetFallsByAdmins(w, events[..k], org);
        assert events[..k][..i] == events[..i];
      } else {
        i := k;
        SurplusNeverFalls(w, events[..k]);
        BudgetFallsNow(Run(w, events[..k]), events[k], org);
      }
    }
  }

  // --- What maintainers are granted
  // -----------------------------------------------------------------------------------

  /** The tranches a batch gives one maintainer, unlocked at once. */
  function BatchTranches(payouts: seq<PayoutParams>, m: Address): Schedule {
    if payouts == [] then []
    else
      var last := payouts[|payouts| - 1];
      BatchTranches(payouts[..|payouts| - 1], m)
          + (if last.maintainer == m then [VestingTranche(0, last.amount)] else [])
  }

  /** The tranches a call gives one maintainer. */
  function Granted(call: Call, m: Address): Schedule {
    match call
    case Allocate(_, _, maintainer, _, tranches) => if maintainer == m then tranches else []
    case BatchAllocate(_, _, payouts) => BatchTranches(payouts, m)
    case _ => []
  }

  lemma {:induction false} GrantsAppend(accounts: map<Address, Account>, payouts: seq<PayoutParams>, m: Address)
    requires GrantAll(accounts, payouts).Ok?
    ensures AccountOf(GrantAll(accounts, payouts).value, m).tranches
        == AccountOf(accounts, m).tranches + BatchTranches(payouts, m)
  {
    hide Owed;
    if payouts != [] {
      GrantsAppend(accounts, payouts[..|payouts| - 1], m);
    }
  }

  lemma GrantingAppends(w: World, now: nat, call: Call, m: Address)
    requires (call.Allocate? || call.BatchAllocate? || call.Claim? || (call.AddMaintainer? && Rooted(w.ledger)))
    requires Apply(w, now, call).Ok?
    ensures AccountOf(Apply(w, now, call).value.ledger.accounts, m).tranches
         == AccountOf(w.ledger.accounts, m).tranches + Granted(call, m)
  {
    hide Active, Amount, OrgAdmin, Employed, ScheduleTotal, Debit, Owed, BatchTotal, GrantAll, BatchTranches, Vested;
    hide UseNonce, Move;
    if call.BatchAllocate? {
      GrantsAppend(w.ledger.accounts, call.payouts, m);
    }
  }

  /** A maintainer's schedule changes by appending what an allocation says, times included, and in no other way. */
  lemma SchedulesOnlyGrow(w: World, now: nat, call: Call, m: Address)
    requires Rooted(w.ledger) && Apply(w, now, call).Ok?
    ensures AccountOf(Apply(w, now, call).value.ledger.accounts, m).tranches
         == AccountOf(w.ledger.accounts, m).tranches + Granted(call, m)
  {
    hide Apply, BatchTranches, Rooted;
    if call.Allocate? || call.BatchAllocate? || call.Claim? || call.AddMaintainer? {
      GrantingAppends(w, now, call, m);
    } else {
      CallTouches(w, now, call);
    }
  }
}
