/** The ledger is what the counters say in the runs where every answer of the issuer arrives, and in no other. */
module PaykhAnswers {
  import opened Results
  import opened Moneys
  import opened Sums
  import opened Journal
  import opened Entries
  import opened Ledger
  import opened Traces
  import opened PaykhBook
  import opened PaykhInvariants
  import opened PaykhTotals
  import opened PaykhBacking

  // ----- When an answer is lost

  ghost predicate NothingLost(b: Book) {
    forall i :: 0 <= i < |b.liabilities| ==> b.liabilities[i].lostIssued == 0 && b.liabilities[i].lostRedeemed == 0
  }

  /** The call posts, asks the issuer and gets no answer. */
  predicate LosesAnswer(b: Book, call: Command) {
    Step(b, call).fault == Some(IssuerUnreachable)
  }

  /** What was lost stays lost. */
  ghost predicate LossesKept(b: Book, after: Book) {
    && |b.liabilities| <= |after.liabilities|
    && forall i :: 0 <= i < |b.liabilities| ==>
         && b.liabilities[i].lostIssued <= after.liabilities[i].lostIssued
         && b.liabilities[i].lostRedeemed <= after.liabilities[i].lostRedeemed
  }

  lemma IssueLoses(b: Book, id: nat, amount: Money, issuerAnswers: bool, actor: string)
    requires id < |b.liabilities| && b.liabilities[id].fundId < |b.funds| && CountersLive(b)
    ensures var s := IssueResolved(b, id, amount, issuerAnswers, actor);
            && LossesKept(b, s.book)
            && (NothingLost(b) ==> (NothingLost(s.book) <==> s.fault != Some(IssuerUnreachable)))
  {
    TransferFault(ProgramFund, LoyaltyStablecoin, amount,
                  References(Source(LoyaltyIssue, id), b.liabilities[id].tenantId, actor));
    hide Transfer, Balance;
    var s := IssueResolved(b, id, amount, issuerAnswers, actor);
    assert LiabilityLife(b.liabilities[id], b.funds);
    if s.fault == Some(IssuerUnreachable) { assert s.book.liabilities[id].lostIssued > 0; }
  }

  lemma RedeemLoses(b: Book, id: nat, amount: Money, issuerAnswers: bool, actor: string)
    requires id < |b.liabilities| && CountersLive(b)
    ensures var s := RedeemResolved(b, id, amount, issuerAnswers, actor);
            && LossesKept(b, s.book)
            && (NothingLost(b) ==> (NothingLost(s.book) <==> s.fault != Some(IssuerUnreachable)))
  {
    TransferFault(LoyaltyStablecoin, MerchantPayable, amount,
                  References(Source(LoyaltyRedeem, id), b.liabilities[id].tenantId, actor));
    hide Transfer, Balance;
    var s := RedeemResolved(b, id, amount, issuerAnswers, actor);
    assert LiabilityLife(b.liabilities[id], b.funds);
    if s.fault == Some(IssuerUnreachable) { assert s.book.liabilities[id].lostRedeemed > 0; }
  }

  /** Templates fail only on the amount. */
  lemma TransferFault(debit: Account, credit: Account, m: Money, refs: References)
    requires TypeOf(debit).Some? && TypeOf(credit).Some?
    ensures Transfer(debit, credit, m, refs).Err? ==> Transfer(debit, credit, m, refs).fault != IssuerUnreachable
    ensures Transfer(debit, credit, m, refs).Ok? <==> m.minor > 0
  {
    TransferSpec(debit, credit, m, refs);
  }

  lemma OtherCallsLoseNothing(b: Book, call: Command)
    requires !call.IssueLoyalty? && !call.RedeemLoyalty?
    ensures !LosesAnswer(b, call)
    ensures LossesKept(b, Step(b, call).book)
    ensures NothingLost(b) ==> NothingLost(Step(b, call).book)
  {
    OtherFaults(b, call);
    hide Balance, Transfer, RefundEntry;
    if call.Bind? || call.Reconcile? {
    } else {
      OtherCallsKeepLiabilities(b, call);
    }
  }

  lemma OtherCallsKeepLiabilities(b: Book, call: Command)
    requires SubjectFamily(call) != LoyaltyFamily
    ensures Step(b, call).book.liabilities == b.liabilities
  {
    hide Balance, Transfer, RefundEntry;
  }

  lemma OtherFaults(b: Book, call: Command)
    requires !call.IssueLoyalty? && !call.RedeemLoyalty?
    ensures Step(b, call).fault != Some(IssuerUnreachable)
  {
    match call
    case CheckPayment(id, _, _, _, _, _, _, _, actor) =>
      if id < |b.orders| { CollectionFault(b.orders[id], id, actor); }
      hide Transfer, Balance;
    case Refund(id, actor) =>
      if id < |b.orders| { RefundFault(b.orders[id], id, actor); }
      hide RefundEntry, Balance;
    case FundProgram(id, amount, actor) =>
      if id < |b.funds| {
        TransferFault(TrusteeBankCash, ProgramFund, Money(amount, b.funds[id].currency),
                      References(Source(PaykhFund, id), b.funds[id].tenantId, actor));
      }
      hide Transfer, Balance;
    case ConfirmSettlement(id, actor) =>
      if id < |b.settlements| {
        var s := b.settlements[id];
        TransferFault(MerchantPayable, TrusteeBankCash, Money(s.amount, s.currency),
                      References(Source(PaykhSettlement, id), s.tenantId, actor));
      }
      hide Transfer, Balance;
    case _ =>
      hide Transfer, Balance;
  }

  lemma CollectionFault(o: Order, id: nat, actor: string)
    ensures Collection(o, id, actor).Err? ==> Collection(o, id, actor).fault != IssuerUnreachable
  {
    TransferFault(TrusteeBankCash, MerchantPayable, Money(o.amount, o.currency),
                  References(Source(PaykhOrder, id), o.tenantId, actor));
  }

  lemma RefundFault(o: Order, id: nat, actor: string)
    ensures RefundEntry(o, id, actor).Err? ==> RefundEntry(o, id, actor).fault != IssuerUnreachable
  {
    CollectionFault(o, id, actor);
    if o.amount > 0 { RefundSwaps(o, id, actor); }
    TransferFault(TrusteeBankCash, MerchantPayable, Money(o.amount, o.currency),
                  References(Source(PaykhOrder, id), o.tenantId, actor));
    hide Transfer;
  }

  /** One call adds to what is lost exactly when it loses an answer. */
  lemma StepLosesExactlyWhen(b: Book, call: Command)
    requires CountersLive(b)
    ensures LossesKept(b, Step(b, call).book)
    ensures NothingLost(b) ==> (NothingLost(Step(b, call).book) <==> !LosesAnswer(b, call))
  {
    hide CountersLive, IssueResolved, RedeemResolved, LossesKept, NothingLost;
    SameLosses(b);
    match call
    case IssueLoyalty(id, _, minor, units, issuerAnswers, actor) =>
      if id < |b.liabilities| && b.liabilities[id].fundId < |b.funds| {
        var amount := ResolveAmount(b.liabilities[id], minor, units);
        if amount.Ok? { IssueLoses(b, id, amount.value, issuerAnswers, actor); }
      }
    case RedeemLoyalty(id, _, _, minor, units, issuerAnswers, actor) =>
      if id < |b.liabilities| {
        var amount := ResolveAmount(b.liabilities[id], minor, units);
        if amount.Ok? { RedeemLoses(b, id, amount.value, issuerAnswers, actor); }
      }
    case _ => OtherCallsLoseNothing(b, call);
  }

  lemma SameLosses(b: Book)
    ensures LossesKept(b, b)
  {
  }

  // ----- Runs

  /** No issue and no redemption of the run lost its answer. */
  ghost predicate AnswersArrive(calls: seq<Command>) {
    forall k :: 0 <= k < |calls| ==> !LosesAnswer(Run(EMPTY, calls[..k]), calls[k])
  }

  lemma AnswersArriveStep(calls: seq<Command>)
    requires calls != []
    ensures var n := |calls| - 1;
            AnswersArrive(calls) <==> AnswersArrive(calls[..n]) && !LosesAnswer(Run(EMPTY, calls[..n]), calls[n])
  {
    hide Run, LosesAnswer;
    var n := |calls| - 1;
    var front := calls[..n];
    assert forall k :: 0 <= k < n ==> front[k] == calls[k] && front[..k] == calls[..k];
    if AnswersArrive(calls) {
      forall k | 0 <= k < n ensures !LosesAnswer(Run(EMPTY, front[..k]), front[k]) {
        assert !LosesAnswer(Run(EMPTY, calls[..k]), calls[k]);
      }
    }
    if AnswersArrive(front) && !LosesAnswer(Run(EMPTY, front), calls[n]) {
      forall k | 0 <= k < |calls| ensures !LosesAnswer(Run(EMPTY, calls[..k]), calls[k]) {
        if k < n { assert !LosesAnswer(Run(EMPTY, front[..k]), front[k]); }
      }
    }
  }

  lemma LossesAreForGood(b: Book, after: Book)
    requires CountersLive(b) && LossesKept(b, after) && !NothingLost(b)
    ensures !NothingLost(after)
  {
    var i :| 0 <= i < |b.liabilities| && !(b.liabilities[i].lostIssued == 0 && b.liabilities[i].lostRedeemed == 0);
    assert LiabilityLife(b.liabilities[i], b.funds);
  }

  lemma ReachedCounters(calls: seq<Command>)
    ensures Inv(Run(EMPTY, calls)) && CountersLive(Run(EMPTY, calls))
  {
    EmptyInv();
    RunKeeps(EMPTY, calls);
  }

  lemma {:induction false} RunLosesExactlyWhen(calls: seq<Command>)
    ensures NothingLost(Run(EMPTY, calls)) <==> AnswersArrive(calls)
  {
    if calls != [] {
      hide *;
      var before := Run(EMPTY, calls[..|calls| - 1]);
      RunLosesExactlyWhen(calls[..|calls| - 1]);
      AnswersArriveStep(calls);
      LastStep(calls);
      ReachedCounters(calls[..|calls| - 1]);
      StepLosesExactlyWhen(before, calls[|calls| - 1]);
      if !NothingLost(before) { LossesAreForGood(before, Run(EMPTY, calls)); }
    }
  }

  // ----- The history of a liability, told by the calls

  /** The amount a call asks for. */
  function Requested(b: Book, call: Command): int
    requires call.IssueLoyalty? || call.RedeemLoyalty?
  {
    if call.id >= |b.liabilities| then 0
    else
      match ResolveAmount(b.liabilities[call.id], call.minor, call.units)
      case Ok(amount) => amount.minor
      case Err(_) => 0
  }

  /** What the call posts as issued on liability `i` without an answer. */
  function LostIssue(b: Book, call: Command, i: nat): int {
    if call.IssueLoyalty? && call.id == i && LosesAnswer(b, call) then Requested(b, call) else 0
  }

  function LostRedemption(b: Book, call: Command, i: nat): int {
    if call.RedeemLoyalty? && call.id == i && LosesAnswer(b, call) then Requested(b, call) else 0
  }

  /** The issues of a run on liability `i` that lost their answer, by amount. */
  function LostIssuesOf(calls: seq<Command>, i: nat): int {
    if calls == [] then 0
    else
      var n := |calls| - 1;
      LostIssuesOf(calls[..n], i) + LostIssue(Run(EMPTY, calls[..n]), calls[n], i)
  }

  function LostRedemptionsOf(calls: seq<Command>, i: nat): int {
    if calls == [] then 0
    else
      var n := |calls| - 1;
      LostRedemptionsOf(calls[..n], i) + LostRedemption(Run(EMPTY, calls[..n]), calls[n], i)
  }

  /** The losses on record for liability `i`; one that is not bound yet has none. */
  function LossesOn(b: Book, i: nat): (int, int) {
    if i < |b.liabilities| then (b.liabilities[i].lostIssued, b.liabilities[i].lostRedeemed) else (0, 0)
  }

  lemma IssueRecords(b: Book, id: nat, amount: Money, issuerAnswers: bool, actor: string, i: nat)
    requires id < |b.liabilities| && b.liabilities[id].fundId < |b.funds|
    ensures var s := IssueResolved(b, id, amount, issuerAnswers, actor);
            var lost := if i == id && s.fault == Some(IssuerUnreachable) then amount.minor else 0;
            && LossesOn(s.book, i).0 == LossesOn(b, i).0 + lost
            && LossesOn(s.book, i).1 == LossesOn(b, i).1
  {
    TransferFault(ProgramFund, LoyaltyStablecoin, amount,
                  References(Source(LoyaltyIssue, id), b.liabilities[id].tenantId, actor));
    hide Transfer, Balance;
  }

  lemma RedeemRecords(b: Book, id: nat, amount: Money, issuerAnswers: bool, actor: string, i: nat)
    requires id < |b.liabilities|
    ensures var s := RedeemResolved(b, id, amount, issuerAnswers, actor);
            var lost := if i == id && s.fault == Some(IssuerUnreachable) then amount.minor else 0;
            && LossesOn(s.book, i).0 == LossesOn(b, i).0
            && LossesOn(s.book, i).1 == LossesOn(b, i).1 + lost
  {
    TransferFault(LoyaltyStablecoin, MerchantPayable, amount,
                  References(Source(LoyaltyRedeem, id), b.liabilities[id].tenantId, actor));
    hide Transfer, Balance;
  }

  lemma OthersRecordNothing(b: Book, call: Command, i: nat)
    requires !call.IssueLoyalty? && !call.RedeemLoyalty?
    ensures LossesOn(Step(b, call).book, i) == LossesOn(b, i)
  {
    hide Balance, Transfer, RefundEntry;
    if call.Bind? || call.Reconcile? {
    } else {
      OtherCallsKeepLiabilities(b, call);
    }
  }

  /** A call adds to the record exactly what it loses. */
  lemma StepRecords(b: Book, call: Command, i: nat)
    ensures LossesOn(Step(b, call).book, i)
         == (LossesOn(b, i).0 + LostIssue(b, call, i), LossesOn(b, i).1 + LostRedemption(b, call, i))
  {
    hide IssueResolved, RedeemResolved, LossesOn;
    match call
    case IssueLoyalty(id, _, minor, units, issuerAnswers, actor) =>
      if id < |b.liabilities| && b.liabilities[id].fundId < |b.funds| {
        var amount := ResolveAmount(b.liabilities[id], minor, units);
        if amount.Ok? { IssueRecords(b, id, amount.value, issuerAnswers, actor, i); }
      }
    case RedeemLoyalty(id, _, _, minor, units, issuerAnswers, actor) =>
      if id < |b.liabilities| {
        var amount := ResolveAmount(b.liabilities[id], minor, units);
        if amount.Ok? { RedeemRecords(b, id, amount.value, issuerAnswers, actor, i); }
      }
    case _ => OthersRecordNothing(b, call, i);
  }

  /** Over every run the losses on record are the amounts of the calls that lost their answer, and nothing else. */
  lemma {:induction false} RecordTellsTheCalls(calls: seq<Command>, i: nat)
    ensures LossesOn(Run(EMPTY, calls), i) == (LostIssuesOf(calls, i), LostRedemptionsOf(calls, i))
  {
    hide *;
    LostSoFar(calls, i);
    if calls != [] {
      RecordTellsTheCalls(calls[..|calls| - 1], i);
      LastStep(calls);
      StepRecords(Run(EMPTY, calls[..|calls| - 1]), calls[|calls| - 1], i);
    }
  }

  /** The totals over a run, from those of the run without its last call. */
  lemma LostSoFar(calls: seq<Command>, i: nat)
    ensures calls == [] ==>
              LostIssuesOf(calls, i) == LostRedemptionsOf(calls, i) == 0 && LossesOn(Run(EMPTY, calls), i) == (0, 0)
    ensures calls != [] ==>
              var n := |calls| - 1;
              var before := Run(EMPTY, calls[..n]);
              && LostIssuesOf(calls, i) == LostIssuesOf(calls[..n], i) + LostIssue(before, calls[n], i)
              && LostRedemptionsOf(calls, i) == LostRedemptionsOf(calls[..n], i) + LostRedemption(before, calls[n], i)
  {
    hide Step, LostIssue, LostRedemption;
  }

  // ----- The ledger and the counters

  /** The four accounts of every tenant, in every currency, are exactly the totals of the counters and statuses. */
  ghost predicate LedgerIsCounted(b: Book) {
    forall t, c :: CountedAccounts(b, t, c)
  }

  ghost predicate CountedAccounts(b: Book, t: string, c: Currency) {
    && Balance(b.journal, t, TrusteeBankCash, c) == ConfirmedOrders(b, t, c) + Funded(b, t, c) - Settled(b, t, c)
    && Balance(b.journal, t, MerchantPayable, c)
       == ConfirmedOrders(b, t, c) + Counted(b, t, c, REDEEMED) - Settled(b, t, c)
    && Balance(b.journal, t, ProgramFund, c) == Funded(b, t, c) - Counted(b, t, c, ISSUED)
    && Balance(b.journal, t, LoyaltyStablecoin, c) == Counted(b, t, c, OUTSTANDING)
  }

  const NOTHING: Liability -> int := (l: Liability) => 0

  /** A total of losses is nothing exactly when each of its rows is. */
  lemma NoTotalNoLoss(b: Book, t: string, c: Currency, counter: Liability -> int)
    requires forall i :: 0 <= i < |b.liabilities| ==> counter(b.liabilities[i]) >= 0
    ensures Counted(b, t, c, counter) == 0
       <==> forall i :: 0 <= i < |b.liabilities| && b.liabilities[i].tenantId == t && b.liabilities[i].currency == c
                        ==> counter(b.liabilities[i]) == 0
  {
    var rows, w, zero := b.liabilities, CounterWeight(t, c, counter), CounterWeight(t, c, NOTHING);
    RowSumScaled(rows, zero, w, 0);
    RowSumMonotone(rows, zero, w);
  }

  lemma LossesNotNegative(b: Book)
    requires CountersLive(b)
    ensures forall i :: 0 <= i < |b.liabilities| ==>
                          LOST_ISSUES(b.liabilities[i]) >= 0 && LOST_REDEMPTIONS(b.liabilities[i]) >= 0
  {
    forall i | 0 <= i < |b.liabilities|
      ensures LOST_ISSUES(b.liabilities[i]) >= 0 && LOST_REDEMPTIONS(b.liabilities[i]) >= 0
    {
      assert LiabilityLife(b.liabilities[i], b.funds);
    }
  }

  lemma CountedAccountsMeans(b: Book, t: string, c: Currency)
    requires Inv(b)
    ensures CountedAccounts(b, t, c)
       <==> Counted(b, t, c, LOST_ISSUES) == 0 && Counted(b, t, c, LOST_REDEMPTIONS) == 0
  {
    TenantLedgerMeansRecords(b, t, c);
    hide Inv, Balance, Counted, Funded, Settled, ConfirmedOrders;
  }

  lemma LedgerIsCountedExactlyWhen(b: Book)
    requires Inv(b)
    ensures LedgerIsCounted(b) <==> NothingLost(b)
  {
    LossesNotNegative(b);
    forall t, c
      ensures CountedAccounts(b, t, c)
         <==> forall i :: 0 <= i < |b.liabilities| && b.liabilities[i].tenantId == t && b.liabilities[i].currency == c
                          ==> LOST_ISSUES(b.liabilities[i]) == 0 && LOST_REDEMPTIONS(b.liabilities[i]) == 0
    {
      CountedAccountsMeans(b, t, c);
      NoTotalNoLoss(b, t, c, LOST_ISSUES);
      NoTotalNoLoss(b, t, c, LOST_REDEMPTIONS);
    }
    hide Inv, CountedAccounts;
    if LedgerIsCounted(b) {
      forall i | 0 <= i < |b.liabilities|
        ensures b.liabilities[i].lostIssued == 0 && b.liabilities[i].lostRedeemed == 0
      {
        assert CountedAccounts(b, b.liabilities[i].tenantId, b.liabilities[i].currency);
      }
    }
  }

  /**
   * Over every run, cash, merchant payable, program fund and loyalty of every tenant are exactly the totals of
   * statuses and counters, if and only if no issue and no redemption of the run lost the answer of the issuer.
   */
  lemma LedgerIsCountedUnlessLost(calls: seq<Command>)
    ensures LedgerIsCounted(Run(EMPTY, calls)) <==> AnswersArrive(calls)
  {
    hide *;
    ReachedCounters(calls);
    RunLosesExactlyWhen(calls);
    LedgerIsCountedExactlyWhen(Run(EMPTY, calls));
  }

  /** In such a run, reconcile reads the counter of the only liability of its tenant and currency. */
  lemma ReconcileReadsTheCounter(calls: seq<Command>, i: nat)
    requires AnswersArrive(calls)
    requires i < |Run(EMPTY, calls).liabilities| && SoleInCurrency(Run(EMPTY, calls), i)
    ensures LedgerOutstanding(Run(EMPTY, calls), Run(EMPTY, calls).liabilities[i])
         == Run(EMPTY, calls).liabilities[i].outstanding
  {
    var b := Run(EMPTY, calls);
    ReachedCounters(calls);
    RunLosesExactlyWhen(calls);
    hide Run, Inv, AnswersArrive, LedgerOutstanding, SoleInCurrency;
    ReconcileReadsTheCounterExactlyWhen(b, i);
  }

  /**
   * Over every run, reconcile reads the counter of the only liability of its tenant and currency exactly when the
   * issues and the redemptions on it that lost their answer amount to the same.
   */
  lemma ReconcileReadsTheCounterUnlessLost(calls: seq<Command>, i: nat)
    requires i < |Run(EMPTY, calls).liabilities| && SoleInCurrency(Run(EMPTY, calls), i)
    ensures LedgerOutstanding(Run(EMPTY, calls), Run(EMPTY, calls).liabilities[i])
            == Run(EMPTY, calls).liabilities[i].outstanding
       <==> LostIssuesOf(calls, i) == LostRedemptionsOf(calls, i)
  {
    var b := Run(EMPTY, calls);
    ReachedCounters(calls);
    RecordTellsTheCalls(calls, i);
    hide Run, Inv, LedgerOutstanding, SoleInCurrency, LostIssuesOf, LostRedemptionsOf;
    ReconcileReadsTheCounterExactlyWhen(b, i);
  }

  /** With the earmarks kept as well, no program-fund account is ever negative. */
  lemma ProgramFundNeverNegative(calls: seq<Command>, t: string, c: Currency)
    requires AnswersArrive(calls) && EarmarksKept(calls)
    ensures Balance(Run(EMPTY, calls).journal, t, ProgramFund, c) >= 0
  {
    hide *;
    LoyaltyAlwaysBacked(calls, t, c);
    ReachedCounters(calls);
    RunLosesExactlyWhen(calls);
    NoLossNoTotal(Run(EMPTY, calls), t, c);
  }

  lemma NoLossNoTotal(b: Book, t: string, c: Currency)
    requires CountersLive(b) && NothingLost(b)
    ensures Counted(b, t, c, LOST_ISSUES) == 0
  {
    LossesNotNegative(b);
    NoTotalNoLoss(b, t, c, LOST_ISSUES);
  }

  /** In every reachable state it is not negative exactly when the lost issues fit what is left of the funds. */
  lemma ProgramFundNotNegativeExactlyWhen(b: Book, t: string, c: Currency)
    requires Inv(b)
    ensures Balance(b.journal, t, ProgramFund, c) >= 0
       <==> Counted(b, t, c, LOST_ISSUES) <= Funded(b, t, c) - Counted(b, t, c, ISSUED)
  {
    TenantLedgerMeansRecords(b, t, c);
  }

  // ----- A run in which one answer is lost

  const UNANSWERED: Command := IssueLoyalty(0, true, Some(100), None, false, "bank")

  /** Fund 100 for an asset that is issued on chain; issue 100 without an answer, and 100 again. */
  const LOST_RUN: seq<Command> := [
    CreateFund(TENANT, "points", BACKED_LOYALTY_STABLECOIN, KHR),
    FundProgram(0, 100, "bank"),
    Bind(0, None, Some("POINT"), None, Some("distributor")),
    UNANSWERED,
    ISSUE]

  function BoundPoints(issued: int, lost: int): Liability {
    Liability.Liability(0, TENANT, KHR, 1, Some("POINT"), None, Some("distributor"),
                        issued, issued, 0, 0, PENDING, lost, 0)
  }

  lemma BoundStands()
    ensures Stands(Run(EMPTY, LOST_RUN[..3]), [FundOf(100, 0)], [BoundPoints(0, 0)])
  {
    hide Balance;
    var r := LOST_RUN;
    TransferSpec(TrusteeBankCash, ProgramFund, Money(100, KHR),
                 References(Source(PaykhFund, 0), TENANT, "bank"));
    RunLast(r[..0], r[0]);
    RunLast(r[..1], r[1]);
    RunLast(r[..2], r[2]);
    assert r[..0] == [] && r[..0] + [r[0]] == r[..1] && r[..1] + [r[1]] == r[..2] && r[..2] + [r[2]] == r[..3];
    assert Stands(Run(EMPTY, r[..1]), [FundOf(0, 0)], []);
    assert Stands(Run(EMPTY, r[..2]), [FundOf(100, 0)], []);
  }

  lemma PointIsBound()
    ensures OnChain(BoundPoints(0, 0)) && OnChain(BoundPoints(0, 100))
  {
    assert |"POINT"| > 0 && |"distributor"| > 0;
  }

  lemma UnansweredStands(b: Book)
    requires Stands(b, [FundOf(100, 0)], [BoundPoints(0, 0)])
    ensures Stands(Step(b, UNANSWERED).book, [FundOf(100, 0)], [BoundPoints(0, 100)])
  {
    hide Balance;
    PointIsBound();
    TransferSpec(ProgramFund, LoyaltyStablecoin, Money(100, KHR), References(Source(LoyaltyIssue, 0), TENANT, "bank"));
  }

  lemma AnsweredStands(b: Book)
    requires Stands(b, [FundOf(100, 0)], [BoundPoints(0, 100)])
    ensures Stands(Step(b, ISSUE).book, [FundOf(100, 100)], [BoundPoints(100, 100)])
  {
    hide Balance;
    TransferSpec(ProgramFund, LoyaltyStablecoin, Money(100, KHR), References(Source(LoyaltyIssue, 0), TENANT, "bank"));
  }

  /** Although every earmark is kept, the program fund ends at -100, with 200 of loyalty for a counter of 100. */
  lemma LostAnswerOverdrawsTheFund()
    ensures EarmarksKept(LOST_RUN)
    ensures var end := Run(EMPTY, LOST_RUN);
            && Stands(end, [FundOf(100, 100)], [BoundPoints(100, 100)])
            && Balance(end.journal, TENANT, ProgramFund, KHR) == -100
            && LedgerOutstanding(end, end.liabilities[0]) == 200
  {
    NoReserveNoRelease();
    hide Balance, Step, EarmarksKept, Inv;
    var r := LOST_RUN;
    BoundStands();
    RunLast(r[..3], r[3]);
    RunLast(r[..4], r[4]);
    assert r[..3] + [r[3]] == r[..4] && r[..4] + [r[4]] == r;
    UnansweredStands(Run(EMPTY, r[..3]));
    AnsweredStands(Run(EMPTY, r[..4]));
    ReachedCounters(r);
    LostTotals(Run(EMPTY, r));
  }

  lemma NoReserveNoRelease()
    ensures EarmarksKept(LOST_RUN)
  {
    hide Run;
  }

  lemma LostTotals(b: Book)
    requires Inv(b) && Stands(b, [FundOf(100, 100)], [BoundPoints(100, 100)])
    ensures Balance(b.journal, TENANT, ProgramFund, KHR) == -100
    ensures Balance(b.journal, TENANT, LoyaltyStablecoin, KHR) == 200
  {
    hide Balance, RowSum, Inv;
    TenantLedgerMeansRecords(b, TENANT, KHR);
    OnlyFund(b.funds);
    OnlyRow(b.liabilities, ISSUED);
    OnlyRow(b.liabilities, OUTSTANDING);
    OnlyRow(b.liabilities, LOST_ISSUES);
    OnlyRow(b.liabilities, LOST_REDEMPTIONS);
  }
}
