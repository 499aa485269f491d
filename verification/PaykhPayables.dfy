/** When the payable of a merchant can go below zero: no settlement and no refund is bounded by it. */
module PaykhPayables {
  import opened Results
  import opened Moneys
  import opened Journal
  import opened Entries
  import opened Ledger
  import opened Traces
  import opened PaykhBook
  import opened PaykhInvariants
  import opened PaykhBacking

  function Payable(b: Book, t: string, c: Currency): int {
    Balance(b.journal, t, MerchantPayable, c)
  }

  /** No tenant has paid out more to merchants than was collected and redeemed for them. */
  ghost predicate PayablesCovered(b: Book) {
    forall t, c :: Payable(b, t, c) >= 0
  }

  /** A settlement whose confirmation is accepted and posted. */
  predicate Confirmable(s: Settlement) {
    (s.status == APPROVED || s.status == SUBMITTED) && s.amount > 0
  }

  /** The payable covers what the call would take from it, if the call is accepted at all. */
  predicate WithinPayable(b: Book, call: Command) {
    match call
    case ConfirmSettlement(id, _) =>
      id < |b.settlements| && Confirmable(b.settlements[id]) ==>
        b.settlements[id].amount <= Payable(b, b.settlements[id].tenantId, b.settlements[id].currency)
    case Refund(id, _) =>
      id < |b.orders| && b.orders[id].status == CONFIRMED ==>
        b.orders[id].amount <= Payable(b, b.orders[id].tenantId, b.orders[id].currency)
    case _ => true
  }

  // ----- What each call does to a payable

  lemma PostedPulse(b: Book, e: Entry, after: Book, t: string, c: Currency)
    requires after.journal == b.journal + [e]
    ensures Payable(after, t, c) == Payable(b, t, c) + Pulse(e, t, MerchantPayable, c)
  {
    BalanceStep(b.journal, e, t, MerchantPayable, c);
  }

  lemma SettlementTakes(b: Book, call: Command, t: string, c: Currency)
    requires SettlementsLive(b) && call.ConfirmSettlement?
    ensures var after := Step(b, call).book;
            if call.id < |b.settlements| && Confirmable(b.settlements[call.id])
               && b.settlements[call.id].tenantId == t && b.settlements[call.id].currency == c
            then Payable(after, t, c) == Payable(b, t, c) - b.settlements[call.id].amount
            else Payable(after, t, c) == Payable(b, t, c)
  {
    hide Balance, Pulse;
    if call.id < |b.settlements| {
      var s := b.settlements[call.id];
      assert SettlementLife(s, call.id, Trace(b.journal, SettlementFamily, call.id));
      var money := Money(s.amount, s.currency);
      var refs := References(Source(PaykhSettlement, call.id), s.tenantId, call.actor);
      TransferSpec(MerchantPayable, TrusteeBankCash, money, refs);
      hide Transfer;
      if Step(b, call).book != b {
        var e := MerchantSettlementEntry(money, refs).value;
        PulseOfTransfer(MerchantPayable, TrusteeBankCash, money, refs, t, MerchantPayable, c);
        PostedPulse(b, e, Step(b, call).book, t, c);
      }
    }
  }

  lemma RefundTakes(b: Book, call: Command, t: string, c: Currency)
    requires OrdersLive(b) && call.Refund?
    ensures var after := Step(b, call).book;
            if call.id < |b.orders| && b.orders[call.id].status == CONFIRMED
               && b.orders[call.id].tenantId == t && b.orders[call.id].currency == c
            then Payable(after, t, c) == Payable(b, t, c) - b.orders[call.id].amount
            else Payable(after, t, c) == Payable(b, t, c)
  {
    hide Balance, Pulse;
    if call.id < |b.orders| && b.orders[call.id].status == CONFIRMED {
      var o := b.orders[call.id];
      assert OrderLife(o, call.id, Trace(b.journal, OrderFamily, call.id));
      RefundSwaps(o, call.id, call.actor);
      RefundPulse(o, call.id, call.actor, t, MerchantPayable, c);
      hide RefundEntry;
      PostedPulse(b, RefundEntry(o, call.id, call.actor).value, Step(b, call).book, t, c);
    }
  }

  lemma CollectionAdds(b: Book, call: Command, t: string, c: Currency)
    requires call.CheckPayment?
    ensures Payable(Step(b, call).book, t, c) >= Payable(b, t, c)
  {
    hide Balance, Pulse;
    if call.id < |b.orders| && |Step(b, call).book.journal| > |b.journal| {
      var o := b.orders[call.id];
      var money, refs := Money(o.amount, o.currency), References(Source(PaykhOrder, call.id), o.tenantId, call.actor);
      TransferSpec(TrusteeBankCash, MerchantPayable, money, refs);
      hide Transfer;
      PulseOfTransfer(TrusteeBankCash, MerchantPayable, money, refs, t, MerchantPayable, c);
      PostedPulse(b, Collection(o, call.id, call.actor).value, Step(b, call).book, t, c);
    }
  }

  lemma FundingLeaves(b: Book, call: Command, t: string, c: Currency)
    requires call.FundProgram?
    ensures Payable(Step(b, call).book, t, c) == Payable(b, t, c)
  {
    hide Balance, Pulse;
    if call.id < |b.funds| && |Step(b, call).book.journal| > |b.journal| {
      var f := b.funds[call.id];
      var money, refs := Money(call.amount, f.currency), References(Source(PaykhFund, call.id), f.tenantId, call.actor);
      PulseOfTransfer(TrusteeBankCash, ProgramFund, money, refs, t, MerchantPayable, c);
      hide Transfer;
      PostedPulse(b, ProgramFundingEntry(money, refs).value, Step(b, call).book, t, c);
    }
  }

  lemma IssueLeaves(b: Book, id: nat, amount: Money, issuerAnswers: bool, actor: string, t: string, c: Currency)
    requires id < |b.liabilities| && b.liabilities[id].fundId < |b.funds|
    ensures Payable(IssueResolved(b, id, amount, issuerAnswers, actor).book, t, c) == Payable(b, t, c)
  {
    hide Balance, Pulse;
    var after := IssueResolved(b, id, amount, issuerAnswers, actor).book;
    if after != b {
      var refs := References(Source(LoyaltyIssue, id), b.liabilities[id].tenantId, actor);
      PulseOfTransfer(ProgramFund, LoyaltyStablecoin, amount, refs, t, MerchantPayable, c);
      hide Transfer;
      PostedPulse(b, LoyaltyIssuanceEntry(amount, refs).value, after, t, c);
    }
  }

  lemma RedemptionAdds(b: Book, id: nat, amount: Money, issuerAnswers: bool, actor: string, t: string, c: Currency)
    requires id < |b.liabilities|
    ensures Payable(RedeemResolved(b, id, amount, issuerAnswers, actor).book, t, c) >= Payable(b, t, c)
  {
    hide Balance, Pulse;
    var after := RedeemResolved(b, id, amount, issuerAnswers, actor).book;
    if after != b {
      var refs := References(Source(LoyaltyRedeem, id), b.liabilities[id].tenantId, actor);
      PulseOfTransfer(LoyaltyStablecoin, MerchantPayable, amount, refs, t, MerchantPayable, c);
      hide Transfer;
      PostedPulse(b, LoyaltyRedemptionEntry(amount, refs).value, after, t, c);
    }
  }

  lemma QuietLeaves(b: Book, call: Command, t: string, c: Currency)
    requires !MayPost(call)
    ensures Payable(Step(b, call).book, t, c) == Payable(b, t, c)
  {
    QuietPosts(b, call);
    assert b.journal + [] == b.journal;
  }

  /** Only confirming a settlement and refunding an order can take from a payable. */
  lemma OthersTakeNothing(b: Book, call: Command, t: string, c: Currency)
    requires !call.ConfirmSettlement? && !call.Refund?
    ensures Payable(Step(b, call).book, t, c) >= Payable(b, t, c)
  {
    hide Balance, IssueResolved, RedeemResolved;
    match call
    case CheckPayment(_, _, _, _, _, _, _, _, _) => CollectionAdds(b, call, t, c);
    case FundProgram(_, _, _) => FundingLeaves(b, call, t, c);
    case IssueLoyalty(id, _, minor, units, issuerAnswers, actor) =>
      if id < |b.liabilities| && b.liabilities[id].fundId < |b.funds| {
        var amount := ResolveAmount(b.liabilities[id], minor, units);
        if amount.Ok? { IssueLeaves(b, id, amount.value, issuerAnswers, actor, t, c); }
      }
    case RedeemLoyalty(id, _, _, minor, units, issuerAnswers, actor) =>
      if id < |b.liabilities| {
        var amount := ResolveAmount(b.liabilities[id], minor, units);
        if amount.Ok? { RedemptionAdds(b, id, amount.value, issuerAnswers, actor, t, c); }
      }
    case _ => QuietLeaves(b, call, t, c);
  }

  lemma SettlementCovered(b: Book, call: Command)
    requires SettlementsLive(b) && PayablesCovered(b) && call.ConfirmSettlement?
    ensures PayablesCovered(Step(b, call).book) <==> WithinPayable(b, call)
  {
    var after := Step(b, call).book;
    forall t, c
      ensures if call.id < |b.settlements| && Confirmable(b.settlements[call.id])
                 && b.settlements[call.id].tenantId == t && b.settlements[call.id].currency == c
              then Payable(after, t, c) == Payable(b, t, c) - b.settlements[call.id].amount
              else Payable(after, t, c) == Payable(b, t, c)
    {
      SettlementTakes(b, call, t, c);
    }
    hide Payable, Step;
  }

  lemma RefundCovered(b: Book, call: Command)
    requires OrdersLive(b) && PayablesCovered(b) && call.Refund?
    ensures PayablesCovered(Step(b, call).book) <==> WithinPayable(b, call)
  {
    var after := Step(b, call).book;
    forall t, c
      ensures if call.id < |b.orders| && b.orders[call.id].status == CONFIRMED
                 && b.orders[call.id].tenantId == t && b.orders[call.id].currency == c
              then Payable(after, t, c) == Payable(b, t, c) - b.orders[call.id].amount
              else Payable(after, t, c) == Payable(b, t, c)
    {
      RefundTakes(b, call, t, c);
    }
    hide Payable, Step;
  }

  /** One call keeps every payable from going negative exactly when it is within the payable it draws on. */
  lemma StepKeepsPayablesExactlyWhen(b: Book, call: Command)
    requires Inv(b) && PayablesCovered(b)
    ensures PayablesCovered(Step(b, call).book) <==> WithinPayable(b, call)
  {
    if call.ConfirmSettlement? {
      SettlementCovered(b, call);
    } else if call.Refund? {
      RefundCovered(b, call);
    } else {
      forall t, c ensures Payable(Step(b, call).book, t, c) >= Payable(b, t, c) {
        OthersTakeNothing(b, call, t, c);
      }
      hide Payable, Step, Inv;
    }
  }

  // ----- Runs

  /** Every call of the run is within the payable it draws on, at the moment it comes. */
  ghost predicate DrawsCovered(calls: seq<Command>) {
    forall k :: 0 <= k < |calls| ==> WithinPayable(Run(EMPTY, calls[..k]), calls[k])
  }

  /** No payable is ever negative, at any moment of the run. */
  ghost predicate AlwaysCovered(calls: seq<Command>) {
    forall k :: 0 <= k <= |calls| ==> PayablesCovered(Run(EMPTY, calls[..k]))
  }

  lemma DrawsCoveredStep(calls: seq<Command>)
    requires calls != []
    ensures var n := |calls| - 1;
            DrawsCovered(calls) <==> DrawsCovered(calls[..n]) && WithinPayable(Run(EMPTY, calls[..n]), calls[n])
  {
    hide Run, WithinPayable;
    var n := |calls| - 1;
    var front := calls[..n];
    assert forall k :: 0 <= k < n ==> front[k] == calls[k] && front[..k] == calls[..k];
    if DrawsCovered(calls) {
      forall k | 0 <= k < n ensures WithinPayable(Run(EMPTY, front[..k]), front[k]) {
        assert WithinPayable(Run(EMPTY, calls[..k]), calls[k]);
      }
    }
    if DrawsCovered(front) && WithinPayable(Run(EMPTY, front), calls[n]) {
      forall k | 0 <= k < |calls| ensures WithinPayable(Run(EMPTY, calls[..k]), calls[k]) {
        if k < n { assert WithinPayable(Run(EMPTY, front[..k]), front[k]); }
      }
    }
  }

  lemma AlwaysCoveredStep(calls: seq<Command>)
    requires calls != []
    ensures AlwaysCovered(calls) <==> AlwaysCovered(calls[..|calls| - 1]) && PayablesCovered(Run(EMPTY, calls))
    ensures AlwaysCovered(calls[..|calls| - 1]) ==> PayablesCovered(Run(EMPTY, calls[..|calls| - 1]))
  {
    hide Run, PayablesCovered;
    var n := |calls| - 1;
    var front := calls[..n];
    assert calls[..|calls|] == calls && front[..n] == front;
    assert forall k :: 0 <= k <= n ==> front[..k] == calls[..k];
    if AlwaysCovered(calls) {
      forall k | 0 <= k <= n ensures PayablesCovered(Run(EMPTY, front[..k])) {
        assert PayablesCovered(Run(EMPTY, calls[..k]));
      }
      assert PayablesCovered(Run(EMPTY, calls[..|calls|]));
    }
    if AlwaysCovered(front) {
      assert PayablesCovered(Run(EMPTY, front[..n]));
      if PayablesCovered(Run(EMPTY, calls)) {
        forall k | 0 <= k <= |calls| ensures PayablesCovered(Run(EMPTY, calls[..k])) {
          if k <= n { assert PayablesCovered(Run(EMPTY, front[..k])); }
        }
      }
    }
  }

  lemma NothingOwed(calls: seq<Command>)
    requires calls == []
    ensures AlwaysCovered(calls) && DrawsCovered(calls)
  {
    assert calls[..0] == [];
  }

  /** Over every run, no payable is negative at any moment exactly when every call is within what it draws on. */
  lemma {:induction false} PayablesCoveredExactlyWhen(calls: seq<Command>)
    ensures AlwaysCovered(calls) <==> DrawsCovered(calls)
  {
    hide *;
    if calls == [] {
      NothingOwed(calls);
    } else {
      var n := |calls| - 1;
      PayablesCoveredExactlyWhen(calls[..n]);
      AlwaysCoveredStep(calls);
      DrawsCoveredStep(calls);
      LastStep(calls);
      if AlwaysCovered(calls[..n]) {
        EmptyInv();
        RunKeeps(EMPTY, calls[..n]);
        StepKeepsPayablesExactlyWhen(Run(EMPTY, calls[..n]), calls[n]);
      }
    }
  }

  // ----- A run that breaks it

  /** Settle 100 for a tenant that never collected anything. */
  const UNFUNDED_RUN: seq<Command> := [
    CreateSettlement(TENANT, Some(true), 100, KHR, "maker"),
    ApproveSettlement(0, "checker"),
    ConfirmSettlement(0, "bank")]

  function SettlementOf(status: SettlementStatus, approvedBy: Option<string>): Settlement {
    Settlement(TENANT, 100, KHR, status, "maker", approvedBy)
  }

  lemma ApprovedStands()
    ensures Run(EMPTY, UNFUNDED_RUN[..2]).settlements == [SettlementOf(APPROVED, Some("checker"))]
    ensures Run(EMPTY, UNFUNDED_RUN[..2]).journal == []
  {
    var r := UNFUNDED_RUN;
    assert |"maker"| != |"checker"|;
    RunLast(r[..0], r[0]);
    RunLast(r[..1], r[1]);
    assert r[..0] == [] && r[..0] + [r[0]] == r[..1] && r[..1] + [r[1]] == r[..2];
    assert Run(EMPTY, r[..1]) == EMPTY.(settlements := [SettlementOf(REQUESTED, None)]);
  }

  lemma ReachedSettlements(calls: seq<Command>)
    ensures SettlementsLive(Run(EMPTY, calls))
  {
    EmptyInv();
    RunKeeps(EMPTY, calls);
  }

  /** Every check passes, and the payable ends at -100. */
  lemma SettlementOverdrawsPayable()
    ensures Payable(Run(EMPTY, UNFUNDED_RUN), TENANT, KHR) == -100
    ensures !WithinPayable(Run(EMPTY, UNFUNDED_RUN[..2]), UNFUNDED_RUN[2])
  {
    var r := UNFUNDED_RUN;
    ApprovedStands();
    assert Payable(Run(EMPTY, r[..2]), TENANT, KHR) == 0;
    RunLast(r[..2], r[2]);
    assert r[..2] + [r[2]] == r;
    ReachedSettlements(r[..2]);
    hide Run, Step, Payable, SettlementsLive;
    SettlementTakes(Run(EMPTY, r[..2]), r[2], TENANT, KHR);
  }
}
