/** The tenant ledger account by account, and the lives of orders and settlements, in every reachable state. */
module PaykhTotals {
  import opened Results
  import opened Moneys
  import opened Sums
  import opened Journal
  import opened Entries
  import opened Ledger
  import opened Traces
  import opened PaykhBook
  import opened PaykhInvariants

  // ----- Totals of the records of one tenant in one currency

  function ConfirmedWeight(t: string, c: Currency): Order -> int {
    (o: Order) => if o.tenantId == t && o.currency == c && o.status == CONFIRMED then o.amount else 0
  }

  function SettledWeight(t: string, c: Currency): Settlement -> int {
    (s: Settlement) => if s.tenantId == t && s.currency == c && s.status == SETTLED then s.amount else 0
  }

  function FundedWeight(t: string, c: Currency): Fund -> int {
    (f: Fund) => if f.tenantId == t && f.currency == c && FiatBacked(f.classification) then f.funded else 0
  }

  function CounterWeight(t: string, c: Currency, counter: Liability -> int): Liability -> int {
    (l: Liability) => if l.tenantId == t && l.currency == c then counter(l) else 0
  }

  const ISSUED: Liability -> int := (l: Liability) => l.issuedTotal
  const REDEEMED: Liability -> int := (l: Liability) => l.redeemedTotal
  const OUTSTANDING: Liability -> int := (l: Liability) => l.outstanding
  const LOST_ISSUES: Liability -> int := (l: Liability) => l.lostIssued
  const LOST_REDEMPTIONS: Liability -> int := (l: Liability) => l.lostRedeemed

  function ConfirmedOrders(b: Book, t: string, c: Currency): int { RowSum(b.orders, ConfirmedWeight(t, c)) }
  function Settled(b: Book, t: string, c: Currency): int { RowSum(b.settlements, SettledWeight(t, c)) }
  function Funded(b: Book, t: string, c: Currency): int { RowSum(b.funds, FundedWeight(t, c)) }
  function Counted(b: Book, t: string, c: Currency, counter: Liability -> int): int {
    RowSum(b.liabilities, CounterWeight(t, c, counter))
  }

  // ----- The ledger account by account

  lemma OrderTotals(b: Book, t: string, c: Currency)
    ensures RowSum(b.orders, OrderShare(t, TrusteeBankCash, c)) == ConfirmedOrders(b, t, c)
    ensures RowSum(b.orders, OrderShare(t, MerchantPayable, c)) == ConfirmedOrders(b, t, c)
    ensures RowSum(b.orders, OrderShare(t, ProgramFund, c)) == 0
    ensures RowSum(b.orders, OrderShare(t, LoyaltyStablecoin, c)) == 0
  {
    RowSumScaled(b.orders, OrderShare(t, TrusteeBankCash, c), ConfirmedWeight(t, c), 1);
    RowSumScaled(b.orders, OrderShare(t, MerchantPayable, c), ConfirmedWeight(t, c), 1);
    RowSumScaled(b.orders, OrderShare(t, ProgramFund, c), ConfirmedWeight(t, c), 0);
    RowSumScaled(b.orders, OrderShare(t, LoyaltyStablecoin, c), ConfirmedWeight(t, c), 0);
  }

  lemma SettlementTotals(b: Book, t: string, c: Currency)
    ensures RowSum(b.settlements, SettlementShare(t, TrusteeBankCash, c)) == -Settled(b, t, c)
    ensures RowSum(b.settlements, SettlementShare(t, MerchantPayable, c)) == -Settled(b, t, c)
    ensures RowSum(b.settlements, SettlementShare(t, ProgramFund, c)) == 0
    ensures RowSum(b.settlements, SettlementShare(t, LoyaltyStablecoin, c)) == 0
  {
    RowSumScaled(b.settlements, SettlementShare(t, TrusteeBankCash, c), SettledWeight(t, c), -1);
    RowSumScaled(b.settlements, SettlementShare(t, MerchantPayable, c), SettledWeight(t, c), -1);
    RowSumScaled(b.settlements, SettlementShare(t, ProgramFund, c), SettledWeight(t, c), 0);
    RowSumScaled(b.settlements, SettlementShare(t, LoyaltyStablecoin, c), SettledWeight(t, c), 0);
  }

  lemma FundTotals(b: Book, t: string, c: Currency)
    ensures RowSum(b.funds, FundShare(t, TrusteeBankCash, c)) == Funded(b, t, c)
    ensures RowSum(b.funds, FundShare(t, ProgramFund, c)) == Funded(b, t, c)
    ensures RowSum(b.funds, FundShare(t, MerchantPayable, c)) == 0
    ensures RowSum(b.funds, FundShare(t, LoyaltyStablecoin, c)) == 0
  {
    RowSumScaled(b.funds, FundShare(t, TrusteeBankCash, c), FundedWeight(t, c), 1);
    RowSumScaled(b.funds, FundShare(t, ProgramFund, c), FundedWeight(t, c), 1);
    RowSumScaled(b.funds, FundShare(t, MerchantPayable, c), FundedWeight(t, c), 0);
    RowSumScaled(b.funds, FundShare(t, LoyaltyStablecoin, c), FundedWeight(t, c), 0);
  }

  /** Of the liability rows: what the ledger has of them is what they count and what was lost. */
  lemma {:induction false} LiabilityTotals(rows: seq<Liability>, t: string, c: Currency)
    requires forall i :: 0 <= i < |rows| ==> rows[i].outstanding == rows[i].issuedTotal - rows[i].redeemedTotal
    ensures RowSum(rows, LiabilityShare(t, TrusteeBankCash, c)) == 0
    ensures RowSum(rows, LiabilityShare(t, MerchantPayable, c))
         == RowSum(rows, CounterWeight(t, c, REDEEMED)) + RowSum(rows, CounterWeight(t, c, LOST_REDEMPTIONS))
    ensures RowSum(rows, LiabilityShare(t, ProgramFund, c))
         == -RowSum(rows, CounterWeight(t, c, ISSUED)) - RowSum(rows, CounterWeight(t, c, LOST_ISSUES))
    ensures RowSum(rows, LiabilityShare(t, LoyaltyStablecoin, c))
         == RowSum(rows, CounterWeight(t, c, OUTSTANDING)) + RowSum(rows, CounterWeight(t, c, LOST_ISSUES))
            - RowSum(rows, CounterWeight(t, c, LOST_REDEMPTIONS))
  {
    if rows != [] {
      var n := |rows| - 1;
      assert forall i :: 0 <= i < n ==> rows[..n][i] == rows[i];
      LiabilityTotals(rows[..n], t, c);
    }
  }

  /**
   * In every reachable state the four accounts of a tenant are the totals of the records on four tables; what calls
   * with a lost answer posted stands beside the counters.
   */
  lemma TenantLedgerMeansRecords(b: Book, t: string, c: Currency)
    requires Inv(b)
    ensures Balance(b.journal, t, TrusteeBankCash, c)
         == ConfirmedOrders(b, t, c) + Funded(b, t, c) - Settled(b, t, c)
    ensures Balance(b.journal, t, MerchantPayable, c)
         == ConfirmedOrders(b, t, c) + Counted(b, t, c, REDEEMED) + Counted(b, t, c, LOST_REDEMPTIONS)
            - Settled(b, t, c)
    ensures Balance(b.journal, t, ProgramFund, c)
         == Funded(b, t, c) - Counted(b, t, c, ISSUED) - Counted(b, t, c, LOST_ISSUES)
    ensures Balance(b.journal, t, LoyaltyStablecoin, c)
         == Counted(b, t, c, OUTSTANDING) + Counted(b, t, c, LOST_ISSUES) - Counted(b, t, c, LOST_REDEMPTIONS)
    ensures Balance(b.journal, t, TrusteeBankCash, c)
         == Balance(b.journal, t, MerchantPayable, c) + Balance(b.journal, t, ProgramFund, c)
            + Balance(b.journal, t, LoyaltyStablecoin, c)
  {
    hide Balance, RowSum;
    OrderTotals(b, t, c);
    SettlementTotals(b, t, c);
    FundTotals(b, t, c);
    LiabilityTotals(b.liabilities, t, c);
    CountersAddUp(b.liabilities, t, c);
  }

  lemma CountersAddUp(rows: seq<Liability>, t: string, c: Currency)
    requires forall i :: 0 <= i < |rows| ==> rows[i].outstanding == rows[i].issuedTotal - rows[i].redeemedTotal
    ensures RowSum(rows, CounterWeight(t, c, ISSUED))
         == RowSum(rows, CounterWeight(t, c, OUTSTANDING)) + RowSum(rows, CounterWeight(t, c, REDEEMED))
  {
    RowSumSplit(rows, CounterWeight(t, c, ISSUED), CounterWeight(t, c, OUTSTANDING), CounterWeight(t, c, REDEEMED));
  }

  // ----- What reconcile compares

  /** Everything in the ledger figure of liability `i` that is not on its own counter. */
  function OnOtherCounters(b: Book, i: nat): int
    requires i < |b.liabilities|
  {
    var l := b.liabilities[i];
    Counted(b, l.tenantId, l.currency, OUTSTANDING) - l.outstanding
    + Counted(b, l.tenantId, l.currency, LOST_ISSUES) - Counted(b, l.tenantId, l.currency, LOST_REDEMPTIONS)
  }

  /** No other liability shares the tenant and the currency of `i`. */
  ghost predicate SoleInCurrency(b: Book, i: nat)
    requires i < |b.liabilities|
  {
    forall j :: 0 <= j < |b.liabilities| && j != i ==>
                  b.liabilities[j].tenantId != b.liabilities[i].tenantId
                  || b.liabilities[j].currency != b.liabilities[i].currency
  }

  lemma SoleTotal(b: Book, i: nat, counter: Liability -> int)
    requires i < |b.liabilities| && SoleInCurrency(b, i)
    ensures var l := b.liabilities[i]; Counted(b, l.tenantId, l.currency, counter) == counter(l)
  {
    var l := b.liabilities[i];
    SoleSum(b.liabilities, i, CounterWeight(l.tenantId, l.currency, counter));
  }

  lemma {:induction false} SoleSum(rows: seq<Liability>, i: nat, w: Liability -> int)
    requires i < |rows|
    requires forall j :: 0 <= j < |rows| && j != i ==> w(rows[j]) == 0
    ensures RowSum(rows, w) == w(rows[i])
  {
    var n := |rows| - 1;
    assert forall j :: 0 <= j < n ==> rows[..n][j] == rows[j];
    if i < n {
      SoleSum(rows[..n], i, w);
    } else {
      RowSumScaled(rows[..n], w, w, 0);
    }
  }

  /**
   * The figure reconcile reads from the ledger is the counter of the liability exactly when the other counters and
   * the lost answers cancel; for the only liability of its tenant and currency, when its own lost answers do.
   */
  lemma ReconcileReadsTheCounterExactlyWhen(b: Book, i: nat)
    requires Inv(b) && i < |b.liabilities|
    ensures LedgerOutstanding(b, b.liabilities[i]) == b.liabilities[i].outstanding + OnOtherCounters(b, i)
    ensures LedgerOutstanding(b, b.liabilities[i]) == b.liabilities[i].outstanding <==> OnOtherCounters(b, i) == 0
    ensures SoleInCurrency(b, i) ==>
              (LedgerOutstanding(b, b.liabilities[i]) == b.liabilities[i].outstanding
               <==> b.liabilities[i].lostIssued == b.liabilities[i].lostRedeemed)
  {
    var l := b.liabilities[i];
    TenantLedgerMeansRecords(b, l.tenantId, l.currency);
    if SoleInCurrency(b, i) {
      SoleTotal(b, i, OUTSTANDING);
      SoleTotal(b, i, LOST_ISSUES);
      SoleTotal(b, i, LOST_REDEMPTIONS);
    }
  }

  /** The same request, with an issuer that answers. */
  function Answered(call: Command): Command
    requires call.IssueLoyalty?
  {
    IssueLoyalty(call.id, call.enabled, call.minor, call.units, true, call.actor)
  }

  /** What an issue that reaches the ledger does to it, answered or not. */
  lemma IssueRaisesFigure(b: Book, id: nat, amount: Money, issuerAnswers: bool, actor: string)
    requires id < |b.liabilities| && b.liabilities[id].fundId < |b.funds|
    requires amount.currency == b.liabilities[id].currency
    requires var f := b.funds[b.liabilities[id].fundId]; 0 < amount.minor <= f.funded - f.reserved
    ensures var stepped := IssueResolved(b, id, amount, issuerAnswers, actor);
            && LedgerOutstanding(stepped.book, b.liabilities[id])
               == LedgerOutstanding(b, b.liabilities[id]) + amount.minor
            && |stepped.book.liabilities| == |b.liabilities|
            && (AnswerLost(b.liabilities[id], issuerAnswers) ==>
                  && stepped.book.funds == b.funds
                  && stepped.book.liabilities[id]
                     == b.liabilities[id].(lostIssued := b.liabilities[id].lostIssued + amount.minor))
            && (stepped.fault.None? <==> !AnswerLost(b.liabilities[id], issuerAnswers))
  {
    hide Balance, Build;
    var l := b.liabilities[id];
    var refs := References(Source(LoyaltyIssue, id), l.tenantId, actor);
    TransferSpec(ProgramFund, LoyaltyStablecoin, amount, refs);
    BalanceAppendTransfer(b.journal, LoyaltyIssuanceEntry(amount, refs).value, ProgramFund, LoyaltyStablecoin, amount,
                          refs, l.tenantId, LoyaltyStablecoin, l.currency);
  }

  /**
   * An issue whose answer is lost is in the ledger and nowhere else: it ends in an exception, leaves fund and
   * counters as they were, and so the same request, made again, is accepted again.
   */
  lemma LostIssueCanBeRepeated(b: Book, call: Command)
    requires call.IssueLoyalty?
    requires Step(b, call).fault == Some(IssuerUnreachable)
    ensures var l, after := b.liabilities[call.id], Step(b, call).book;
            var amount := ResolveAmount(l, call.minor, call.units).value.minor;
            && after.funds == b.funds
            && after.liabilities[call.id].outstanding == l.outstanding
            && amount > 0
            && LedgerOutstanding(after, l) == LedgerOutstanding(b, l) + amount
            && Step(after, Answered(call)).fault.None?
            && LedgerOutstanding(Step(after, Answered(call)).book, l) == LedgerOutstanding(b, l) + 2 * amount
  {
    LostIssueResolved(b, call);
    hide IssueResolved, Balance;
    var l, after := b.liabilities[call.id], Step(b, call).book;
    var amount := ResolveAmount(l, call.minor, call.units).value;
    IssueRaisesFigure(b, call.id, amount, false, call.actor);
    IssueRaisesFigure(after, call.id, amount, true, call.actor);
  }

  /** Only a coverage-checked amount gets as far as losing the answer. */
  lemma LostIssueResolved(b: Book, call: Command)
    requires call.IssueLoyalty?
    requires Step(b, call).fault == Some(IssuerUnreachable)
    ensures call.enabled && call.id < |b.liabilities| && b.liabilities[call.id].fundId < |b.funds|
    ensures AnswerLost(b.liabilities[call.id], call.issuerAnswers)
    ensures var l := b.liabilities[call.id];
            var f := b.funds[l.fundId];
            && ResolveAmount(l, call.minor, call.units).Ok?
            && 0 < ResolveAmount(l, call.minor, call.units).value.minor <= f.funded - f.reserved
  {
    hide Balance;
    if call.id < |b.liabilities| {
      var l := b.liabilities[call.id];
      var amount := ResolveAmount(l, call.minor, call.units);
      if amount.Ok? {
        TransferSpec(ProgramFund, LoyaltyStablecoin, amount.value,
                     References(Source(LoyaltyIssue, call.id), l.tenantId, call.actor));
      }
    }
  }

  // ----- Orders and settlements over whole runs

  /**
   * The whole ledger life of an order: nothing, or one collection of its amount, or the collection and then its
   * reversal, which together move nothing; and no two orders share a bank transaction.
   */
  lemma OrderLifeInLedger(b: Book, i: nat)
    requires Reachable(b) && i < |b.orders|
    ensures var o, t := b.orders[i], Trace(b.journal, OrderFamily, i);
            && |t| <= 2
            && (|t| >= 1 ==>
                  Moves(t[0], Source(PaykhOrder, i), o.tenantId, TrusteeBankCash, MerchantPayable,
                        Money(o.amount, o.currency)))
            && (|t| == 2 ==>
                  && t[1].references.source == Source(PaykhRefund, i)
                  && t[1].reversalOf == Some(t[0].references.source)
                  && t[1].references.programId == o.tenantId && t[1].currency == t[0].currency
                  && forall a :: Effect(t[0].postings, a) + Effect(t[1].postings, a) == 0)
            && (o.status == CONFIRMED <==> |t| == 1)
            && (o.matchedTxn.Some? <==> |t| >= 1)
            && (o.status == REFUNDED ==> |t| == 2)
    ensures forall j :: 0 <= j < |b.orders| && j != i && b.orders[i].matchedTxn.Some? ==>
                          b.orders[j].matchedTxn != b.orders[i].matchedTxn
  {
    ReachableInv(b);
    var o, t := b.orders[i], Trace(b.journal, OrderFamily, i);
    assert OrderLife(o, i, t);
    if |t| == 2 {
      forall a ensures Effect(t[0].postings, a) + Effect(t[1].postings, a) == 0 {
        SwapAllEffect(t[0].postings, a);
      }
    }
  }

  /** A settlement pays once, for its amount, and only after someone other than its maker approved it. */
  lemma SettlementLifeInLedger(b: Book, i: nat)
    requires Reachable(b) && i < |b.settlements|
    ensures var s, t := b.settlements[i], Trace(b.journal, SettlementFamily, i);
            && |t| <= 1
            && (|t| == 1 <==> s.status == SETTLED)
            && (|t| == 1 ==>
                  && Moves(t[0], Source(PaykhSettlement, i), s.tenantId, MerchantPayable, TrusteeBankCash,
                           Money(s.amount, s.currency))
                  && s.amount > 0
                  && s.approvedBy.Some? && s.approvedBy.value != s.maker)
  {
    ReachableInv(b);
    assert SettlementLife(b.settlements[i], i, Trace(b.journal, SettlementFamily, i));
  }

  /** A confirmation is never undone but by a refund. */
  lemma ConfirmedLeavesOnlyByRefund(b: Book, call: Command, i: nat)
    requires i < |b.orders| && b.orders[i].status == CONFIRMED
    requires i < |Step(b, call).book.orders| && Step(b, call).book.orders[i].status != CONFIRMED
    ensures call.Refund? && call.id == i && Step(b, call).book.orders[i] == b.orders[i].(status := REFUNDED)
  {
    hide Balance, Transfer, RefundEntry;
    if SubjectFamily(call) != OrderFamily { OtherCallsKeepOrders(b, call); }
  }
}
