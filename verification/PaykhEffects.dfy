/** What each PayKH call does, told by rows and balances: when it succeeds, what it writes, and what it leaves. */
module PaykhEffects {
  import opened Results
  import opened Moneys
  import opened Journal
  import opened Entries
  import opened Ledger
  import opened LedgerMoves
  import opened Traces
  import opened PaykhBook
  import opened PaykhInvariants

  // ----- Orders

  lemma CreateOrderOutcome(b: Book, call: Command)
    requires call.CreateOrder?
    ensures var s := Step(b, call);
            var fits := call.profile.Some? && call.profile.value.active && call.profile.value.currency == call.currency
                        && forall i :: 0 <= i < |b.orders| ==> b.orders[i].paymentReference != call.reference;
            var ttl := if call.ttlSeconds.Some? then call.ttlSeconds.value else 900;
            && (s.fault.None? <==> fits)
            && (!fits ==> s.book == b)
            && (fits ==>
                  s.book == b.(orders := b.orders + [
                    Order(call.tenantId, call.amount, call.currency, call.reference, AWAITING_PAYMENT, None,
                          call.nowMs + 1000 * ttl)]))
  {
  }

  /** The order still waits for its payment. */
  predicate Open(b: Book, id: nat) {
    id < |b.orders| && b.orders[id].status in {AWAITING_PAYMENT, PAYMENT_DETECTED}
  }

  /** Amount, currency, reference and recipient are those of the order, and no other order has the transaction. */
  ghost predicate Pays(b: Book, call: Command)
    requires call.CheckPayment? && call.id < |b.orders|
  {
    var o := b.orders[call.id];
    && call.amount == o.amount && call.currency == o.currency && call.reference == o.paymentReference
    && (call.profile.Some? ==> call.recipient == call.profile.value.recipient)
    && forall j :: 0 <= j < |b.orders| && j != call.id ==> b.orders[j].matchedTxn != Some(call.bankTransactionId)
  }

  /** The order is confirmed by the transaction, and its amount is cash owed to the merchant. */
  ghost predicate ConfirmedFrom(b: Book, after: Book, id: nat, txn: string)
    requires id < |b.orders|
  {
    var o := b.orders[id];
    && after == b.(journal := after.journal,
                   orders := b.orders[id := o.(status := CONFIRMED, matchedTxn := Some(txn))])
    && Shifts(b.journal, after.journal, o.tenantId, o.currency, TrusteeBankCash, o.amount, MerchantPayable, o.amount)
  }

  /**
   * A check succeeds exactly when the order is already confirmed by this transaction, which changes nothing, or when
   * it is open, in its term, positive, and paid by it. One that comes late leaves the order expired.
   */
  lemma CheckPaymentOutcome(b: Book, call: Command)
    requires call.CheckPayment?
    ensures var s := Step(b, call);
            var repeated := call.id < |b.orders| && b.orders[call.id].status == CONFIRMED
                            && b.orders[call.id].matchedTxn == Some(call.bankTransactionId);
            var inTerm := Open(b, call.id) && call.nowMs <= b.orders[call.id].expiresAt;
            var paid := inTerm && Pays(b, call) && b.orders[call.id].amount > 0;
            && (s.fault.None? <==> repeated || paid)
            && (paid ==> ConfirmedFrom(b, s.book, call.id, call.bankTransactionId))
            && (Open(b, call.id) && !inTerm ==>
                  s.book == b.(orders := b.orders[call.id := b.orders[call.id].(status := EXPIRED)]))
            && (!Open(b, call.id) || (inTerm && !paid) ==> s.book == b)
  {
    if call.id < |b.orders| {
      var o := b.orders[call.id];
      CollectionOutcome(b, call.id, o.(status := CONFIRMED, matchedTxn := Some(call.bankTransactionId)), call.actor);
    }
    hide Collection, Shifts, Balance;
  }

  lemma CollectionOutcome(b: Book, id: nat, row: Order, actor: string)
    requires id < |b.orders|
    ensures var o, entry := b.orders[id], Collection(b.orders[id], id, actor);
            && (entry.Ok? <==> o.amount > 0)
            && (entry.Ok? ==>
                  Shifts(b.journal, b.journal + [entry.value], o.tenantId, o.currency,
                         TrusteeBankCash, o.amount, MerchantPayable, o.amount))
  {
    hide Transfer, Balance, Shifts, DebitNormal, TypeOf;
    Sides();
    var o := b.orders[id];
    var money, refs := Money(o.amount, o.currency), References(Source(PaykhOrder, id), o.tenantId, actor);
    TransferAccepts(TrusteeBankCash, MerchantPayable, money, refs);
    if o.amount > 0 {
      TransferShifts(b.journal, b.journal + [Collection(o, id, actor).value], TrusteeBankCash, MerchantPayable, money,
                     refs);
    }
  }

  lemma RefundShifts(log: JournalLog, o: Order, id: nat, actor: string)
    requires o.amount > 0
    ensures RefundEntry(o, id, actor).Ok?
    ensures Shifts(log, log + [RefundEntry(o, id, actor).value], o.tenantId, o.currency,
                   TrusteeBankCash, -o.amount, MerchantPayable, -o.amount)
  {
    RefundSwaps(o, id, actor);
    Sides();
    hide Balance, RefundEntry, DebitNormal, TypeOf, Pulse;
    var e := RefundEntry(o, id, actor).value;
    forall q, a, k
      ensures Balance(log + [e], q, a, k)
           == Balance(log, q, a, k)
              + MoveOf(q == o.tenantId && k == o.currency, a, TrusteeBankCash, -o.amount, MerchantPayable, -o.amount)
    {
      BalanceStep(log, e, q, a, k);
      RefundPulse(o, id, actor, q, a, k);
    }
  }

  /** A refund succeeds exactly on a confirmed order, and takes the amount out of cash and payable again. */
  lemma RefundOutcome(b: Book, call: Command)
    requires OrdersLive(b) && call.Refund?
    ensures var s := Step(b, call);
            var confirmed := call.id < |b.orders| && b.orders[call.id].status == CONFIRMED;
            && (s.fault.None? <==> confirmed)
            && (!confirmed ==> s.book == b)
            && (confirmed ==>
                  var o := b.orders[call.id];
                  && s.book == b.(journal := s.book.journal,
                                  orders := b.orders[call.id := o.(status := REFUNDED)])
                  && Shifts(b.journal, s.book.journal, o.tenantId, o.currency,
                            TrusteeBankCash, -o.amount, MerchantPayable, -o.amount))
  {
    if call.id < |b.orders| && b.orders[call.id].status == CONFIRMED {
      assert OrderLife(b.orders[call.id], call.id, Trace(b.journal, OrderFamily, call.id));
      RefundShifts(b.journal, b.orders[call.id], call.id, call.actor);
    }
    hide RefundEntry, Shifts, Balance, OrdersLive;
  }

  lemma CancelOrderOutcome(b: Book, call: Command)
    requires call.CancelOrder?
    ensures var s := Step(b, call);
            var open := call.id < |b.orders| && b.orders[call.id].status != CONFIRMED;
            && (s.fault.None? <==> open)
            && (!open ==> s.book == b)
            && (open ==> s.book == b.(orders := b.orders[call.id := b.orders[call.id].(status := CANCELLED)]))
  {
  }

  // ----- Program funds

  /** The ten classifications that need cash behind them. */
  lemma FiatBackedMeans(c: Classification)
    ensures FiatBacked(c) <==>
            c in {BACKED_LOYALTY_STABLECOIN, MERCHANT_FUNDED_REWARD, PLATFORM_FUNDED_REWARD, CASHBACK_LIABILITY,
                  GIFT_CARD_LIABILITY, CUSTOMER_SAFEGUARDED_FUNDS, MERCHANT_SETTLEMENT_PAYABLE, STABLE_VALUE_LIABILITY,
                  FIAT_BACKED_STABLECOIN_LIABILITY, TOKENIZED_DEPOSIT_LIABILITY}
  {
  }

  lemma CreateFundOutcome(b: Book, call: Command)
    requires call.CreateFund?
    ensures var s := Step(b, call);
            var free := forall i :: 0 <= i < |b.funds| ==>
                          b.funds[i].tenantId != call.tenantId || b.funds[i].programRef != call.programRef;
            && (s.fault.None? <==> free)
            && (!free ==> s.book == b)
            && (free ==>
                  s.book == b.(funds := b.funds + [
                    Fund(call.tenantId, call.programRef, call.classification, call.currency, 0, 0)]))
  {
  }

  /** Funding adds a positive amount to the fund, and books it exactly when the classification is fiat-backed. */
  lemma FundProgramOutcome(b: Book, call: Command)
    requires call.FundProgram?
    ensures var s := Step(b, call);
            var fits := call.id < |b.funds| && call.amount > 0 && !b.funds[call.id].classification.Unclassified?;
            && (s.fault.None? <==> fits)
            && (!fits ==> s.book == b)
            && (fits ==>
                  var f := b.funds[call.id];
                  && s.book == b.(journal := s.book.journal,
                                  funds := b.funds[call.id := f.(funded := f.funded + call.amount)])
                  && (if FiatBacked(f.classification)
                      then Shifts(b.journal, s.book.journal, f.tenantId, f.currency,
                                  TrusteeBankCash, call.amount, ProgramFund, call.amount)
                      else s.book.journal == b.journal))
  {
    hide Transfer, Balance, Shifts, DebitNormal, TypeOf;
    Sides();
    if call.id < |b.funds| {
      var f, s := b.funds[call.id], Step(b, call);
      var money, refs := Money(call.amount, f.currency), References(Source(PaykhFund, call.id), f.tenantId, call.actor);
      TransferAccepts(TrusteeBankCash, ProgramFund, money, refs);
      if s.fault.None? && FiatBacked(f.classification) {
        TransferShifts(b.journal, s.book.journal, TrusteeBankCash, ProgramFund, money, refs);
      }
    }
  }

  lemma ReserveFundOutcome(b: Book, call: Command)
    requires call.ReserveFund?
    ensures var s := Step(b, call);
            var fits := call.id < |b.funds| && b.funds[call.id].reserved + call.amount <= b.funds[call.id].funded;
            && (s.fault.None? <==> fits)
            && (!fits ==> s.book == b)
            && (fits ==>
                  var f := b.funds[call.id];
                  s.book == b.(funds := b.funds[call.id := f.(reserved := f.reserved + call.amount)]))
  {
  }

  lemma ReleaseFundOutcome(b: Book, call: Command)
    requires call.ReleaseFund?
    ensures var s := Step(b, call);
            var fits := call.id < |b.funds| && b.funds[call.id].reserved - call.amount >= 0;
            && (s.fault.None? <==> fits)
            && (!fits ==> s.book == b)
            && (fits ==>
                  var f := b.funds[call.id];
                  s.book == b.(funds := b.funds[call.id := f.(reserved := f.reserved - call.amount)]))
  {
  }

  // ----- Loyalty

  /** A fund takes one liability, in its own tenant and currency, if it is fiat-backed and the face value positive. */
  lemma BindOutcome(b: Book, call: Command)
    requires call.Bind?
    ensures var s := Step(b, call);
            var face := if call.denomination.Some? then call.denomination.value else 1;
            var fits := call.fundId < |b.funds| && FiatBacked(b.funds[call.fundId].classification) && face > 0
                        && forall i :: 0 <= i < |b.liabilities| ==> b.liabilities[i].fundId != call.fundId;
            && (s.fault.None? <==> fits)
            && (!fits ==> s.book == b)
            && (fits ==>
                  s.book == b.(liabilities := b.liabilities + [
                    Liability.Liability(call.fundId, b.funds[call.fundId].tenantId, b.funds[call.fundId].currency, face,
                                        call.assetCode, call.issuer, call.distributor,
                                        0, 0, 0, 0, PENDING, 0, 0)]))
  {
  }

  /** The amount a request is for: its units at the face value of the liability, or else its minor units. */
  predicate AsksFor(l: Liability, minor: Option<int>, units: Option<int>, m: int) {
    if units.Some? then m == units.value * l.denomination else minor == Some(m)
  }

  /** An asset code and a distributor are given, so that the issuer has to answer. */
  predicate NeedsIssuer(l: Liability) {
    l.assetCode.Some? && l.assetCode.value != "" && l.distributor.Some? && l.distributor.value != ""
  }

  lemma AskedAmount(l: Liability, minor: Option<int>, units: Option<int>, m: int)
    requires l.denomination > 0 && AsksFor(l, minor, units, m)
    ensures m > 0 ==> ResolveAmount(l, minor, units) == Result.Ok(Money(m, l.currency))
    ensures ResolveAmount(l, minor, units).Ok? ==> ResolveAmount(l, minor, units).value.minor == m
  {
    if units.Some? && units.value < 0 { NegativeFace(units.value, l.denomination); }
  }

  lemma NegativeFace(n: int, face: int)
    requires n < 0 && face > 0
    ensures n * face < 0
  {
  }

  /** The amount is earmarked in the fund, counted as issued, and moved from the fund to the holders. */
  ghost predicate IssuedFrom(b: Book, after: Book, id: nat, m: int)
    requires id < |b.liabilities| && b.liabilities[id].fundId < |b.funds|
  {
    var l := b.liabilities[id];
    var f := b.funds[l.fundId];
    && after == b.(journal := after.journal,
                   funds := b.funds[l.fundId := f.(reserved := f.reserved + m)],
                   liabilities := b.liabilities[id := l.(outstanding := l.outstanding + m,
                                                         issuedTotal := l.issuedTotal + m)])
    && Shifts(b.journal, after.journal, l.tenantId, l.currency, ProgramFund, -m, LoyaltyStablecoin, m)
  }

  ghost predicate IssueLostFrom(b: Book, after: Book, id: nat, m: int)
    requires id < |b.liabilities|
  {
    var l := b.liabilities[id];
    && after == b.(journal := after.journal, liabilities := b.liabilities[id := l.(lostIssued := l.lostIssued + m)])
    && Shifts(b.journal, after.journal, l.tenantId, l.currency, ProgramFund, -m, LoyaltyStablecoin, m)
  }

  lemma IssueOf(b: Book, id: nat, m: int, issuerAnswers: bool, actor: string)
    requires id < |b.liabilities| && b.liabilities[id].fundId < |b.funds|
    ensures var l := b.liabilities[id];
            var f := b.funds[l.fundId];
            var s := IssueResolved(b, id, Money(m, l.currency), issuerAnswers, actor);
            var fits := 0 < m <= f.funded - f.reserved;
            var lost := NeedsIssuer(l) && !issuerAnswers;
            && (s.fault.None? <==> fits && !lost)
            && (!fits ==> s.book == b)
            && (fits && !lost ==> IssuedFrom(b, s.book, id, m))
            && (fits && lost ==> s.fault == Some(IssuerUnreachable) && IssueLostFrom(b, s.book, id, m))
  {
    hide Transfer, Balance, Shifts, DebitNormal, TypeOf;
    Sides();
    var l := b.liabilities[id];
    var money, refs := Money(m, l.currency), References(Source(LoyaltyIssue, id), l.tenantId, actor);
    var s := IssueResolved(b, id, money, issuerAnswers, actor);
    TransferAccepts(ProgramFund, LoyaltyStablecoin, money, refs);
    if s.book != b { TransferShifts(b.journal, s.book.journal, ProgramFund, LoyaltyStablecoin, money, refs); }
  }

  /**
   * An issue succeeds exactly when loyalty is enabled, the amount asked for is positive and not above what the fund
   * has left, and the issuer answers where it must. It then earmarks, counts and moves that amount.
   */
  lemma IssueOutcome(b: Book, call: Command, m: int)
    requires CountersLive(b) && call.IssueLoyalty?
    requires call.id < |b.liabilities| ==> AsksFor(b.liabilities[call.id], call.minor, call.units, m)
    ensures call.id < |b.liabilities| ==> b.liabilities[call.id].fundId < |b.funds|
    ensures var s := Step(b, call);
            var known := call.enabled && call.id < |b.liabilities|;
            var fits := known && 0 < m && b.funds[b.liabilities[call.id].fundId].reserved + m
                                          <= b.funds[b.liabilities[call.id].fundId].funded;
            var lost := fits && NeedsIssuer(b.liabilities[call.id]) && !call.issuerAnswers;
            && (s.fault.None? <==> fits && !lost)
            && (!fits ==> s.book == b)
            && (fits && !lost ==> IssuedFrom(b, s.book, call.id, m))
            && (lost ==> s.fault == Some(IssuerUnreachable) && IssueLostFrom(b, s.book, call.id, m))
  {
    if call.id < |b.liabilities| {
      var l := b.liabilities[call.id];
      assert LiabilityLife(l, b.funds);
      AskedAmount(l, call.minor, call.units, m);
      IssueOf(b, call.id, m, call.issuerAnswers, call.actor);
      hide CountersLive, IssueResolved, IssuedFrom, IssueLostFrom, NeedsIssuer, AsksFor;
      RefusedAmount(b, call, m);
    }
  }

  /** An amount that is not positive is refused whether it resolves or not. */
  lemma RefusedAmount(b: Book, call: Command, m: int)
    requires call.IssueLoyalty? || call.RedeemLoyalty?
    requires call.id < |b.liabilities| && b.liabilities[call.id].fundId < |b.funds|
    requires var resolved := ResolveAmount(b.liabilities[call.id], call.minor, call.units);
             resolved.Ok? ==> resolved.value.minor == m
    ensures m <= 0 ==> Step(b, call).fault.Some? && Step(b, call).book == b
  {
    hide ResolveAmount, Transfer, Balance;
  }

  /** The amount is counted as redeemed, and owed to the merchant instead of the holder. */
  ghost predicate RedeemedFrom(b: Book, after: Book, id: nat, m: int)
    requires id < |b.liabilities|
  {
    var l := b.liabilities[id];
    && after == b.(journal := after.journal,
                   liabilities := b.liabilities[id := l.(outstanding := l.outstanding - m,
                                                         redeemedTotal := l.redeemedTotal + m)])
    && Shifts(b.journal, after.journal, l.tenantId, l.currency, LoyaltyStablecoin, -m, MerchantPayable, m)
  }

  ghost predicate RedemptionLostFrom(b: Book, after: Book, id: nat, m: int)
    requires id < |b.liabilities|
  {
    var l := b.liabilities[id];
    && after == b.(journal := after.journal,
                   liabilities := b.liabilities[id := l.(lostRedeemed := l.lostRedeemed + m)])
    && Shifts(b.journal, after.journal, l.tenantId, l.currency, LoyaltyStablecoin, -m, MerchantPayable, m)
  }

  lemma RedemptionOf(b: Book, id: nat, m: int, issuerAnswers: bool, actor: string)
    requires id < |b.liabilities|
    ensures var l := b.liabilities[id];
            var s := RedeemResolved(b, id, Money(m, l.currency), issuerAnswers, actor);
            var fits := 0 < m <= l.outstanding;
            var lost := NeedsIssuer(l) && !issuerAnswers;
            && (s.fault.None? <==> fits && !lost)
            && (!fits ==> s.book == b)
            && (fits && !lost ==> RedeemedFrom(b, s.book, id, m))
            && (fits && lost ==> s.fault == Some(IssuerUnreachable) && RedemptionLostFrom(b, s.book, id, m))
  {
    hide Transfer, Balance, Shifts, DebitNormal, TypeOf;
    Sides();
    var l := b.liabilities[id];
    var money, refs := Money(m, l.currency), References(Source(LoyaltyRedeem, id), l.tenantId, actor);
    var s := RedeemResolved(b, id, money, issuerAnswers, actor);
    TransferAccepts(LoyaltyStablecoin, MerchantPayable, money, refs);
    if s.book != b { TransferShifts(b.journal, s.book.journal, LoyaltyStablecoin, MerchantPayable, money, refs); }
  }

  /**
   * A redemption succeeds exactly at an active merchant, for a positive amount not above what is outstanding, and
   * with an answer of the issuer where it must be asked. It then counts that amount and owes it to the merchant.
   */
  lemma RedeemOutcome(b: Book, call: Command, m: int)
    requires CountersLive(b) && call.RedeemLoyalty?
    requires call.id < |b.liabilities| ==> AsksFor(b.liabilities[call.id], call.minor, call.units, m)
    ensures var s := Step(b, call);
            var known := call.enabled && call.merchantActive == Some(true) && call.id < |b.liabilities|;
            var fits := known && 0 < m <= b.liabilities[call.id].outstanding;
            var lost := fits && NeedsIssuer(b.liabilities[call.id]) && !call.issuerAnswers;
            && (s.fault.None? <==> fits && !lost)
            && (!fits ==> s.book == b)
            && (fits && !lost ==> RedeemedFrom(b, s.book, call.id, m))
            && (lost ==> s.fault == Some(IssuerUnreachable) && RedemptionLostFrom(b, s.book, call.id, m))
  {
    if call.id < |b.liabilities| {
      var l := b.liabilities[call.id];
      assert LiabilityLife(l, b.funds);
      AskedAmount(l, call.minor, call.units, m);
      RedemptionOf(b, call.id, m, call.issuerAnswers, call.actor);
      hide CountersLive, RedeemResolved, RedeemedFrom, RedemptionLostFrom, NeedsIssuer, AsksFor;
      RefusedAmount(b, call, m);
    }
  }

  /** Without units and without an amount nothing happens. */
  lemma NothingAsked(b: Book, call: Command)
    requires call.IssueLoyalty? || call.RedeemLoyalty?
    requires call.minor.None? && call.units.None?
    ensures Step(b, call).fault.Some? && Step(b, call).book == b
  {
  }

  /**
   * Reconcile writes what was read on chain, or else the ledger figure, and calls it drift exactly when both an asset
   * code and an issuer are given, the chain was read, and it differs from the ledger.
   */
  lemma ReconcileOutcome(b: Book, call: Command)
    requires call.Reconcile?
    ensures var s := Step(b, call);
            && (s.fault.None? <==> call.id < |b.liabilities|)
            && (s.fault.Some? ==> s.book == b)
            && (s.fault.None? ==>
                  var l := b.liabilities[call.id];
                  var figure := Balance(b.journal, l.tenantId, LoyaltyStablecoin, l.currency);
                  var read := l.assetCode.Some? && l.assetCode.value != "" && l.issuer.Some? && l.issuer.value != ""
                              && call.supply.Some?;
                  s.book == b.(liabilities := b.liabilities[call.id := l.(
                    onChainSupply := if read then call.supply.value else figure,
                    reconciliation := if read && call.supply.value != figure then DRIFT else OK)]))
  {
    hide Balance;
  }

  // ----- Settlements

  lemma CreateSettlementOutcome(b: Book, call: Command)
    requires call.CreateSettlement?
    ensures var s := Step(b, call);
            && (s.fault.None? <==> call.merchantActive == Some(true))
            && (s.fault.Some? ==> s.book == b)
            && (s.fault.None? ==>
                  s.book == b.(settlements := b.settlements + [
                    Settlement(call.tenantId, call.amount, call.currency, REQUESTED, call.actor, None)]))
  {
  }

  lemma ApproveSettlementOutcome(b: Book, call: Command)
    requires call.ApproveSettlement?
    ensures var s := Step(b, call);
            var ready := call.id < |b.settlements| && b.settlements[call.id].status == REQUESTED
                         && b.settlements[call.id].maker != call.checkerId;
            && (s.fault.None? <==> ready)
            && (!ready ==> s.book == b)
            && (ready ==>
                  s.book == b.(settlements := b.settlements[call.id := b.settlements[call.id].(
                    status := APPROVED, approvedBy := Some(call.checkerId))]))
  {
  }

  /** A confirmation succeeds exactly on an approved settlement of a positive amount, and pays the debt in cash. */
  lemma ConfirmSettlementOutcome(b: Book, call: Command)
    requires call.ConfirmSettlement?
    ensures var s := Step(b, call);
            var ready := call.id < |b.settlements| && b.settlements[call.id].status in {APPROVED, SUBMITTED}
                         && b.settlements[call.id].amount > 0;
            && (s.fault.None? <==> ready)
            && (!ready ==> s.book == b)
            && (ready ==>
                  var x := b.settlements[call.id];
                  && s.book == b.(journal := s.book.journal,
                                  settlements := b.settlements[call.id := x.(status := SETTLED)])
                  && Shifts(b.journal, s.book.journal, x.tenantId, x.currency,
                            MerchantPayable, -x.amount, TrusteeBankCash, -x.amount))
  {
    hide Transfer, Balance, Shifts, DebitNormal, TypeOf;
    Sides();
    if call.id < |b.settlements| {
      var x, s := b.settlements[call.id], Step(b, call);
      var money := Money(x.amount, x.currency);
      var refs := References(Source(PaykhSettlement, call.id), x.tenantId, call.actor);
      TransferAccepts(MerchantPayable, TrusteeBankCash, money, refs);
      if s.fault.None? { TransferShifts(b.journal, s.book.journal, MerchantPayable, TrusteeBankCash, money, refs); }
    }
  }

  lemma CancelSettlementOutcome(b: Book, call: Command)
    requires call.CancelSettlement?
    ensures var s := Step(b, call);
            var open := call.id < |b.settlements| && b.settlements[call.id].status != SETTLED;
            && (s.fault.None? <==> open)
            && (!open ==> s.book == b)
            && (open ==>
                  s.book == b.(settlements := b.settlements[call.id := b.settlements[call.id].(
                    status := SETTLEMENT_CANCELLED)]))
  {
  }

  // ----- Who posts

  /** Whose name an entry posted by the call carries. */
  function Hand(call: Command): string {
    match call
    case CheckPayment(_, _, _, _, _, _, _, _, actor) => actor
    case Refund(_, actor) => actor
    case FundProgram(_, _, actor) => actor
    case IssueLoyalty(_, _, _, _, _, actor) => actor
    case RedeemLoyalty(_, _, _, _, _, _, actor) => actor
    case ConfirmSettlement(_, actor) => actor
    case _ => ""
  }

  /** What a call adds to the journal is at most one entry, which carries the name of the caller. */
  lemma EntryNamesCaller(b: Book, call: Command)
    ensures var log := Step(b, call).book.journal;
            log == b.journal
            || (log == b.journal + [log[|log| - 1]] && log[|log| - 1].references.actor == Hand(call))
  {
    hide Balance, FirstFault, Debits, Credits, TypeOf;
  }

  // ----- What the faults mean

  /** The call names something that is not there, and nothing looked at before stands against it. */
  predicate Missing(b: Book, call: Command) {
    match call
    case CreateOrder(_, profile, _, _, _, _, _) => profile == None
    case CheckPayment(id, _, _, _, _, _, _, _, _) => id >= |b.orders|
    case Refund(id, _) => id >= |b.orders|
    case CancelOrder(id) => id >= |b.orders|
    case CreateFund(_, _, _, _) => false
    case FundProgram(id, _, _) => id >= |b.funds|
    case ReserveFund(id, _) => id >= |b.funds|
    case ReleaseFund(id, _) => id >= |b.funds|
    case Bind(fundId, _, _, _, _) => fundId >= |b.funds|
    case IssueLoyalty(id, enabled, _, _, _, _) => enabled && id >= |b.liabilities|
    case RedeemLoyalty(id, enabled, merchantActive, _, _, _, _) =>
      enabled && (merchantActive == None || (merchantActive == Some(true) && id >= |b.liabilities|))
    case Reconcile(id, _) => id >= |b.liabilities|
    case CreateSettlement(_, merchantActive, _, _, _) => merchantActive == None
    case ApproveSettlement(id, _) => id >= |b.settlements|
    case ConfirmSettlement(id, _) => id >= |b.settlements|
    case CancelSettlement(id) => id >= |b.settlements|
  }

  /** The key is taken, or the bank transaction belongs elsewhere. */
  predicate Taken(b: Book, call: Command) {
    match call
    case CreateOrder(_, profile, _, currency, reference, _, _) =>
      profile.Some? && profile.value.active && profile.value.currency == currency
      && exists i :: 0 <= i < |b.orders| && b.orders[i].paymentReference == reference
    case CheckPayment(id, txn, _, _, _, _, _, nowMs, _) =>
      && id < |b.orders|
      && ((b.orders[id].status == CONFIRMED && b.orders[id].matchedTxn != Some(txn))
          || (Open(b, id) && nowMs <= b.orders[id].expiresAt
              && exists i :: 0 <= i < |b.orders| && i != id && b.orders[i].matchedTxn == Some(txn)))
    case CreateFund(tenantId, programRef, _, _) =>
      exists i :: 0 <= i < |b.funds| && b.funds[i].tenantId == tenantId && b.funds[i].programRef == programRef
    case Bind(fundId, _, _, _, _) =>
      && fundId < |b.funds| && FiatBacked(b.funds[fundId].classification)
      && exists i :: 0 <= i < |b.liabilities| && b.liabilities[i].fundId == fundId
    case _ => false
  }

  /** The checker would approve a settlement of their own. */
  predicate OwnWork(b: Book, call: Command) {
    && call.ApproveSettlement? && call.id < |b.settlements|
    && b.settlements[call.id].status == REQUESTED && b.settlements[call.id].maker == call.checkerId
  }

  /** Which fault a call ends with tells what was wrong with it. */
  ghost predicate FaultTells(b: Book, call: Command) {
    var fault := Step(b, call).fault;
    && (fault == Some(NotFound) <==> Missing(b, call))
    && (fault == Some(Conflict) <==> Taken(b, call))
    && (fault == Some(Forbidden) <==> OwnWork(b, call))
  }

  lemma FaultsMean(b: Book, call: Command)
    requires CountersLive(b)
    ensures FaultTells(b, call)
  {
    hide *;
    if call.CreateOrder? || call.CheckPayment? || call.Refund? || call.CancelOrder? { OrderFaults(b, call); }
    if call.CreateFund? || call.FundProgram? || call.ReserveFund? || call.ReleaseFund? { FundFaults(b, call); }
    if call.Bind? || call.Reconcile? { LiabilityFaults(b, call); }
    if call.IssueLoyalty? || call.RedeemLoyalty? { LoyaltyFaults(b, call); }
    if call.CreateSettlement? || call.ApproveSettlement? || call.ConfirmSettlement? || call.CancelSettlement? {
      SettlementFaults(b, call);
    }
  }

  lemma OrderFaults(b: Book, call: Command)
    requires call.CreateOrder? || call.CheckPayment? || call.Refund? || call.CancelOrder?
    ensures FaultTells(b, call)
  {
    EngineFaults();
    hide Build;
  }

  lemma FundFaults(b: Book, call: Command)
    requires call.CreateFund? || call.FundProgram? || call.ReserveFund? || call.ReleaseFund?
    ensures FaultTells(b, call)
  {
    EngineFaults();
    hide Build;
  }

  lemma LiabilityFaults(b: Book, call: Command)
    requires call.Bind? || call.Reconcile?
    ensures FaultTells(b, call)
  {
    hide Balance;
  }

  lemma LoyaltyFaults(b: Book, call: Command)
    requires CountersLive(b) && (call.IssueLoyalty? || call.RedeemLoyalty?)
    ensures FaultTells(b, call)
  {
    if call.id < |b.liabilities| {
      var l := b.liabilities[call.id];
      assert LiabilityLife(l, b.funds);
      var amount := ResolveAmount(l, call.minor, call.units);
      assert amount.Err? ==> amount.fault in {InvalidArgument, BadRequest};
      if amount.Ok? { ResolvedFaults(b, call.id, amount.value, call.issuerAnswers, call.actor); }
    }
    hide ResolveAmount, IssueResolved, RedeemResolved, CountersLive;
  }

  lemma ResolvedFaults(b: Book, id: nat, amount: Money, issuerAnswers: bool, actor: string)
    requires id < |b.liabilities| && b.liabilities[id].fundId < |b.funds|
    ensures IssueResolved(b, id, amount, issuerAnswers, actor).fault
            !in {Some(NotFound), Some(Conflict), Some(Forbidden)}
    ensures RedeemResolved(b, id, amount, issuerAnswers, actor).fault
            !in {Some(NotFound), Some(Conflict), Some(Forbidden)}
  {
    EngineFaults();
    hide Build;
  }

  lemma SettlementFaults(b: Book, call: Command)
    requires call.CreateSettlement? || call.ApproveSettlement? || call.ConfirmSettlement? || call.CancelSettlement?
    ensures FaultTells(b, call)
  {
    EngineFaults();
    hide Build;
  }
}
