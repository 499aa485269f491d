/** The PayKH services over their tables: each call does to the store what its specification says. */
module PaykhServices {
  import opened Results
  import opened Moneys
  import opened Journal
  import opened Entries
  import opened Ledger
  import opened PaykhBook
  import opened PaykhInvariants

  /** The PayKH tables and the ledger they share. */
  class TenantStore {
    var journal: JournalLog
    var orders: seq<Order>
    var funds: seq<Fund>
    var liabilities: seq<Liability>
    var settlements: seq<Settlement>

    constructor ()
      ensures Model() == EMPTY
    {
      journal, orders, funds, liabilities, settlements := [], [], [], [], [];
    }

    function Model(): Book
      reads this
    {
      Book(journal, orders, funds, liabilities, settlements)
    }

    /** Persist an entry: earlier entries stay as they are. */
    method Post(entry: Entry)
      modifies this
      ensures Model() == old(Model()).(journal := old(journal) + [entry])
    {
      journal := journal + [entry];
    }
  }

  class PaymentOrdersService {
    const store: TenantStore

    constructor (store: TenantStore)
      ensures this.store == store
    {
      this.store := store;
    }

    method Create(tenantId: string, profile: Option<Profile>, amount: int, currency: Currency, reference: string,
                  ttlSeconds: Option<int>, nowMs: int)
      returns (fault: Option<Fault>)
      modifies store
      ensures Stepped(store.Model(), fault)
           == CreateOrderSpec(old(store.Model()),
                              CreateOrder(tenantId, profile, amount, currency, reference, ttlSeconds, nowMs))
      ensures Inv(old(store.Model())) ==> Inv(store.Model())
    {
      hide Inv;
      StepKeepsInv(store.Model(), CreateOrder(tenantId, profile, amount, currency, reference, ttlSeconds, nowMs));
      if profile.None? { return Some(NotFound); }
      if !profile.value.active { return Some(BadRequest); }
      if profile.value.currency != currency { return Some(BadRequest); }
      if exists o :: o in store.orders && o.paymentReference == reference { return Some(Conflict); }
      var expiresAt := nowMs + ttlSeconds.GetOr(900) * 1000;
      store.orders := store.orders + [Order(tenantId, amount, currency, reference, AWAITING_PAYMENT, None, expiresAt)];
      fault := None;
    }

    /** The order on which a bank transaction is recorded, other than `id`. */
    method PriorUse(id: nat, txn: string) returns (used: bool)
      ensures used == UsedByAnother(store.orders, id, txn)
    {
      used := false;
      for j := 0 to |store.orders|
        invariant used <==> exists k | 0 <= k < j :: k != id && store.orders[k].matchedTxn == Some(txn)
      {
        if j != id && store.orders[j].matchedTxn == Some(txn) { used := true; }
      }
    }

    /** What of a payment does not match the order, in the order the checks are made. */
    method Mismatches(o: Order, amount: int, currency: Currency, reference: string, recipient: string,
                      profile: Option<Profile>)
      returns (found: seq<string>)
      ensures "amount" in found <==> amount != o.amount
      ensures "currency" in found <==> currency != o.currency
      ensures "reference" in found <==> reference != o.paymentReference
      ensures "recipient" in found <==> profile.Some? && recipient != profile.value.recipient
      ensures found == [] <==>
              && amount == o.amount && currency == o.currency && reference == o.paymentReference
              && (profile.Some? ==> recipient == profile.value.recipient)
    {
      DistinctNames();
      found := [];
      if amount != o.amount { found := found + ["amount"]; }
      if currency != o.currency { found := found + ["currency"]; }
      if reference != o.paymentReference { found := found + ["reference"]; }
      if profile.Some? && recipient != profile.value.recipient { found := found + ["recipient"]; }
    }

    lemma DistinctNames()
      ensures "amount" != "currency" && "amount" != "reference" && "amount" != "recipient"
      ensures "currency" != "reference" && "currency" != "recipient" && "reference" != "recipient"
    {
      assert "amount"[0] == 'a' && "currency"[0] == 'c' && "reference"[0] == "recipient"[0] == 'r';
      assert "reference"[2] == 'f' && "recipient"[2] == 'c';
    }

    method CheckPayment(id: nat, bankTransactionId: string, amount: int, currency: Currency, reference: string,
                        recipient: string, profile: Option<Profile>, nowMs: int, actor: string)
      returns (fault: Option<Fault>)
      modifies store
      ensures Stepped(store.Model(), fault)
           == CheckPaymentSpec(old(store.Model()),
                               Command.CheckPayment(id, bankTransactionId, amount, currency, reference, recipient,
                                                    profile, nowMs, actor))
      ensures Inv(old(store.Model())) ==> Inv(store.Model())
    {
      hide Inv;
      StepKeepsInv(store.Model(), Command.CheckPayment(id, bankTransactionId, amount, currency, reference,
                                    recipient, profile, nowMs, actor));
      if id >= |store.orders| { return Some(NotFound); }
      var o := store.orders[id];
      if o.status == CONFIRMED {
        return if o.matchedTxn == Some(bankTransactionId) then None else Some(Conflict);
      }
      if o.status != AWAITING_PAYMENT && o.status != PAYMENT_DETECTED { return Some(BadRequest); }
      if o.expiresAt < nowMs {
        store.orders := store.orders[id := o.(status := EXPIRED)];
        return Some(BadRequest);
      }
      var used := PriorUse(id, bankTransactionId);
      if used { return Some(Conflict); }
      var mismatches := Mismatches(o, amount, currency, reference, recipient, profile);
      if |mismatches| > 0 { return Some(BadRequest); }
      var entry := Collection(o, id, actor);
      if entry.Err? { return Some(entry.fault); }
      store.Post(entry.value);
      store.orders := store.orders[id := o.(status := CONFIRMED, matchedTxn := Some(bankTransactionId))];
      fault := None;
    }

    method Refund(id: nat, actor: string) returns (fault: Option<Fault>)
      modifies store
      ensures Stepped(store.Model(), fault) == RefundSpec(old(store.Model()), Command.Refund(id, actor))
      ensures Inv(old(store.Model())) ==> Inv(store.Model())
    {
      hide Inv;
      StepKeepsInv(store.Model(), Command.Refund(id, actor));
      if id >= |store.orders| { return Some(NotFound); }
      var o := store.orders[id];
      if o.status != CONFIRMED { return Some(BadRequest); }
      var collection := Collection(o, id, actor);
      if collection.Err? { return Some(collection.fault); }
      var reversal := Reverse(collection.value, Source(PaykhRefund, id), actor);
      if reversal.Err? { return Some(reversal.fault); }
      store.Post(reversal.value);
      store.orders := store.orders[id := o.(status := REFUNDED)];
      fault := None;
    }

    method Cancel(id: nat) returns (fault: Option<Fault>)
      modifies store
      ensures Stepped(store.Model(), fault) == CancelOrderSpec(old(store.Model()), CancelOrder(id))
      ensures Inv(old(store.Model())) ==> Inv(store.Model())
    {
      hide Inv;
      StepKeepsInv(store.Model(), CancelOrder(id));
      if id >= |store.orders| { return Some(NotFound); }
      var o := store.orders[id];
      if o.status == CONFIRMED { return Some(BadRequest); }
      store.orders := store.orders[id := o.(status := CANCELLED)];
      fault := None;
    }
  }

  class ProgramFundsService {
    const store: TenantStore

    constructor (store: TenantStore)
      ensures this.store == store
    {
      this.store := store;
    }

    method Create(tenantId: string, programRef: string, classification: Classification, currency: Currency)
      returns (fault: Option<Fault>)
      modifies store
      ensures Stepped(store.Model(), fault)
           == CreateFundSpec(old(store.Model()), CreateFund(tenantId, programRef, classification, currency))
      ensures Inv(old(store.Model())) ==> Inv(store.Model())
    {
      hide Inv;
      StepKeepsInv(store.Model(), CreateFund(tenantId, programRef, classification, currency));
      if exists f :: f in store.funds && f.tenantId == tenantId && f.programRef == programRef { return Some(Conflict); }
      store.funds := store.funds + [PaykhBook.Fund(tenantId, programRef, classification, currency, 0, 0)];
      fault := None;
    }

    method Fund(id: nat, amount: int, actor: string) returns (fault: Option<Fault>)
      modifies store
      ensures Stepped(store.Model(), fault) == FundProgramSpec(old(store.Model()), FundProgram(id, amount, actor))
      ensures Inv(old(store.Model())) ==> Inv(store.Model())
    {
      hide Inv;
      StepKeepsInv(store.Model(), FundProgram(id, amount, actor));
      if id >= |store.funds| { return Some(NotFound); }
      var f := store.funds[id];
      if amount <= 0 { return Some(BadRequest); }
      if f.classification.Unclassified? { return Some(InvalidArgument); }
      if FiatBacked(f.classification) {
        var entry := ProgramFundingEntry(Money(amount, f.currency),
                                         References(Source(PaykhFund, id), f.tenantId, actor));
        if entry.Err? { return Some(entry.fault); }
        store.Post(entry.value);
      }
      store.funds := store.funds[id := f.(funded := f.funded + amount)];
      fault := None;
    }

    method Reserve(id: nat, amount: int) returns (fault: Option<Fault>)
      modifies store
      ensures Stepped(store.Model(), fault) == ReserveFundSpec(old(store.Model()), ReserveFund(id, amount))
      ensures Inv(old(store.Model())) ==> Inv(store.Model())
    {
      hide Inv;
      StepKeepsInv(store.Model(), ReserveFund(id, amount));
      if id >= |store.funds| { return Some(NotFound); }
      var f := store.funds[id];
      if amount > f.funded - f.reserved { return Some(BadRequest); }
      store.funds := store.funds[id := f.(reserved := f.reserved + amount)];
      fault := None;
    }

    method Release(id: nat, amount: int) returns (fault: Option<Fault>)
      modifies store
      ensures Stepped(store.Model(), fault) == ReleaseFundSpec(old(store.Model()), ReleaseFund(id, amount))
      ensures Inv(old(store.Model())) ==> Inv(store.Model())
    {
      hide Inv;
      StepKeepsInv(store.Model(), ReleaseFund(id, amount));
      if id >= |store.funds| { return Some(NotFound); }
      var f := store.funds[id];
      if amount > f.reserved { return Some(BadRequest); }
      store.funds := store.funds[id := f.(reserved := f.reserved - amount)];
      fault := None;
    }
  }

  /** What reconcile answers. */
  datatype LoyaltyReport = LoyaltyReport(
    ledgerOutstanding: int,
    counterOutstanding: int,
    onChainSupply: Option<int>,
    fullyBacked: Option<bool>,
    status: ReconciliationStatus)

  class LoyaltyService {
    const store: TenantStore

    constructor (store: TenantStore)
      ensures this.store == store
    {
      this.store := store;
    }

    method Bind(fundId: nat, denomination: Option<int>, assetCode: Option<string>, issuer: Option<string>,
                distributor: Option<string>)
      returns (fault: Option<Fault>)
      modifies store
      ensures Stepped(store.Model(), fault)
           == BindSpec(old(store.Model()), Command.Bind(fundId, denomination, assetCode, issuer, distributor))
      ensures Inv(old(store.Model())) ==> Inv(store.Model())
    {
      hide Inv;
      StepKeepsInv(store.Model(), Command.Bind(fundId, denomination, assetCode, issuer, distributor));
      if fundId >= |store.funds| { return Some(NotFound); }
      var f := store.funds[fundId];
      if f.classification.Unclassified? { return Some(InvalidArgument); }
      if !FiatBacked(f.classification) { return Some(BadRequest); }
      if exists l :: l in store.liabilities && l.fundId == fundId { return Some(Conflict); }
      var face := denomination.GetOr(1);
      if face <= 0 { return Some(BadRequest); }
      store.liabilities := store.liabilities
        + [Liability.Liability(fundId, f.tenantId, f.currency, face, assetCode, issuer, distributor,
                               0, 0, 0, 0, PENDING, 0, 0)];
      fault := None;
    }

    method Issue(id: nat, enabled: bool, minor: Option<int>, units: Option<int>, issuerAnswers: bool, actor: string)
      returns (fault: Option<Fault>)
      modifies store
      ensures Stepped(store.Model(), fault)
           == IssueLoyaltySpec(old(store.Model()), IssueLoyalty(id, enabled, minor, units, issuerAnswers, actor))
      ensures Inv(old(store.Model())) ==> Inv(store.Model())
    {
      hide Inv;
      StepKeepsInv(store.Model(), IssueLoyalty(id, enabled, minor, units, issuerAnswers, actor));
      if !enabled { return Some(InvalidArgument); }
      if id >= |store.liabilities| { return Some(NotFound); }
      var l := store.liabilities[id];
      if l.fundId >= |store.funds| { return Some(NotFound); }
      var f := store.funds[l.fundId];
      var resolved := ResolveAmount(l, minor, units);
      if resolved.Err? { return Some(resolved.fault); }
      var amount := resolved.value;
      if amount.minor <= 0 { return Some(BadRequest); }
      var available := f.funded - f.reserved;
      if amount.minor > available { return Some(BadRequest); }
      var entry := LoyaltyIssuanceEntry(amount, References(Source(LoyaltyIssue, id), l.tenantId, actor));
      if entry.Err? { return Some(entry.fault); }
      store.Post(entry.value);
      if OnChain(l) && !issuerAnswers {
        store.liabilities := store.liabilities[id := l.(lostIssued := l.lostIssued + amount.minor)];
        return Some(IssuerUnreachable);
      }
      store.funds := store.funds[l.fundId := f.(reserved := f.reserved + amount.minor)];
      store.liabilities := store.liabilities[id := l.(outstanding := l.outstanding + amount.minor,
                                                      issuedTotal := l.issuedTotal + amount.minor)];
      fault := None;
    }

    method Redeem(id: nat, enabled: bool, merchantActive: Option<bool>, minor: Option<int>, units: Option<int>,
                  issuerAnswers: bool, actor: string)
      returns (fault: Option<Fault>)
      modifies store
      ensures Stepped(store.Model(), fault)
           == RedeemLoyaltySpec(old(store.Model()),
                                RedeemLoyalty(id, enabled, merchantActive, minor, units, issuerAnswers, actor))
      ensures Inv(old(store.Model())) ==> Inv(store.Model())
    {
      hide Inv;
      StepKeepsInv(store.Model(), RedeemLoyalty(id, enabled, merchantActive, minor, units, issuerAnswers, actor));
      if !enabled { return Some(InvalidArgument); }
      if merchantActive.None? { return Some(NotFound); }
      if !merchantActive.value { return Some(BadRequest); }
      if id >= |store.liabilities| { return Some(NotFound); }
      var l := store.liabilities[id];
      var resolved := ResolveAmount(l, minor, units);
      if resolved.Err? { return Some(resolved.fault); }
      var amount := resolved.value;
      if amount.minor <= 0 { return Some(BadRequest); }
      if amount.minor > l.outstanding { return Some(BadRequest); }
      var entry := LoyaltyRedemptionEntry(amount, References(Source(LoyaltyRedeem, id), l.tenantId, actor));
      if entry.Err? { return Some(entry.fault); }
      store.Post(entry.value);
      if OnChain(l) && !issuerAnswers {
        store.liabilities := store.liabilities[id := l.(lostRedeemed := l.lostRedeemed + amount.minor)];
        return Some(IssuerUnreachable);
      }
      store.liabilities := store.liabilities[id := l.(outstanding := l.outstanding - amount.minor,
                                                      redeemedTotal := l.redeemedTotal + amount.minor)];
      fault := None;
    }

    /** The chain is only compared with the ledger; the counter is reported beside it. */
    method Reconcile(id: nat, supply: Option<int>) returns (r: Result<LoyaltyReport>)
      modifies store
      ensures Stepped(store.Model(), if r.Ok? then None else Some(r.fault))
           == ReconcileSpec(old(store.Model()), Command.Reconcile(id, supply))
      ensures Inv(old(store.Model())) ==> Inv(store.Model())
      ensures r.Ok? ==>
                var l := old(store.liabilities)[id];
                && r.value.ledgerOutstanding == LedgerOutstanding(old(store.Model()), l)
                && r.value.counterOutstanding == l.outstanding
                && (r.value.status == DRIFT <==>
                      r.value.onChainSupply.Some? && r.value.onChainSupply.value != r.value.ledgerOutstanding)
                && (r.value.fullyBacked == Some(true) <==>
                      l.fundId < |store.funds| && store.funds[l.fundId].funded >= l.outstanding)
    {
      hide Inv;
      StepKeepsInv(store.Model(), Command.Reconcile(id, supply));
      if id >= |store.liabilities| { return Err(NotFound); }
      var l := store.liabilities[id];
      var balance := AccountBalance(store.journal, l.tenantId, LoyaltyStablecoin, l.currency);
      var figure := balance.value.minor;
      var onChain: Option<int> := None;
      if Given(l.assetCode) && Given(l.issuer) {
        onChain := supply;
      }
      var status := if onChain.Some? && onChain.value != figure then DRIFT else ReconciliationStatus.OK;
      var updated := l.(onChainSupply := onChain.GetOr(figure), reconciliation := status);
      store.liabilities := store.liabilities[id := updated];
      var backed :=
        if l.fundId < |store.funds| then Some(store.funds[l.fundId].funded >= updated.outstanding) else None;
      r := Result.Ok(LoyaltyReport(figure, updated.outstanding, onChain, backed, status));
    }
  }

  class SettlementsService {
    const store: TenantStore

    constructor (store: TenantStore)
      ensures this.store == store
    {
      this.store := store;
    }

    method Create(tenantId: string, merchantActive: Option<bool>, amount: int, currency: Currency, actor: string)
      returns (fault: Option<Fault>)
      modifies store
      ensures Stepped(store.Model(), fault)
           == CreateSettlementSpec(old(store.Model()),
                                   CreateSettlement(tenantId, merchantActive, amount, currency, actor))
      ensures Inv(old(store.Model())) ==> Inv(store.Model())
    {
      hide Inv;
      StepKeepsInv(store.Model(), CreateSettlement(tenantId, merchantActive, amount, currency, actor));
      if merchantActive.None? { return Some(NotFound); }
      if !merchantActive.value { return Some(BadRequest); }
      store.settlements := store.settlements + [Settlement(tenantId, amount, currency, REQUESTED, actor, None)];
      fault := None;
    }

    method Approve(id: nat, checkerId: string) returns (fault: Option<Fault>)
      modifies store
      ensures Stepped(store.Model(), fault)
           == ApproveSettlementSpec(old(store.Model()), ApproveSettlement(id, checkerId))
      ensures Inv(old(store.Model())) ==> Inv(store.Model())
    {
      hide Inv;
      StepKeepsInv(store.Model(), ApproveSettlement(id, checkerId));
      if id >= |store.settlements| { return Some(NotFound); }
      var s := store.settlements[id];
      if s.status != REQUESTED { return Some(BadRequest); }
      if s.maker == checkerId { return Some(Forbidden); }
      store.settlements := store.settlements[id := s.(status := APPROVED, approvedBy := Some(checkerId))];
      fault := None;
    }

    method Confirm(id: nat, actor: string) returns (fault: Option<Fault>)
      modifies store
      ensures Stepped(store.Model(), fault) == ConfirmSettlementSpec(old(store.Model()), ConfirmSettlement(id, actor))
      ensures Inv(old(store.Model())) ==> Inv(store.Model())
    {
      hide Inv;
      StepKeepsInv(store.Model(), ConfirmSettlement(id, actor));
      if id >= |store.settlements| { return Some(NotFound); }
      var s := store.settlements[id];
      if s.status != APPROVED && s.status != SUBMITTED { return Some(BadRequest); }
      var entry := MerchantSettlementEntry(Money(s.amount, s.currency),
                                           References(Source(PaykhSettlement, id), s.tenantId, actor));
      if entry.Err? { return Some(entry.fault); }
      store.Post(entry.value);
      store.settlements := store.settlements[id := s.(status := SETTLED)];
      fault := None;
    }

    method Cancel(id: nat) returns (fault: Option<Fault>)
      modifies store
      ensures Stepped(store.Model(), fault) == CancelSettlementSpec(old(store.Model()), CancelSettlement(id))
      ensures Inv(old(store.Model())) ==> Inv(store.Model())
    {
      hide Inv;
      StepKeepsInv(store.Model(), CancelSettlement(id));
      if id >= |store.settlements| { return Some(NotFound); }
      var s := store.settlements[id];
      if s.status == SETTLED { return Some(BadRequest); }
      store.settlements := store.settlements[id := s.(status := SETTLEMENT_CANCELLED)];
      fault := None;
    }
  }
}
