/**
 * The PayKH tenant system: payment orders, program funds, loyalty liabilities and settlements over one ledger,
 * where a tenant stands in the place of a program.
 */
module PaykhBook {
  import opened Results
  import opened Moneys
  import opened Journal
  import opened Entries
  import opened Ledger

  // ----- Rows

  datatype OrderStatus =
    | CREATED | AWAITING_PAYMENT | PAYMENT_DETECTED | CONFIRMED | DUPLICATE | ORDER_REJECTED | REFUNDED | EXPIRED
    | CANCELLED

  datatype Order = Order(
    tenantId: string,
    amount: int,
    currency: Currency,
    paymentReference: string,
    status: OrderStatus,
    matchedTxn: Option<string>,
    expiresAt: int)

  datatype Profile = Profile(active: bool, currency: Currency, recipient: string)

  datatype Classification =
    | NON_MONETARY_PROMOTIONAL_POINT | CLOSED_LOOP_LOYALTY_VALUE | BACKED_LOYALTY_STABLECOIN
    | MERCHANT_FUNDED_REWARD | PLATFORM_FUNDED_REWARD | CASHBACK_LIABILITY | GIFT_CARD_LIABILITY
    | CUSTOMER_SAFEGUARDED_FUNDS | MERCHANT_SETTLEMENT_PAYABLE | STABLE_VALUE_LIABILITY
    | FIAT_BACKED_STABLECOIN_LIABILITY | TOKENIZED_DEPOSIT_LIABILITY | Unclassified(name: string)

  /** Only the two kinds of points need no cash behind them. */
  predicate FiatBacked(c: Classification) {
    !c.NON_MONETARY_PROMOTIONAL_POINT? && !c.CLOSED_LOOP_LOYALTY_VALUE? && !c.Unclassified?
  }

  datatype Fund = Fund(
    tenantId: string,
    programRef: string,
    classification: Classification,
    currency: Currency,
    funded: int,
    reserved: int)

  datatype ReconciliationStatus = PENDING | OK | DRIFT

  /**
   * `lostIssued` and `lostRedeemed` are history, not columns: the amounts whose ledger entry was posted by a call
   * that then lost the answer of the issuer and never reached the counters.
   */
  datatype Liability = Liability(
    fundId: nat,
    tenantId: string,
    currency: Currency,
    denomination: int,
    assetCode: Option<string>,
    issuer: Option<string>,
    distributor: Option<string>,
    outstanding: int,
    issuedTotal: int,
    redeemedTotal: int,
    onChainSupply: int,
    reconciliation: ReconciliationStatus,
    lostIssued: int,
    lostRedeemed: int)

  datatype SettlementStatus = REQUESTED | APPROVED | SUBMITTED | SETTLED | SETTLEMENT_CANCELLED | FAILED

  datatype Settlement = Settlement(
    tenantId: string,
    amount: int,
    currency: Currency,
    status: SettlementStatus,
    maker: string,
    approvedBy: Option<string>)

  datatype Book = Book(
    journal: JournalLog,
    orders: seq<Order>,
    funds: seq<Fund>,
    liabilities: seq<Liability>,
    settlements: seq<Settlement>)

  // ----- Service calls

  datatype Command =
    | CreateOrder(tenantId: string, profile: Option<Profile>, amount: int, currency: Currency, reference: string,
                  ttlSeconds: Option<int>, nowMs: int)
    | CheckPayment(id: nat, bankTransactionId: string, amount: int, currency: Currency, reference: string,
                   recipient: string, profile: Option<Profile>, nowMs: int, actor: string)
    | Refund(id: nat, actor: string)
    | CancelOrder(id: nat)
    | CreateFund(tenantId: string, programRef: string, classification: Classification, currency: Currency)
    | FundProgram(id: nat, amount: int, actor: string)
    | ReserveFund(id: nat, amount: int)
    | ReleaseFund(id: nat, amount: int)
    | Bind(fundId: nat, denomination: Option<int>, assetCode: Option<string>, issuer: Option<string>,
           distributor: Option<string>)
    | IssueLoyalty(id: nat, enabled: bool, minor: Option<int>, units: Option<int>, issuerAnswers: bool,
                   actor: string)
    | RedeemLoyalty(id: nat, enabled: bool, merchantActive: Option<bool>, minor: Option<int>, units: Option<int>,
                    issuerAnswers: bool, actor: string)
    | Reconcile(id: nat, supply: Option<int>)
    | CreateSettlement(tenantId: string, merchantActive: Option<bool>, amount: int, currency: Currency, actor: string)
    | ApproveSettlement(id: nat, checkerId: string)
    | ConfirmSettlement(id: nat, actor: string)
    | CancelSettlement(id: nat)

  /** The book after a call, and the exception it ended with, if any. */
  datatype Stepped = Stepped(book: Book, fault: Option<Fault>)

  function Unchanged(b: Book, fault: Fault): Stepped {
    Stepped(b, Some(fault))
  }

  // ----- Payment orders

  function CreateOrderSpec(b: Book, c: Command): Stepped
    requires c.CreateOrder?
  {
    if c.profile.None? then Unchanged(b, NotFound)
    else if !c.profile.value.active then Unchanged(b, BadRequest)
    else if c.profile.value.currency != c.currency then Unchanged(b, BadRequest)
    else if exists o :: o in b.orders && o.paymentReference == c.reference then Unchanged(b, Conflict)
    else
      var row := Order(c.tenantId, c.amount, c.currency, c.reference, AWAITING_PAYMENT, None,
                       c.nowMs + c.ttlSeconds.GetOr(900) * 1000);
      Stepped(b.(orders := b.orders + [row]), None)
  }

  /** The bank transaction is recorded on an order other than `id`. */
  predicate UsedByAnother(orders: seq<Order>, id: nat, txn: string) {
    exists j | 0 <= j < |orders| :: j != id && orders[j].matchedTxn == Some(txn)
  }

  predicate PaymentMatches(o: Order, c: Command)
    requires c.CheckPayment?
  {
    && c.amount == o.amount
    && c.currency == o.currency
    && c.reference == o.paymentReference
    && (c.profile.Some? ==> c.recipient == c.profile.value.recipient)
  }

  function Collection(o: Order, id: nat, actor: string): Result<Entry> {
    PaymentCollectionEntry(Money(o.amount, o.currency), References(Source(PaykhOrder, id), o.tenantId, actor))
  }

  function CheckPaymentSpec(b: Book, c: Command): Stepped
    requires c.CheckPayment?
  {
    if c.id >= |b.orders| then Unchanged(b, NotFound)
    else
      var o := b.orders[c.id];
      if o.status == CONFIRMED then
        Stepped(b, if o.matchedTxn == Some(c.bankTransactionId) then None else Some(Conflict))
      else if o.status != AWAITING_PAYMENT && o.status != PAYMENT_DETECTED then Unchanged(b, BadRequest)
      else if o.expiresAt < c.nowMs then
        Stepped(b.(orders := b.orders[c.id := o.(status := EXPIRED)]), Some(BadRequest))
      else if UsedByAnother(b.orders, c.id, c.bankTransactionId) then Unchanged(b, Conflict)
      else if !PaymentMatches(o, c) then Unchanged(b, BadRequest)
      else
        match Collection(o, c.id, c.actor)
        case Err(fault) => Unchanged(b, fault)
        case Ok(entry) =>
          var row := o.(status := CONFIRMED, matchedTxn := Some(c.bankTransactionId));
          Stepped(b.(journal := b.journal + [entry], orders := b.orders[c.id := row]), None)
  }

  /** The collection is built anew and posted with its sides swapped. */
  function RefundEntry(o: Order, id: nat, actor: string): Result<Entry> {
    var collection :- Collection(o, id, actor);
    Reverse(collection, Source(PaykhRefund, id), actor)
  }

  function RefundSpec(b: Book, c: Command): Stepped
    requires c.Refund?
  {
    if c.id >= |b.orders| then Unchanged(b, NotFound)
    else
      var o := b.orders[c.id];
      if o.status != CONFIRMED then Unchanged(b, BadRequest)
      else
        match RefundEntry(o, c.id, c.actor)
        case Err(fault) => Unchanged(b, fault)
        case Ok(entry) =>
          Stepped(b.(journal := b.journal + [entry], orders := b.orders[c.id := o.(status := REFUNDED)]), None)
  }

  /** Any order but a confirmed one can be cancelled, a refunded one too. */
  function CancelOrderSpec(b: Book, c: Command): Stepped
    requires c.CancelOrder?
  {
    if c.id >= |b.orders| then Unchanged(b, NotFound)
    else
      var o := b.orders[c.id];
      if o.status == CONFIRMED then Unchanged(b, BadRequest)
      else Stepped(b.(orders := b.orders[c.id := o.(status := CANCELLED)]), None)
  }

  // ----- Program funds

  function CreateFundSpec(b: Book, c: Command): Stepped
    requires c.CreateFund?
  {
    if exists f :: f in b.funds && f.tenantId == c.tenantId && f.programRef == c.programRef then Unchanged(b, Conflict)
    else Stepped(b.(funds := b.funds + [Fund(c.tenantId, c.programRef, c.classification, c.currency, 0, 0)]), None)
  }

  function FundProgramSpec(b: Book, c: Command): Stepped
    requires c.FundProgram?
  {
    if c.id >= |b.funds| then Unchanged(b, NotFound)
    else
      var f := b.funds[c.id];
      var row := f.(funded := f.funded + c.amount);
      if c.amount <= 0 then Unchanged(b, BadRequest)
      else if f.classification.Unclassified? then Unchanged(b, InvalidArgument)
      else if !FiatBacked(f.classification) then Stepped(b.(funds := b.funds[c.id := row]), None)
      else
        match ProgramFundingEntry(Money(c.amount, f.currency),
                                  References(Source(PaykhFund, c.id), f.tenantId, c.actor))
        case Err(fault) => Unchanged(b, fault)
        case Ok(entry) => Stepped(b.(journal := b.journal + [entry], funds := b.funds[c.id := row]), None)
  }

  /** No sign is asked for. */
  function ReserveFundSpec(b: Book, c: Command): Stepped
    requires c.ReserveFund?
  {
    if c.id >= |b.funds| then Unchanged(b, NotFound)
    else
      var f := b.funds[c.id];
      if c.amount > f.funded - f.reserved then Unchanged(b, BadRequest)
      else Stepped(b.(funds := b.funds[c.id := f.(reserved := f.reserved + c.amount)]), None)
  }

  /** No sign is asked for, and what is issued as loyalty is not looked at. */
  function ReleaseFundSpec(b: Book, c: Command): Stepped
    requires c.ReleaseFund?
  {
    if c.id >= |b.funds| then Unchanged(b, NotFound)
    else
      var f := b.funds[c.id];
      if c.amount > f.reserved then Unchanged(b, BadRequest)
      else Stepped(b.(funds := b.funds[c.id := f.(reserved := f.reserved - c.amount)]), None)
  }

  // ----- Loyalty

  function BindSpec(b: Book, c: Command): Stepped
    requires c.Bind?
  {
    if c.fundId >= |b.funds| then Unchanged(b, NotFound)
    else
      var f := b.funds[c.fundId];
      if f.classification.Unclassified? then Unchanged(b, InvalidArgument)
      else if !FiatBacked(f.classification) then Unchanged(b, BadRequest)
      else if exists l :: l in b.liabilities && l.fundId == c.fundId then Unchanged(b, Conflict)
      else if c.denomination.GetOr(1) <= 0 then Unchanged(b, BadRequest)
      else
        var row := Liability.Liability(c.fundId, f.tenantId, f.currency, c.denomination.GetOr(1), c.assetCode,
                                       c.issuer, c.distributor, 0, 0, 0, 0, PENDING, 0, 0);
        Stepped(b.(liabilities := b.liabilities + [row]), None)
  }

  /** The requested amount: units at the denomination of the peg, or else backing minor units. */
  function ResolveAmount(l: Liability, amount: Option<int>, units: Option<int>): Result<Money> {
    match units
    case Some(n) =>
      if l.denomination <= 0 then Err(InvalidArgument)
      else if n < 0 then Err(InvalidArgument)
      else Ok(Money(n * l.denomination, l.currency))
    case None =>
      match amount
      case Some(minor) => Ok(Money(minor, l.currency))
      case None => Err(BadRequest)
  }

  predicate Given(text: Option<string>) {
    text.Some? && text.value != ""
  }

  /** Whether the issuer is asked at all, and so whether its answer can be lost. */
  predicate OnChain(l: Liability) {
    Given(l.assetCode) && Given(l.distributor)
  }

  predicate AnswerLost(l: Liability, issuerAnswers: bool) {
    OnChain(l) && !issuerAnswers
  }

  function IssuedRow(l: Liability, minor: int): Liability {
    l.(outstanding := l.outstanding + minor, issuedTotal := l.issuedTotal + minor)
  }

  function RedeemedRow(l: Liability, minor: int): Liability {
    l.(outstanding := l.outstanding - minor, redeemedTotal := l.redeemedTotal + minor)
  }

  function IssueLoyaltySpec(b: Book, c: Command): Stepped
    requires c.IssueLoyalty?
  {
    if !c.enabled then Unchanged(b, InvalidArgument)
    else if c.id >= |b.liabilities| then Unchanged(b, NotFound)
    else
      var l := b.liabilities[c.id];
      if l.fundId >= |b.funds| then Unchanged(b, NotFound)
      else
        match ResolveAmount(l, c.minor, c.units)
        case Err(fault) => Unchanged(b, fault)
        case Ok(amount) => IssueResolved(b, c.id, amount, c.issuerAnswers, c.actor)
  }

  /** The entry comes first; the counters follow only when the issuer answers. */
  function IssueResolved(b: Book, id: nat, amount: Money, issuerAnswers: bool, actor: string): Stepped
    requires id < |b.liabilities| && b.liabilities[id].fundId < |b.funds|
  {
    var l := b.liabilities[id];
    var f := b.funds[l.fundId];
    if amount.minor <= 0 then Unchanged(b, BadRequest)
    else if amount.minor > f.funded - f.reserved then Unchanged(b, BadRequest)
    else
      match LoyaltyIssuanceEntry(amount, References(Source(LoyaltyIssue, id), l.tenantId, actor))
      case Err(fault) => Unchanged(b, fault)
      case Ok(entry) =>
        var posted := b.(journal := b.journal + [entry]);
        if AnswerLost(l, issuerAnswers) then
          var row := l.(lostIssued := l.lostIssued + amount.minor);
          Stepped(posted.(liabilities := b.liabilities[id := row]), Some(IssuerUnreachable))
        else
          Stepped(posted.(funds := b.funds[l.fundId := f.(reserved := f.reserved + amount.minor)],
                          liabilities := b.liabilities[id := IssuedRow(l, amount.minor)]), None)
  }

  function RedeemLoyaltySpec(b: Book, c: Command): Stepped
    requires c.RedeemLoyalty?
  {
    if !c.enabled then Unchanged(b, InvalidArgument)
    else if c.merchantActive.None? then Unchanged(b, NotFound)
    else if !c.merchantActive.value then Unchanged(b, BadRequest)
    else if c.id >= |b.liabilities| then Unchanged(b, NotFound)
    else
      match ResolveAmount(b.liabilities[c.id], c.minor, c.units)
      case Err(fault) => Unchanged(b, fault)
      case Ok(amount) => RedeemResolved(b, c.id, amount, c.issuerAnswers, c.actor)
  }

  function RedeemResolved(b: Book, id: nat, amount: Money, issuerAnswers: bool, actor: string): Stepped
    requires id < |b.liabilities|
  {
    var l := b.liabilities[id];
    if amount.minor <= 0 then Unchanged(b, BadRequest)
    else if amount.minor > l.outstanding then Unchanged(b, BadRequest)
    else
      match LoyaltyRedemptionEntry(amount, References(Source(LoyaltyRedeem, id), l.tenantId, actor))
      case Err(fault) => Unchanged(b, fault)
      case Ok(entry) =>
        var posted := b.(journal := b.journal + [entry]);
        if AnswerLost(l, issuerAnswers) then
          var row := l.(lostRedeemed := l.lostRedeemed + amount.minor);
          Stepped(posted.(liabilities := b.liabilities[id := row]), Some(IssuerUnreachable))
        else Stepped(posted.(liabilities := b.liabilities[id := RedeemedRow(l, amount.minor)]), None)
  }

  /** What the ledger says is outstanding for the tenant and currency of a liability. */
  function LedgerOutstanding(b: Book, l: Liability): int {
    Balance(b.journal, l.tenantId, LoyaltyStablecoin, l.currency)
  }

  /** The supply read on chain, if the asset is bound to an issuer and the reading succeeded. */
  function ReadSupply(l: Liability, supply: Option<int>): Option<int> {
    if Given(l.assetCode) && Given(l.issuer) then supply else None
  }

  function ReconcileSpec(b: Book, c: Command): Stepped
    requires c.Reconcile?
  {
    if c.id >= |b.liabilities| then Unchanged(b, NotFound)
    else
      var l := b.liabilities[c.id];
      var figure := LedgerOutstanding(b, l);
      var read := ReadSupply(l, c.supply);
      var status := if read.Some? && read.value != figure then DRIFT else OK;
      var row := l.(onChainSupply := read.GetOr(figure), reconciliation := status);
      Stepped(b.(liabilities := b.liabilities[c.id := row]), None)
  }

  // ----- Settlements

  function CreateSettlementSpec(b: Book, c: Command): Stepped
    requires c.CreateSettlement?
  {
    if c.merchantActive.None? then Unchanged(b, NotFound)
    else if !c.merchantActive.value then Unchanged(b, BadRequest)
    else
      var row := Settlement(c.tenantId, c.amount, c.currency, REQUESTED, c.actor, None);
      Stepped(b.(settlements := b.settlements + [row]), None)
  }

  function ApproveSettlementSpec(b: Book, c: Command): Stepped
    requires c.ApproveSettlement?
  {
    if c.id >= |b.settlements| then Unchanged(b, NotFound)
    else
      var s := b.settlements[c.id];
      if s.status != REQUESTED then Unchanged(b, BadRequest)
      else if s.maker == c.checkerId then Unchanged(b, Forbidden)
      else
        var row := s.(status := APPROVED, approvedBy := Some(c.checkerId));
        Stepped(b.(settlements := b.settlements[c.id := row]), None)
  }

  function ConfirmSettlementSpec(b: Book, c: Command): Stepped
    requires c.ConfirmSettlement?
  {
    if c.id >= |b.settlements| then Unchanged(b, NotFound)
    else
      var s := b.settlements[c.id];
      if s.status != APPROVED && s.status != SUBMITTED then Unchanged(b, BadRequest)
      else
        match MerchantSettlementEntry(Money(s.amount, s.currency),
                                      References(Source(PaykhSettlement, c.id), s.tenantId, c.actor))
        case Err(fault) => Unchanged(b, fault)
        case Ok(entry) =>
          Stepped(b.(journal := b.journal + [entry], settlements := b.settlements[c.id := s.(status := SETTLED)]), None)
  }

  function CancelSettlementSpec(b: Book, c: Command): Stepped
    requires c.CancelSettlement?
  {
    if c.id >= |b.settlements| then Unchanged(b, NotFound)
    else
      var s := b.settlements[c.id];
      if s.status == SETTLED then Unchanged(b, BadRequest)
      else Stepped(b.(settlements := b.settlements[c.id := s.(status := SETTLEMENT_CANCELLED)]), None)
  }

  function Step(b: Book, c: Command): Stepped {
    match c
    case CreateOrder(_, _, _, _, _, _, _) => CreateOrderSpec(b, c)
    case CheckPayment(_, _, _, _, _, _, _, _, _) => CheckPaymentSpec(b, c)
    case Refund(_, _) => RefundSpec(b, c)
    case CancelOrder(_) => CancelOrderSpec(b, c)
    case CreateFund(_, _, _, _) => CreateFundSpec(b, c)
    case FundProgram(_, _, _) => FundProgramSpec(b, c)
    case ReserveFund(_, _) => ReserveFundSpec(b, c)
    case ReleaseFund(_, _) => ReleaseFundSpec(b, c)
    case Bind(_, _, _, _, _) => BindSpec(b, c)
    case IssueLoyalty(_, _, _, _, _, _) => IssueLoyaltySpec(b, c)
    case RedeemLoyalty(_, _, _, _, _, _, _) => RedeemLoyaltySpec(b, c)
    case Reconcile(_, _) => ReconcileSpec(b, c)
    case CreateSettlement(_, _, _, _, _) => CreateSettlementSpec(b, c)
    case ApproveSettlement(_, _) => ApproveSettlementSpec(b, c)
    case ConfirmSettlement(_, _) => ConfirmSettlementSpec(b, c)
    case CancelSettlement(_) => CancelSettlementSpec(b, c)
  }

  const EMPTY: Book := Book([], [], [], [], [])

  /** The book after a sequence of service calls. */
  function Run(b: Book, calls: seq<Command>): Book {
    if calls == [] then b else Step(Run(b, calls[..|calls| - 1]), calls[|calls| - 1]).book
  }

  ghost predicate Reachable(b: Book) {
    exists calls :: b == Run(EMPTY, calls)
  }
}
