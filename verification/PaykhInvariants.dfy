/** What holds of the PayKH book after every run. */
module PaykhInvariants {
  import opened Results
  import opened Moneys
  import opened Sums
  import opened Journal
  import opened Entries
  import opened Ledger
  import opened Traces
  import opened PaykhBook

  // ----- What one record contributes to the balance of an account

  /** A confirmed payment is cash owed to the merchants. */
  function OrderShare(p: string, a: Account, c: Currency): Order -> int {
    (o: Order) =>
      if o.tenantId != p || o.currency != c || o.status != CONFIRMED then 0
      else if a == TrusteeBankCash || a == MerchantPayable then o.amount else 0
  }

  /** A confirmed settlement has paid that debt in cash. */
  function SettlementShare(p: string, a: Account, c: Currency): Settlement -> int {
    (s: Settlement) =>
      if s.tenantId != p || s.currency != c || s.status != SETTLED then 0
      else if a == TrusteeBankCash || a == MerchantPayable then -s.amount else 0
  }

  /** Only fiat-backed funding is booked. */
  function FundShare(p: string, a: Account, c: Currency): Fund -> int {
    (f: Fund) =>
      if f.tenantId != p || f.currency != c || !FiatBacked(f.classification) then 0
      else if a == TrusteeBankCash || a == ProgramFund then f.funded else 0
  }

  /** All that was ever posted as issued or as redeemed, counted or lost. */
  function PostedIssues(l: Liability): int { l.issuedTotal + l.lostIssued }
  function PostedRedemptions(l: Liability): int { l.redeemedTotal + l.lostRedeemed }

  function LiabilityShare(p: string, a: Account, c: Currency): Liability -> int {
    (l: Liability) =>
      if l.tenantId != p || l.currency != c then 0
      else match a
        case ProgramFund => -PostedIssues(l)
        case LoyaltyStablecoin => PostedIssues(l) - PostedRedemptions(l)
        case MerchantPayable => PostedRedemptions(l)
        case _ => 0
  }

  /** What the records say an account holds. */
  function Recorded(b: Book, p: string, a: Account, c: Currency): int {
    RowSum(b.orders, OrderShare(p, a, c)) + RowSum(b.settlements, SettlementShare(p, a, c))
    + RowSum(b.funds, FundShare(p, a, c)) + RowSum(b.liabilities, LiabilityShare(p, a, c))
  }

  ghost predicate LedgerRefines(b: Book) {
    forall p, a, c :: Balance(b.journal, p, a, c) == Recorded(b, p, a, c)
  }

  // ----- The ledger side of a call

  /** What one entry does to a balance. */
  function Pulse(e: Entry, p: string, a: Account, c: Currency): int {
    if InScope(e, p, c) then Effect(e.postings, a) else 0
  }

  lemma PostingKeeps(b: Book, e: Entry, after: Book)
    requires LedgerRefines(b)
    requires after.journal == b.journal + [e]
    requires forall p, a, c :: Recorded(after, p, a, c) == Recorded(b, p, a, c) + Pulse(e, p, a, c)
    ensures LedgerRefines(after)
  {
    hide Recorded, Pulse, Balance;
    forall p, a, c ensures Balance(after.journal, p, a, c) == Recorded(after, p, a, c) {
      BalanceStep(b.journal, e, p, a, c);
    }
  }

  lemma BalanceStep(log: JournalLog, e: Entry, p: string, a: Account, c: Currency)
    ensures Balance(log + [e], p, a, c) == Balance(log, p, a, c) + Pulse(e, p, a, c)
  {
    BalanceAppend(log, e, p, a, c);
  }

  lemma SilenceKeeps(b: Book, after: Book)
    requires LedgerRefines(b)
    requires after.journal == b.journal
    requires forall p, a, c :: Recorded(after, p, a, c) == Recorded(b, p, a, c)
    ensures LedgerRefines(after)
  {
    hide Recorded, Balance;
    forall p, a, c ensures Balance(after.journal, p, a, c) == Recorded(after, p, a, c) {
    }
  }

  /** How a changed row shifts what the records say. */
  lemma OrderShift(b: Book, i: nat, row: Order, after: Book, p: string, a: Account, c: Currency)
    requires i <= |b.orders| && after == b.(journal := after.journal, orders := Put(b.orders, i, row))
    ensures Recorded(after, p, a, c)
         == Recorded(b, p, a, c) + OrderShare(p, a, c)(row) - Before(b.orders, i, OrderShare(p, a, c))
  {
    PutSum(b.orders, i, row, OrderShare(p, a, c));
  }

  lemma SettlementShift(b: Book, i: nat, row: Settlement, after: Book, p: string, a: Account, c: Currency)
    requires i <= |b.settlements| && after == b.(journal := after.journal, settlements := Put(b.settlements, i, row))
    ensures Recorded(after, p, a, c)
         == Recorded(b, p, a, c) + SettlementShare(p, a, c)(row) - Before(b.settlements, i, SettlementShare(p, a, c))
  {
    PutSum(b.settlements, i, row, SettlementShare(p, a, c));
  }

  lemma FundShift(b: Book, i: nat, row: Fund, after: Book, p: string, a: Account, c: Currency)
    requires i <= |b.funds| && after == b.(journal := after.journal, funds := Put(b.funds, i, row))
    ensures Recorded(after, p, a, c)
         == Recorded(b, p, a, c) + FundShare(p, a, c)(row) - Before(b.funds, i, FundShare(p, a, c))
  {
    PutSum(b.funds, i, row, FundShare(p, a, c));
  }

  lemma LiabilityShift(b: Book, i: nat, row: Liability, after: Book, p: string, a: Account, c: Currency)
    requires i <= |b.liabilities| && after == b.(journal := after.journal, liabilities := Put(b.liabilities, i, row))
    ensures Recorded(after, p, a, c)
         == Recorded(b, p, a, c) + LiabilityShare(p, a, c)(row) - Before(b.liabilities, i, LiabilityShare(p, a, c))
  {
    PutSum(b.liabilities, i, row, LiabilityShare(p, a, c));
  }

  lemma PulseOfTransfer(debit: Account, credit: Account, m: Money, refs: References,
                        p: string, a: Account, c: Currency)
    requires TypeOf(debit).Some? && TypeOf(credit).Some?
    requires Transfer(debit, credit, m, refs).Ok?
    ensures Pulse(Transfer(debit, credit, m, refs).value, p, a, c)
         == if refs.programId == p && m.currency == c then TransferEffect(debit, credit, m.minor, a) else 0
  {
    TransferSpec(debit, credit, m, refs);
  }

  lemma OrderLedger(b: Book, call: Command)
    requires LedgerRefines(b)
    requires call.CreateOrder? || call.CheckPayment? || call.Refund? || call.CancelOrder?
    ensures LedgerRefines(Step(b, call).book)
  {
    hide Recorded, Build, Balance, Pulse, LedgerRefines;
    var after := Step(b, call).book;
    if after != b {
      var i := if call.CreateOrder? then |b.orders| else call.id;
      var row := after.orders[i];
      assert after == b.(journal := after.journal, orders := Put(b.orders, i, row));
      if call.CheckPayment? && row.status == CONFIRMED {
        CollectionLedger(b, i, row, call.actor, after);
      } else if call.Refund? {
        RefundLedger(b, i, row, call.actor, after);
      } else {
        assert after.journal == b.journal;
        forall p, a, c ensures Recorded(after, p, a, c) == Recorded(b, p, a, c) {
          OrderShift(b, i, row, after, p, a, c);
        }
        SilenceKeeps(b, after);
      }
    }
  }

  lemma CollectionLedger(b: Book, i: nat, row: Order, actor: string, after: Book)
    requires LedgerRefines(b) && i < |b.orders|
    requires b.orders[i].status != CONFIRMED
    requires row == b.orders[i].(status := CONFIRMED, matchedTxn := row.matchedTxn)
    requires Collection(b.orders[i], i, actor).Ok?
    requires after == b.(journal := b.journal + [Collection(b.orders[i], i, actor).value], orders := b.orders[i := row])
    ensures LedgerRefines(after)
  {
    hide Recorded, Build, Balance, Pulse, LedgerRefines;
    var e := Collection(b.orders[i], i, actor).value;
    forall p, a, c ensures Recorded(after, p, a, c) == Recorded(b, p, a, c) + Pulse(e, p, a, c) {
      OrderShift(b, i, row, after, p, a, c);
      PulseOfTransfer(TrusteeBankCash, MerchantPayable, Money(row.amount, row.currency),
                      References(Source(PaykhOrder, i), row.tenantId, actor), p, a, c);
    }
    PostingKeeps(b, e, after);
  }

  /** The refund entry is the collection entry with the opposite effect. */
  lemma RefundPulse(o: Order, i: nat, actor: string, p: string, a: Account, c: Currency)
    requires RefundEntry(o, i, actor).Ok?
    ensures Pulse(RefundEntry(o, i, actor).value, p, a, c)
         == if o.tenantId == p && o.currency == c
            then -TransferEffect(TrusteeBankCash, MerchantPayable, o.amount, a) else 0
  {
    var refs := References(Source(PaykhOrder, i), o.tenantId, actor);
    TransferSpec(TrusteeBankCash, MerchantPayable, Money(o.amount, o.currency), refs);
    ReverseCancels(Collection(o, i, actor).value, Source(PaykhRefund, i), actor);
  }

  lemma RefundLedger(b: Book, i: nat, row: Order, actor: string, after: Book)
    requires LedgerRefines(b) && i < |b.orders|
    requires b.orders[i].status == CONFIRMED && row == b.orders[i].(status := REFUNDED)
    requires RefundEntry(b.orders[i], i, actor).Ok?
    requires after
          == b.(journal := b.journal + [RefundEntry(b.orders[i], i, actor).value], orders := b.orders[i := row])
    ensures LedgerRefines(after)
  {
    hide Recorded, Build, Balance, Pulse, LedgerRefines, RefundEntry;
    var e := RefundEntry(b.orders[i], i, actor).value;
    forall p, a, c ensures Recorded(after, p, a, c) == Recorded(b, p, a, c) + Pulse(e, p, a, c) {
      OrderShift(b, i, row, after, p, a, c);
      RefundPulse(b.orders[i], i, actor, p, a, c);
    }
    PostingKeeps(b, e, after);
  }

  lemma SettlementLedger(b: Book, call: Command)
    requires LedgerRefines(b)
    requires call.CreateSettlement? || call.ApproveSettlement? || call.ConfirmSettlement? || call.CancelSettlement?
    ensures LedgerRefines(Step(b, call).book)
  {
    hide Recorded, Build, Balance, Pulse, LedgerRefines;
    var after := Step(b, call).book;
    if after != b {
      var i := if call.CreateSettlement? then |b.settlements| else call.id;
      var row := after.settlements[i];
      assert after == b.(journal := after.journal, settlements := Put(b.settlements, i, row));
      if call.ConfirmSettlement? {
        var money, refs := Money(row.amount, row.currency),
                           References(Source(PaykhSettlement, i), row.tenantId, call.actor);
        var e := MerchantSettlementEntry(money, refs).value;
        forall p, a, c ensures Recorded(after, p, a, c) == Recorded(b, p, a, c) + Pulse(e, p, a, c) {
          SettlementShift(b, i, row, after, p, a, c);
          PulseOfTransfer(MerchantPayable, TrusteeBankCash, money, refs, p, a, c);
        }
        PostingKeeps(b, e, after);
      } else {
        assert after.journal == b.journal;
        forall p, a, c ensures Recorded(after, p, a, c) == Recorded(b, p, a, c) {
          SettlementShift(b, i, row, after, p, a, c);
        }
        SilenceKeeps(b, after);
      }
    }
  }

  lemma FundLedger(b: Book, call: Command)
    requires LedgerRefines(b)
    requires call.CreateFund? || call.FundProgram? || call.ReserveFund? || call.ReleaseFund?
    ensures LedgerRefines(Step(b, call).book)
  {
    hide Recorded, Build, Balance, Pulse, LedgerRefines;
    var after := Step(b, call).book;
    if after != b {
      var i := if call.CreateFund? then |b.funds| else call.id;
      var row := after.funds[i];
      assert after == b.(journal := after.journal, funds := Put(b.funds, i, row));
      if call.FundProgram? && FiatBacked(row.classification) {
        var money, refs := Money(call.amount, row.currency), References(Source(PaykhFund, i), row.tenantId, call.actor);
        var e := ProgramFundingEntry(money, refs).value;
        forall p, a, c ensures Recorded(after, p, a, c) == Recorded(b, p, a, c) + Pulse(e, p, a, c) {
          FundShift(b, i, row, after, p, a, c);
          PulseOfTransfer(TrusteeBankCash, ProgramFund, money, refs, p, a, c);
        }
        PostingKeeps(b, e, after);
      } else {
        assert after.journal == b.journal;
        forall p, a, c ensures Recorded(after, p, a, c) == Recorded(b, p, a, c) {
          FundShift(b, i, row, after, p, a, c);
        }
        SilenceKeeps(b, after);
      }
    }
  }

  /** Binding and reconciling a liability post nothing. */
  lemma QuietLiabilityLedger(b: Book, call: Command)
    requires LedgerRefines(b)
    requires call.Bind? || call.Reconcile?
    ensures LedgerRefines(Step(b, call).book)
  {
    hide Recorded, Build, Balance, Pulse, LedgerRefines;
    var after := Step(b, call).book;
    if after != b {
      var i := if call.Bind? then |b.liabilities| else call.id;
      var row := after.liabilities[i];
      assert after == b.(liabilities := Put(b.liabilities, i, row));
      forall p, a, c ensures Recorded(after, p, a, c) == Recorded(b, p, a, c) {
        LiabilityShift(b, i, row, after, p, a, c);
      }
      SilenceKeeps(b, after);
    }
  }

  /** Earmarking a fund changes no share: only what is funded counts. */
  lemma EarmarkIsSilent(b: Book, i: nat, row: Fund, after: Book, p: string, a: Account, c: Currency)
    requires i < |b.funds| && row == b.funds[i].(reserved := row.reserved)
    requires after == b.(funds := b.funds[i := row])
    ensures Recorded(after, p, a, c) == Recorded(b, p, a, c)
  {
    FundShift(b, i, row, after, p, a, c);
  }

  lemma IssueLedger(b: Book, id: nat, amount: Money, issuerAnswers: bool, actor: string)
    requires LedgerRefines(b)
    requires id < |b.liabilities| && b.liabilities[id].fundId < |b.funds|
    requires amount.currency == b.liabilities[id].currency
    ensures LedgerRefines(IssueResolved(b, id, amount, issuerAnswers, actor).book)
  {
    hide Recorded, Build, Balance, Pulse, LedgerRefines;
    var after := IssueResolved(b, id, amount, issuerAnswers, actor).book;
    if after != b {
      var l, row := b.liabilities[id], after.liabilities[id];
      var refs := References(Source(LoyaltyIssue, id), l.tenantId, actor);
      var e := LoyaltyIssuanceEntry(amount, refs).value;
      var middle := b.(funds := after.funds);
      assert after == middle.(journal := b.journal + [e], liabilities := Put(middle.liabilities, id, row));
      forall p, a, c ensures Recorded(after, p, a, c) == Recorded(b, p, a, c) + Pulse(e, p, a, c) {
        assert b.funds[l.fundId := b.funds[l.fundId]] == b.funds;
        EarmarkIsSilent(b, l.fundId, after.funds[l.fundId], middle, p, a, c);
        LiabilityShift(middle, id, row, after, p, a, c);
        PulseOfTransfer(ProgramFund, LoyaltyStablecoin, amount, refs, p, a, c);
      }
      PostingKeeps(b, e, after);
    }
  }

  lemma RedeemLedger(b: Book, id: nat, amount: Money, issuerAnswers: bool, actor: string)
    requires LedgerRefines(b)
    requires id < |b.liabilities|
    requires amount.currency == b.liabilities[id].currency
    ensures LedgerRefines(RedeemResolved(b, id, amount, issuerAnswers, actor).book)
  {
    hide Recorded, Build, Balance, Pulse, LedgerRefines;
    var after := RedeemResolved(b, id, amount, issuerAnswers, actor).book;
    if after != b {
      var l, row := b.liabilities[id], after.liabilities[id];
      var refs := References(Source(LoyaltyRedeem, id), l.tenantId, actor);
      var e := LoyaltyRedemptionEntry(amount, refs).value;
      assert after == b.(journal := b.journal + [e], liabilities := Put(b.liabilities, id, row));
      forall p, a, c ensures Recorded(after, p, a, c) == Recorded(b, p, a, c) + Pulse(e, p, a, c) {
        LiabilityShift(b, id, row, after, p, a, c);
        PulseOfTransfer(LoyaltyStablecoin, MerchantPayable, amount, refs, p, a, c);
      }
      PostingKeeps(b, e, after);
    }
  }

  /** Every call keeps the ledger equal to the records. */
  lemma StepKeepsLedger(b: Book, call: Command)
    requires LedgerRefines(b)
    ensures LedgerRefines(Step(b, call).book)
  {
    hide LedgerRefines, IssueResolved, RedeemResolved;
    match call
    case CreateOrder(_, _, _, _, _, _, _) => OrderLedger(b, call);
    case CheckPayment(_, _, _, _, _, _, _, _, _) => OrderLedger(b, call);
    case Refund(_, _) => OrderLedger(b, call);
    case CancelOrder(_) => OrderLedger(b, call);
    case CreateFund(_, _, _, _) => FundLedger(b, call);
    case FundProgram(_, _, _) => FundLedger(b, call);
    case ReserveFund(_, _) => FundLedger(b, call);
    case ReleaseFund(_, _) => FundLedger(b, call);
    case Bind(_, _, _, _, _) => QuietLiabilityLedger(b, call);
    case Reconcile(_, _) => QuietLiabilityLedger(b, call);
    case IssueLoyalty(id, _, minor, units, issuerAnswers, actor) =>
      if id < |b.liabilities| && b.liabilities[id].fundId < |b.funds| {
        var amount := ResolveAmount(b.liabilities[id], minor, units);
        if amount.Ok? { IssueLedger(b, id, amount.value, issuerAnswers, actor); }
      }
    case RedeemLoyalty(id, _, _, minor, units, issuerAnswers, actor) =>
      if id < |b.liabilities| {
        var amount := ResolveAmount(b.liabilities[id], minor, units);
        if amount.Ok? { RedeemLedger(b, id, amount.value, issuerAnswers, actor); }
      }
    case CreateSettlement(_, _, _, _, _) => SettlementLedger(b, call);
    case ApproveSettlement(_, _) => SettlementLedger(b, call);
    case ConfirmSettlement(_, _) => SettlementLedger(b, call);
    case CancelSettlement(_) => SettlementLedger(b, call);
  }

  // ----- Life of one record: its row and the entries that concern it

  predicate OrderLife(o: Order, i: nat, t: JournalLog) {
    var amount := Money(o.amount, o.currency);
    && |t| <= 2
    && (o.matchedTxn.Some? <==> |t| >= 1)
    && (o.status == CONFIRMED <==> |t| == 1)
    && o.status in {AWAITING_PAYMENT, EXPIRED, CONFIRMED, REFUNDED, CANCELLED}
    && (o.status == AWAITING_PAYMENT || o.status == EXPIRED ==> t == [])
    && (o.status == REFUNDED ==> |t| == 2)
    && (|t| >= 1 ==>
          o.amount > 0
          && Moves(t[0], Source(PaykhOrder, i), o.tenantId, TrusteeBankCash, MerchantPayable, amount))
    && (|t| == 2 ==>
          && t[1].references.source == Source(PaykhRefund, i)
          && t[1].references.programId == o.tenantId
          && t[1].currency == t[0].currency
          && t[1].postings == SwapAll(t[0].postings)
          && t[1].reversalOf == Some(t[0].references.source))
  }

  predicate SettlementLife(s: Settlement, i: nat, t: JournalLog) {
    && |t| == (if s.status == SETTLED then 1 else 0)
    && (s.status == SETTLED ==>
          s.amount > 0
          && Moves(t[0], Source(PaykhSettlement, i), s.tenantId, MerchantPayable, TrusteeBankCash,
                   Money(s.amount, s.currency)))
    && s.status != SUBMITTED
    && (s.status == APPROVED || s.status == SETTLED ==> s.approvedBy.Some?)
    && s.approvedBy != Some(s.maker)
  }

  ghost predicate OrdersLive(b: Book) {
    forall i: nat :: if i < |b.orders| then OrderLife(b.orders[i], i, Trace(b.journal, OrderFamily, i))
                     else Trace(b.journal, OrderFamily, i) == []
  }

  ghost predicate SettlementsLive(b: Book) {
    forall i: nat ::
      if i < |b.settlements| then SettlementLife(b.settlements[i], i, Trace(b.journal, SettlementFamily, i))
      else Trace(b.journal, SettlementFamily, i) == []
  }

  /** One bank transaction pays for at most one order. */
  ghost predicate TransactionsUnique(b: Book) {
    forall i, j :: 0 <= i < j < |b.orders| && b.orders[i].matchedTxn.Some? ==>
                     b.orders[i].matchedTxn != b.orders[j].matchedTxn
  }

  /** A liability belongs to a fiat-backed fund of the same tenant and currency, and its counters add up. */
  predicate LiabilityLife(l: Liability, funds: seq<Fund>) {
    && l.fundId < |funds|
    && FiatBacked(funds[l.fundId].classification)
    && l.tenantId == funds[l.fundId].tenantId && l.currency == funds[l.fundId].currency
    && l.denomination > 0
    && l.outstanding == l.issuedTotal - l.redeemedTotal
    && l.outstanding >= 0 && l.redeemedTotal >= 0
    && l.lostIssued >= 0 && l.lostRedeemed >= 0
    && (!OnChain(l) ==> l.lostIssued == 0 && l.lostRedeemed == 0)
  }

  ghost predicate CountersLive(b: Book) {
    && (forall i :: 0 <= i < |b.funds| ==> b.funds[i].funded >= 0)
    && (forall i :: 0 <= i < |b.liabilities| ==> LiabilityLife(b.liabilities[i], b.funds))
    && (forall i, j :: 0 <= i < j < |b.liabilities| ==> b.liabilities[i].fundId != b.liabilities[j].fundId)
  }

  ghost predicate Inv(b: Book) {
    && AllPosted(b.journal)
    && LedgerRefines(b)
    && OrdersLive(b)
    && SettlementsLive(b)
    && TransactionsUnique(b)
    && CountersLive(b)
  }

  // ----- Each call posts at most one entry, for its own record

  function SubjectFamily(call: Command): Family {
    match call
    case CreateOrder(_, _, _, _, _, _, _) => OrderFamily
    case CheckPayment(_, _, _, _, _, _, _, _, _) => OrderFamily
    case Refund(_, _) => OrderFamily
    case CancelOrder(_) => OrderFamily
    case CreateFund(_, _, _, _) => FundFamily
    case FundProgram(_, _, _) => FundFamily
    case ReserveFund(_, _) => FundFamily
    case ReleaseFund(_, _) => FundFamily
    case Bind(_, _, _, _, _) => LoyaltyFamily
    case IssueLoyalty(_, _, _, _, _, _) => LoyaltyFamily
    case RedeemLoyalty(_, _, _, _, _, _, _) => LoyaltyFamily
    case Reconcile(_, _) => LoyaltyFamily
    case CreateSettlement(_, _, _, _, _) => SettlementFamily
    case ApproveSettlement(_, _) => SettlementFamily
    case ConfirmSettlement(_, _) => SettlementFamily
    case CancelSettlement(_) => SettlementFamily
  }

  function Subject(b: Book, call: Command): nat {
    match call
    case CreateOrder(_, _, _, _, _, _, _) => |b.orders|
    case CreateFund(_, _, _, _) => |b.funds|
    case Bind(_, _, _, _, _) => |b.liabilities|
    case CreateSettlement(_, _, _, _, _) => |b.settlements|
    case _ => call.id
  }

  predicate Extends(b: Book, after: Book, es: JournalLog) {
    after.journal == b.journal + es
  }

  lemma TransferPosted(debit: Account, credit: Account, m: Money, refs: References)
    requires TypeOf(debit).Some? && TypeOf(credit).Some?
    ensures Transfer(debit, credit, m, refs).Ok? ==>
              var e := Transfer(debit, credit, m, refs).value;
              Posted(e) && e.references == refs
  {
    TransferSpec(debit, credit, m, refs);
  }

  lemma RefundPosted(o: Order, i: nat, actor: string)
    ensures RefundEntry(o, i, actor).Ok? ==>
              var e := RefundEntry(o, i, actor).value;
              Posted(e) && e.references == References(Source(PaykhRefund, i), o.tenantId, actor)
  {
    TransferSpec(TrusteeBankCash, MerchantPayable, Money(o.amount, o.currency),
                 References(Source(PaykhOrder, i), o.tenantId, actor));
    if o.amount > 0 { ReverseCancels(Collection(o, i, actor).value, Source(PaykhRefund, i), actor); }
  }

  /** The entry a call posts, if it posts one. */
  function PostedBy(b: Book, call: Command): JournalLog {
    var after := Step(b, call).book.journal;
    if |after| > |b.journal| then after[|b.journal|..] else []
  }

  lemma PostedIs(b: Book, call: Command, es: JournalLog)
    requires Extends(b, Step(b, call).book, es)
    ensures PostedBy(b, call) == es
  {
    hide Step;
  }

  lemma IssuePosts(b: Book, id: nat, amount: Money, issuerAnswers: bool, actor: string) returns (es: JournalLog)
    requires id < |b.liabilities| && b.liabilities[id].fundId < |b.funds|
    ensures Extends(b, IssueResolved(b, id, amount, issuerAnswers, actor).book, es)
    ensures EntriesFor(es, LoyaltyFamily, id)
  {
    var refs := References(Source(LoyaltyIssue, id), b.liabilities[id].tenantId, actor);
    var entry := LoyaltyIssuanceEntry(amount, refs);
    TransferPosted(ProgramFund, LoyaltyStablecoin, amount, refs);
    hide Transfer, Posted, Balance;
    es := if IssueResolved(b, id, amount, issuerAnswers, actor).book == b then [] else [entry.value];
    assert b.journal + [] == b.journal;
  }

  lemma RedeemPosts(b: Book, id: nat, amount: Money, issuerAnswers: bool, actor: string) returns (es: JournalLog)
    requires id < |b.liabilities|
    ensures Extends(b, RedeemResolved(b, id, amount, issuerAnswers, actor).book, es)
    ensures EntriesFor(es, LoyaltyFamily, id)
  {
    var refs := References(Source(LoyaltyRedeem, id), b.liabilities[id].tenantId, actor);
    var entry := LoyaltyRedemptionEntry(amount, refs);
    TransferPosted(LoyaltyStablecoin, MerchantPayable, amount, refs);
    hide Transfer, Posted, Balance;
    es := if RedeemResolved(b, id, amount, issuerAnswers, actor).book == b then [] else [entry.value];
    assert b.journal + [] == b.journal;
  }

  lemma LoyaltyPosts(b: Book, call: Command)
    requires call.IssueLoyalty? || call.RedeemLoyalty?
    ensures Extends(b, Step(b, call).book, PostedBy(b, call))
    ensures EntriesFor(PostedBy(b, call), LoyaltyFamily, call.id)
  {
    hide IssueResolved, RedeemResolved, Posted, PostedBy, ResolveAmount;
    var es: JournalLog := [];
    assert b.journal + [] == b.journal;
    if call.IssueLoyalty? && Step(b, call).book != b {
      var amount := ResolveAmount(b.liabilities[call.id], call.minor, call.units).value;
      es := IssuePosts(b, call.id, amount, call.issuerAnswers, call.actor);
    }
    if call.RedeemLoyalty? && Step(b, call).book != b {
      var amount := ResolveAmount(b.liabilities[call.id], call.minor, call.units).value;
      es := RedeemPosts(b, call.id, amount, call.issuerAnswers, call.actor);
    }
    PostedIs(b, call, es);
  }

  lemma FundPosts(b: Book, call: Command)
    requires call.FundProgram?
    ensures Extends(b, Step(b, call).book, PostedBy(b, call))
    ensures EntriesFor(PostedBy(b, call), FundFamily, call.id)
  {
    hide Transfer, Posted, Balance;
    if call.id < |b.funds| {
      var f := b.funds[call.id];
      TransferPosted(TrusteeBankCash, ProgramFund, Money(call.amount, f.currency),
                     References(Source(PaykhFund, call.id), f.tenantId, call.actor));
    }
  }

  lemma SettlementPosts(b: Book, call: Command)
    requires call.ConfirmSettlement?
    ensures Extends(b, Step(b, call).book, PostedBy(b, call))
    ensures EntriesFor(PostedBy(b, call), SettlementFamily, call.id)
    ensures PostedBy(b, call) == [] <==> Step(b, call).book == b
    ensures PostedBy(b, call) != [] ==>
              var s := b.settlements[call.id];
              && s.amount > 0
              && Moves(PostedBy(b, call)[0], Source(PaykhSettlement, call.id), s.tenantId, MerchantPayable,
                       TrusteeBankCash, Money(s.amount, s.currency))
  {
    hide Build, Balance, RefundEntry, Posted, UsedByAnother;
    if call.id < |b.settlements| {
      var s := b.settlements[call.id];
      TransferSpec(MerchantPayable, TrusteeBankCash, Money(s.amount, s.currency),
                   References(Source(PaykhSettlement, call.id), s.tenantId, call.actor));
    }
  }

  lemma CheckPosts(b: Book, call: Command)
    requires call.CheckPayment?
    ensures Extends(b, Step(b, call).book, PostedBy(b, call))
    ensures EntriesFor(PostedBy(b, call), OrderFamily, call.id)
    ensures PostedBy(b, call) != [] ==>
              var o := b.orders[call.id];
              && o.amount > 0
              && Moves(PostedBy(b, call)[0], Source(PaykhOrder, call.id), o.tenantId, TrusteeBankCash,
                       MerchantPayable, Money(o.amount, o.currency))
  {
    hide Balance, Build;
    if call.id < |b.orders| {
      var o := b.orders[call.id];
      TransferSpec(TrusteeBankCash, MerchantPayable, Money(o.amount, o.currency),
                   References(Source(PaykhOrder, call.id), o.tenantId, call.actor));
    }
  }

  lemma RefundPosts(b: Book, call: Command)
    requires call.Refund?
    ensures Extends(b, Step(b, call).book, PostedBy(b, call))
    ensures EntriesFor(PostedBy(b, call), OrderFamily, call.id)
    ensures PostedBy(b, call) != [] ==> PostedBy(b, call) == [RefundEntry(b.orders[call.id], call.id, call.actor).value]
  {
    hide RefundEntry, Posted, Balance;
    if call.id < |b.orders| { RefundPosted(b.orders[call.id], call.id, call.actor); }
  }

  predicate MayPost(call: Command) {
    || call.CheckPayment? || call.Refund? || call.FundProgram? || call.IssueLoyalty? || call.RedeemLoyalty?
    || call.ConfirmSettlement?
  }

  lemma QuietPosts(b: Book, call: Command)
    requires !MayPost(call)
    ensures Extends(b, Step(b, call).book, []) && PostedBy(b, call) == []
  {
    hide Balance;
  }

  /** Every call posts at most one entry, and that one for its own record. */
  lemma StepPosts(b: Book, call: Command)
    ensures Extends(b, Step(b, call).book, PostedBy(b, call))
    ensures EntriesFor(PostedBy(b, call), SubjectFamily(call), Subject(b, call))
  {
    hide Step, PostedBy, Posted;
    if !MayPost(call) { QuietPosts(b, call); }
    if call.CheckPayment? { CheckPosts(b, call); }
    if call.Refund? { RefundPosts(b, call); }
    if call.FundProgram? { FundPosts(b, call); }
    if call.IssueLoyalty? || call.RedeemLoyalty? { LoyaltyPosts(b, call); }
    if call.ConfirmSettlement? { SettlementPosts(b, call); }
  }

  // ----- Orders and settlements keep their lives

  lemma OtherCallsKeepOrders(b: Book, call: Command)
    requires SubjectFamily(call) != OrderFamily
    ensures Step(b, call).book.orders == b.orders
  {
    hide Balance, Transfer;
  }

  lemma OtherCallsKeepSettlements(b: Book, call: Command)
    requires SubjectFamily(call) != SettlementFamily
    ensures Step(b, call).book.settlements == b.settlements
  {
    hide Balance, Transfer, RefundEntry;
  }

  /** A refund posts exactly the collection with its sides swapped. */
  lemma RefundSwaps(o: Order, i: nat, actor: string)
    requires o.amount > 0
    ensures RefundEntry(o, i, actor).Ok?
    ensures var e, m := RefundEntry(o, i, actor).value, Money(o.amount, o.currency);
            && e.references == References(Source(PaykhRefund, i), o.tenantId, actor)
            && e.currency == o.currency
            && e.postings == SwapAll([DebitOf(TrusteeBankCash, m), CreditOf(MerchantPayable, m)])
            && e.reversalOf == Some(Source(PaykhOrder, i))
  {
    var refs := References(Source(PaykhOrder, i), o.tenantId, actor);
    TransferSpec(TrusteeBankCash, MerchantPayable, Money(o.amount, o.currency), refs);
    ReverseCancels(Collection(o, i, actor).value, Source(PaykhRefund, i), actor);
  }

  lemma OrderRowKeeps(b: Book, call: Command)
    requires OrdersLive(b)
    requires SubjectFamily(call) == OrderFamily
    ensures var after, i := Step(b, call).book, Subject(b, call);
            && |after.orders| >= |b.orders|
            && (forall k :: 0 <= k < |b.orders| && k != i ==> after.orders[k] == b.orders[k])
            && |after.orders| <= |b.orders| + 1
            && (|after.orders| > |b.orders| ==> i == |b.orders|)
            && (i < |after.orders| ==>
                  OrderLife(after.orders[i], i, Trace(b.journal, OrderFamily, i) + PostedBy(b, call)))
            && (i >= |after.orders| ==> PostedBy(b, call) == [])
  {
    hide Balance, Build, Trace, Posted;
    var i := Subject(b, call);
    var t := Trace(b.journal, OrderFamily, i);
    assert t + [] == t;
    if i < |b.orders| {
      assert OrderLife(b.orders[i], i, t);
    } else {
      assert t == [];
    }
    match call
    case CheckPayment(_, _, _, _, _, _, _, _, _) => CheckPosts(b, call); CheckKeepsLife(b, call);
    case Refund(_, _) => RefundPosts(b, call); RefundKeepsLife(b, call);
    case _ => QuietPosts(b, call);
  }

  lemma CheckKeepsLife(b: Book, call: Command)
    requires call.CheckPayment?
    requires call.id < |b.orders| ==> OrderLife(b.orders[call.id], call.id, Trace(b.journal, OrderFamily, call.id))
    ensures var after := Step(b, call).book;
            && |after.orders| == |b.orders|
            && (forall k :: 0 <= k < |b.orders| && k != call.id ==> after.orders[k] == b.orders[k])
            && (call.id < |b.orders| ==>
                  OrderLife(after.orders[call.id], call.id,
                            Trace(b.journal, OrderFamily, call.id) + PostedBy(b, call)))
            && (call.id >= |b.orders| ==> PostedBy(b, call) == [])
  {
    hide Balance, Build, Trace, Posted;
    var t := Trace(b.journal, OrderFamily, call.id);
    assert t + [] == t;
    CheckPosts(b, call);
  }

  lemma RefundKeepsLife(b: Book, call: Command)
    requires call.Refund?
    requires call.id < |b.orders| ==> OrderLife(b.orders[call.id], call.id, Trace(b.journal, OrderFamily, call.id))
    ensures var after := Step(b, call).book;
            && |after.orders| == |b.orders|
            && (forall k :: 0 <= k < |b.orders| && k != call.id ==> after.orders[k] == b.orders[k])
            && (call.id < |b.orders| ==>
                  OrderLife(after.orders[call.id], call.id,
                            Trace(b.journal, OrderFamily, call.id) + PostedBy(b, call)))
            && (call.id >= |b.orders| ==> PostedBy(b, call) == [])
  {
    hide Balance, Build, Trace, Posted, RefundEntry, SwapAll;
    var t := Trace(b.journal, OrderFamily, call.id);
    assert t + [] == t;
    RefundPosts(b, call);
    if call.id < |b.orders| && b.orders[call.id].status == CONFIRMED {
      RefundSwaps(b.orders[call.id], call.id, call.actor);
    }
  }

  lemma StepKeepsOrders(b: Book, call: Command)
    requires OrdersLive(b)
    ensures OrdersLive(Step(b, call).book)
  {
    hide OrderLife, Step, PostedBy, Trace, Posted;
    var after, i, es := Step(b, call).book, Subject(b, call), PostedBy(b, call);
    StepPosts(b, call);
    TraceExtend(b.journal, es, SubjectFamily(call), i);
    if SubjectFamily(call) == OrderFamily { OrderRowKeeps(b, call); } else { OtherCallsKeepOrders(b, call); }
    forall k: nat
      ensures if k < |after.orders| then OrderLife(after.orders[k], k, Trace(after.journal, OrderFamily, k))
              else Trace(after.journal, OrderFamily, k) == []
    {
      assert if k < |b.orders| then OrderLife(b.orders[k], k, Trace(b.journal, OrderFamily, k))
             else Trace(b.journal, OrderFamily, k) == [];
    }
  }

  lemma SettlementRowKeeps(b: Book, call: Command)
    requires SettlementsLive(b)
    requires SubjectFamily(call) == SettlementFamily
    ensures var after, i := Step(b, call).book, Subject(b, call);
            && |after.settlements| >= |b.settlements|
            && (forall k :: 0 <= k < |b.settlements| && k != i ==> after.settlements[k] == b.settlements[k])
            && |after.settlements| <= |b.settlements| + 1
            && (|after.settlements| > |b.settlements| ==> i == |b.settlements|)
            && (i < |after.settlements| ==>
                  SettlementLife(after.settlements[i], i,
                                 Trace(b.journal, SettlementFamily, i) + PostedBy(b, call)))
            && (i >= |after.settlements| ==> PostedBy(b, call) == [])
  {
    hide Balance, Build, Trace, Posted, Moves;
    var i := Subject(b, call);
    var t := Trace(b.journal, SettlementFamily, i);
    assert t + [] == t;
    if i < |b.settlements| {
      assert SettlementLife(b.settlements[i], i, t);
    } else {
      assert t == [];
    }
    if call.ConfirmSettlement? { SettlementPosts(b, call); } else { QuietPosts(b, call); }
  }

  lemma StepKeepsSettlements(b: Book, call: Command)
    requires SettlementsLive(b)
    ensures SettlementsLive(Step(b, call).book)
  {
    hide SettlementLife, Step, PostedBy, Trace, Posted;
    var after, i, es := Step(b, call).book, Subject(b, call), PostedBy(b, call);
    StepPosts(b, call);
    TraceExtend(b.journal, es, SubjectFamily(call), i);
    if SubjectFamily(call) == SettlementFamily { SettlementRowKeeps(b, call); }
    else { OtherCallsKeepSettlements(b, call); }
    forall k: nat
      ensures if k < |after.settlements| then
                SettlementLife(after.settlements[k], k, Trace(after.journal, SettlementFamily, k))
              else Trace(after.journal, SettlementFamily, k) == []
    {
      assert if k < |b.settlements| then SettlementLife(b.settlements[k], k, Trace(b.journal, SettlementFamily, k))
             else Trace(b.journal, SettlementFamily, k) == [];
    }
  }

  // ----- One bank transaction, one order

  /** A payment is only recorded after the look-up by transaction found no other order. */
  lemma StepKeepsTransactions(b: Book, call: Command)
    requires TransactionsUnique(b)
    ensures TransactionsUnique(Step(b, call).book)
  {
    hide Balance, Transfer, RefundEntry;
    if SubjectFamily(call) != OrderFamily {
      OtherCallsKeepOrders(b, call);
    } else if call.CheckPayment? {
      CheckKeepsTransactions(b, call);
    } else {
      assert forall k :: 0 <= k < |b.orders| ==> Step(b, call).book.orders[k].matchedTxn == b.orders[k].matchedTxn;
    }
  }

  lemma CheckKeepsTransactions(b: Book, call: Command)
    requires TransactionsUnique(b) && call.CheckPayment?
    ensures TransactionsUnique(Step(b, call).book)
  {
    hide Balance, Transfer;
    var after := Step(b, call).book;
    if call.id < |b.orders| && after.orders[call.id].matchedTxn != b.orders[call.id].matchedTxn {
      assert !UsedByAnother(b.orders, call.id, call.bankTransactionId);
      forall i, j | 0 <= i < j < |after.orders| && after.orders[i].matchedTxn.Some?
        ensures after.orders[i].matchedTxn != after.orders[j].matchedTxn
      {
      }
    }
  }

  // ----- Counters

  lemma OtherCallsKeepCounters(b: Book, call: Command)
    requires SubjectFamily(call) == OrderFamily || SubjectFamily(call) == SettlementFamily
    ensures Step(b, call).book.funds == b.funds && Step(b, call).book.liabilities == b.liabilities
  {
    hide Balance, Transfer, RefundEntry;
  }

  lemma FundCallsKeepCounters(b: Book, call: Command)
    requires CountersLive(b) && SubjectFamily(call) == FundFamily
    ensures CountersLive(Step(b, call).book)
  {
    hide Balance, Transfer;
    var after := Step(b, call).book;
    assert after.liabilities == b.liabilities;
    assert |after.funds| >= |b.funds|;
    assert forall k :: 0 <= k < |b.funds| ==>
                         after.funds[k] == b.funds[k].(funded := after.funds[k].funded,
                                                       reserved := after.funds[k].reserved);
  }

  lemma IssueKeepsCounters(b: Book, id: nat, amount: Money, issuerAnswers: bool, actor: string)
    requires CountersLive(b) && id < |b.liabilities| && b.liabilities[id].fundId < |b.funds|
    ensures CountersLive(IssueResolved(b, id, amount, issuerAnswers, actor).book)
  {
    hide Balance, Transfer;
    var after := IssueResolved(b, id, amount, issuerAnswers, actor).book;
    if after != b {
      assert LiabilityLife(b.liabilities[id], b.funds);
      assert forall k :: 0 <= k < |b.funds| ==> after.funds[k] == b.funds[k].(reserved := after.funds[k].reserved);
      assert forall k :: 0 <= k < |b.liabilities| && k != id ==> after.liabilities[k] == b.liabilities[k];
    }
  }

  lemma RedeemKeepsCounters(b: Book, id: nat, amount: Money, issuerAnswers: bool, actor: string)
    requires CountersLive(b) && id < |b.liabilities|
    ensures CountersLive(RedeemResolved(b, id, amount, issuerAnswers, actor).book)
  {
    hide Balance, Transfer;
    var after := RedeemResolved(b, id, amount, issuerAnswers, actor).book;
    if after != b {
      assert LiabilityLife(b.liabilities[id], b.funds);
      assert forall k :: 0 <= k < |b.liabilities| && k != id ==> after.liabilities[k] == b.liabilities[k];
    }
  }

  lemma BindKeepsCounters(b: Book, call: Command)
    requires CountersLive(b) && (call.Bind? || call.Reconcile?)
    ensures CountersLive(Step(b, call).book)
  {
    hide Balance;
    var after := Step(b, call).book;
    assert after.funds == b.funds;
    if call.Bind? && after != b {
      assert forall k :: 0 <= k < |b.liabilities| ==> b.liabilities[k] in b.liabilities;
      assert LiabilityLife(after.liabilities[|b.liabilities|], b.funds);
      assert forall k :: 0 <= k < |b.liabilities| ==> after.liabilities[k] == b.liabilities[k];
    }
    if call.Reconcile? && after != b {
      assert LiabilityLife(b.liabilities[call.id], b.funds);
      assert forall k :: 0 <= k < |b.liabilities| && k != call.id ==> after.liabilities[k] == b.liabilities[k];
    }
  }

  lemma StepKeepsCounters(b: Book, call: Command)
    requires CountersLive(b)
    ensures CountersLive(Step(b, call).book)
  {
    hide CountersLive, IssueResolved, RedeemResolved;
    match call
    case Bind(_, _, _, _, _) => BindKeepsCounters(b, call);
    case Reconcile(_, _) => BindKeepsCounters(b, call);
    case IssueLoyalty(id, _, minor, units, issuerAnswers, actor) =>
      if id < |b.liabilities| && b.liabilities[id].fundId < |b.funds| {
        var amount := ResolveAmount(b.liabilities[id], minor, units);
        if amount.Ok? { IssueKeepsCounters(b, id, amount.value, issuerAnswers, actor); }
      }
    case RedeemLoyalty(id, _, _, minor, units, issuerAnswers, actor) =>
      if id < |b.liabilities| {
        var amount := ResolveAmount(b.liabilities[id], minor, units);
        if amount.Ok? { RedeemKeepsCounters(b, id, amount.value, issuerAnswers, actor); }
      }
    case _ =>
      if SubjectFamily(call) == FundFamily { FundCallsKeepCounters(b, call); }
      else { OtherCallsKeepCounters(b, call); SameCounters(b, Step(b, call).book); }
  }

  lemma SameCounters(b: Book, after: Book)
    requires CountersLive(b) && after.funds == b.funds && after.liabilities == b.liabilities
    ensures CountersLive(after)
  {
  }

  // ----- Runs

  lemma StepKeeps(b: Book, call: Command)
    requires Inv(b)
    ensures Inv(Step(b, call).book)
  {
    hide Step, PostedBy, LedgerRefines, OrdersLive, SettlementsLive, TransactionsUnique, CountersLive, Posted;
    StepKeepsLedger(b, call);
    StepKeepsOrders(b, call);
    StepKeepsSettlements(b, call);
    StepKeepsTransactions(b, call);
    StepKeepsCounters(b, call);
    StepPosts(b, call);
  }

  lemma LastStep(calls: seq<Command>)
    requires calls != []
    ensures Run(EMPTY, calls) == Step(Run(EMPTY, calls[..|calls| - 1]), calls[|calls| - 1]).book
  {
  }

  lemma RunLast(front: seq<Command>, last: Command)
    ensures Run(EMPTY, front + [last]) == Step(Run(EMPTY, front), last).book
  {
    assert (front + [last])[..|front|] == front;
  }

  /** The same for a caller that need not know whether the invariant held. */
  lemma StepKeepsInv(b: Book, call: Command)
    ensures Inv(b) ==> Inv(Step(b, call).book)
  {
    hide *;
    if Inv(b) { StepKeeps(b, call); }
  }

  lemma {:induction false} RunKeeps(b: Book, calls: seq<Command>)
    requires Inv(b)
    ensures Inv(Run(b, calls))
  {
    hide Inv, Step;
    if calls != [] {
      RunKeeps(b, calls[..|calls| - 1]);
      StepKeeps(Run(b, calls[..|calls| - 1]), calls[|calls| - 1]);
    }
  }

  lemma EmptyInv()
    ensures Inv(EMPTY)
  {
  }

  lemma ReachableInv(b: Book)
    requires Reachable(b)
    ensures Inv(b)
  {
    var calls :| b == Run(EMPTY, calls);
    EmptyInv();
    RunKeeps(EMPTY, calls);
  }
}
