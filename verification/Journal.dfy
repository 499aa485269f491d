/** The double-entry journal engine: building, reversing and reading one entry. */
module Journal {
  import opened Results
  import opened Moneys

  datatype AccountType = Asset | Liability | Income | Expense | Suspense

  /** The chart of accounts; `Unlisted` is a code outside the chart. */
  datatype Account =
    | TrusteeBankCash
    | PaychainReserveCash
    | SettlementReceivable
    | RedemptionReceivable
    | ReserveObligation
    | PendingMint
    | PendingRedemption
    | UnmatchedDeposit
    | MerchantPayable
    | CashbackProgram
    | GiftCardFloat
    | CustomerSafeguarding
    | ProgramFund
    | LoyaltyStablecoin
    | TrusteeFee
    | BankCharge
    | UnreconciledItem
    | Unlisted(code: string)

  /** What stands before the first colon decides the type. */
  function TypeOfCode(code: string): Option<AccountType> {
    if code == "ASSET" || "ASSET:" <= code then Some(Asset)
    else if code == "LIABILITY" || "LIABILITY:" <= code then Some(Liability)
    else if code == "INCOME" || "INCOME:" <= code then Some(Income)
    else if code == "EXPENSE" || "EXPENSE:" <= code then Some(Expense)
    else if code == "SUSPENSE" || "SUSPENSE:" <= code then Some(Suspense)
    else None
  }

  function TypeOf(a: Account): Option<AccountType> {
    match a
    case TrusteeBankCash | PaychainReserveCash | SettlementReceivable | RedemptionReceivable => Some(Asset)
    case ReserveObligation | PendingMint | PendingRedemption | UnmatchedDeposit => Some(Liability)
    case MerchantPayable | CashbackProgram | GiftCardFloat | CustomerSafeguarding => Some(Liability)
    case ProgramFund | LoyaltyStablecoin => Some(Liability)
    case TrusteeFee => Some(Income)
    case BankCharge => Some(Expense)
    case UnreconciledItem => Some(Suspense)
    case Unlisted(code) => TypeOfCode(code)
  }

  /** The code of an account, as it is stored with a posting. */
  function CodeOf(a: Account): string {
    match a
    case TrusteeBankCash => "ASSET:" + "TRUSTEE_BANK_CASH"
    case PaychainReserveCash => "ASSET:" + "PAYCHAIN_RESERVE_CASH"
    case SettlementReceivable => "ASSET:" + "SETTLEMENT_RECEIVABLE"
    case RedemptionReceivable => "ASSET:" + "REDEMPTION_RECEIVABLE"
    case ReserveObligation => "LIABILITY:" + "PAYCHAIN_RESERVE_OBLIGATION"
    case PendingMint => "LIABILITY:" + "PENDING_MINT"
    case PendingRedemption => "LIABILITY:" + "PENDING_REDEMPTION"
    case UnmatchedDeposit => "LIABILITY:" + "UNMATCHED_DEPOSIT"
    case MerchantPayable => "LIABILITY:" + "PAYKH_MERCHANT_PAYABLE"
    case CashbackProgram => "LIABILITY:" + "PAYKH_CASHBACK_PROGRAM"
    case GiftCardFloat => "LIABILITY:" + "PAYKH_GIFT_CARD_FLOAT"
    case CustomerSafeguarding => "LIABILITY:" + "PAYKH_CUSTOMER_SAFEGUARDING"
    case ProgramFund => "LIABILITY:" + "PAYKH_PROGRAM_FUND"
    case LoyaltyStablecoin => "LIABILITY:" + "PAYKH_LOYALTY_STABLECOIN"
    case TrusteeFee => "INCOME:" + "TRUSTEE_FEE"
    case BankCharge => "EXPENSE:" + "BANK_CHARGE"
    case UnreconciledItem => "SUSPENSE:" + "UNRECONCILED_ITEM"
    case Unlisted(code) => code
  }

  lemma PrefixDecides(rest: string)
    ensures TypeOfCode("ASSET:" + rest) == Some(Asset) && TypeOfCode("LIABILITY:" + rest) == Some(Liability)
    ensures TypeOfCode("INCOME:" + rest) == Some(Income) && TypeOfCode("EXPENSE:" + rest) == Some(Expense)
    ensures TypeOfCode("SUSPENSE:" + rest) == Some(Suspense)
  {
    assert ("ASSET:" + rest)[0] == 'A' && ("LIABILITY:" + rest)[0] == 'L' && ("INCOME:" + rest)[0] == 'I';
    assert ("EXPENSE:" + rest)[0] == 'E' && ("SUSPENSE:" + rest)[0] == 'S';
    assert "ASSET"[0] == 'A' && "LIABILITY"[0] == 'L' && "INCOME"[0] == 'I' && "EXPENSE"[0] == 'E';
    assert "ASSET:"[0] == 'A' && "LIABILITY:"[0] == 'L' && "INCOME:"[0] == 'I' && "EXPENSE:"[0] == 'E';
    assert "ASSET:" <= "ASSET:" + rest && "LIABILITY:" <= "LIABILITY:" + rest && "INCOME:" <= "INCOME:" + rest;
    assert "EXPENSE:" <= "EXPENSE:" + rest && "SUSPENSE:" <= "SUSPENSE:" + rest;
  }

  /** The type of a listed account is the one its code spells. */
  lemma TypeIsPrefix(a: Account)
    ensures TypeOf(a) == TypeOfCode(CodeOf(a))
  {
    match a
    case TrusteeBankCash => PrefixDecides("TRUSTEE_BANK_CASH");
    case PaychainReserveCash => PrefixDecides("PAYCHAIN_RESERVE_CASH");
    case SettlementReceivable => PrefixDecides("SETTLEMENT_RECEIVABLE");
    case RedemptionReceivable => PrefixDecides("REDEMPTION_RECEIVABLE");
    case ReserveObligation => PrefixDecides("PAYCHAIN_RESERVE_OBLIGATION");
    case PendingMint => PrefixDecides("PENDING_MINT");
    case PendingRedemption => PrefixDecides("PENDING_REDEMPTION");
    case UnmatchedDeposit => PrefixDecides("UNMATCHED_DEPOSIT");
    case MerchantPayable => PrefixDecides("PAYKH_MERCHANT_PAYABLE");
    case CashbackProgram => PrefixDecides("PAYKH_CASHBACK_PROGRAM");
    case GiftCardFloat => PrefixDecides("PAYKH_GIFT_CARD_FLOAT");
    case CustomerSafeguarding => PrefixDecides("PAYKH_CUSTOMER_SAFEGUARDING");
    case ProgramFund => PrefixDecides("PAYKH_PROGRAM_FUND");
    case LoyaltyStablecoin => PrefixDecides("PAYKH_LOYALTY_STABLECOIN");
    case TrusteeFee => PrefixDecides("TRUSTEE_FEE");
    case BankCharge => PrefixDecides("BANK_CHARGE");
    case UnreconciledItem => PrefixDecides("UNRECONCILED_ITEM");
    case Unlisted(_) =>
  }

  predicate DebitNormal(a: Account) {
    TypeOf(a) == Some(Asset) || TypeOf(a) == Some(Expense)
  }

  /** Where an entry comes from: the text `kind:id`, as a pair. */
  datatype SourceKind =
    | DepositDetected | DepositClear
    | MintAuth | MintRevoke | MintConfirm | MintExpire
    | RedemptionApproved | RedemptionPayout
    | PaykhOrder | PaykhRefund | PaykhSettlement | PaykhFund | LoyaltyIssue | LoyaltyRedeem
  datatype Source = Source(kind: SourceKind, id: nat)

  datatype Posting = Posting(account: Account, debit: Money, credit: Money)
  datatype References = References(source: Source, programId: string, actor: string)
  datatype EntryInput = EntryInput(currency: Currency, postings: seq<Posting>, references: References)
  datatype Entry = Entry(
    currency: Currency,
    postings: seq<Posting>,
    references: References,
    totalDebit: Money,
    totalCredit: Money,
    reversalOf: Option<Source>)

  // ----- Building an entry

  predicate WellFormedAmounts(p: Posting, c: Currency) {
    && p.debit.currency == c && p.credit.currency == c
    && p.debit.minor >= 0 && p.credit.minor >= 0
    && (p.debit.minor > 0 <==> p.credit.minor == 0)
  }

  predicate WellFormed(p: Posting, c: Currency) {
    WellFormedAmounts(p, c) && TypeOf(p.account).Some?
  }

  function Debits(ps: seq<Posting>): int {
    if ps == [] then 0 else Debits(ps[..|ps| - 1]) + ps[|ps| - 1].debit.minor
  }

  function Credits(ps: seq<Posting>): int {
    if ps == [] then 0 else Credits(ps[..|ps| - 1]) + ps[|ps| - 1].credit.minor
  }

  /** What the engine accepts: at least two well-formed postings that balance. */
  ghost predicate Acceptable(input: EntryInput) {
    && |input.postings| >= 2
    && (forall i :: 0 <= i < |input.postings| ==> WellFormed(input.postings[i], input.currency))
    && Debits(input.postings) == Credits(input.postings)
  }

  /** The fault of the first malformed posting at or after `i`. */
  function FirstFault(ps: seq<Posting>, c: Currency, i: nat): (f: Option<Fault>)
    requires i <= |ps|
    ensures f.None? <==> forall k :: i <= k < |ps| ==> WellFormed(ps[k], c)
    decreases |ps| - i
  {
    if i == |ps| then None
    else if !WellFormedAmounts(ps[i], c) then Some(InvalidPosting(i))
    else if TypeOf(ps[i].account).None? then Some(UnknownAccount)
    else FirstFault(ps, c, i + 1)
  }

  function Build(input: EntryInput): (r: Result<Entry>)
    ensures r.Ok? <==> Acceptable(input)
  {
    var d, k := Debits(input.postings), Credits(input.postings);
    if |input.postings| < 2 then Err(TooFewPostings)
    else match FirstFault(input.postings, input.currency, 0)
      case Some(fault) => Err(fault)
      case None =>
        if d != k then Err(UnbalancedJournal(d, k))
        else Ok(Entry(input.currency, input.postings, input.references,
                      Money(d, input.currency), Money(k, input.currency), None))
  }

  /** The loop of the engine: it stops at the first malformed posting, then checks the balance. */
  method BuildJournalEntry(input: EntryInput) returns (r: Result<Entry>)
    ensures r == Build(input)
    ensures r.Ok? <==> Acceptable(input)
  {
    var ps := input.postings;
    if |ps| < 2 {
      return Err(TooFewPostings);
    }
    var totalDebit, totalCredit := Zero(input.currency), Zero(input.currency);
    var i := 0;
    while i < |ps|
      invariant 0 <= i <= |ps|
      invariant totalDebit == Money(Debits(ps[..i]), input.currency)
      invariant totalCredit == Money(Credits(ps[..i]), input.currency)
      invariant FirstFault(ps, input.currency, 0) == FirstFault(ps, input.currency, i)
    {
      var p := ps[i];
      if p.debit.currency != input.currency || p.credit.currency != input.currency {
        return Err(InvalidPosting(i));
      }
      if p.debit.minor < 0 || p.credit.minor < 0 {
        return Err(InvalidPosting(i));
      }
      if p.debit.minor > 0 && p.credit.minor > 0 {
        return Err(InvalidPosting(i));
      }
      if p.debit.minor == 0 && p.credit.minor == 0 {
        return Err(InvalidPosting(i));
      }
      if TypeOf(p.account).None? {
        return Err(UnknownAccount);
      }
      totalDebit := Money(totalDebit.minor + p.debit.minor, totalDebit.currency);
      totalCredit := Money(totalCredit.minor + p.credit.minor, totalCredit.currency);
      assert ps[..i + 1][..i] == ps[..i];
      i := i + 1;
    }
    assert ps[..|ps|] == ps;
    if totalDebit.minor - totalCredit.minor != 0 {
      return Err(UnbalancedJournal(totalDebit.minor, totalCredit.minor));
    }
    r := Ok(Entry(input.currency, ps, input.references, totalDebit, totalCredit, None));
  }

  /** An entry the engine has built, possibly as a reversal. */
  ghost predicate Posted(e: Entry) {
    var built := Build(EntryInput(e.currency, e.postings, e.references));
    built.Ok? && e == built.value.(reversalOf := e.reversalOf)
  }

  // ----- Reading an entry

  /** Signed effect of one posting on an account, by the account's normal side. */
  function Signed(p: Posting, a: Account): int {
    if p.account != a then 0
    else if DebitNormal(a) then p.debit.minor - p.credit.minor
    else p.credit.minor - p.debit.minor
  }

  function Effect(ps: seq<Posting>, a: Account): int {
    if ps == [] then 0 else Effect(ps[..|ps| - 1], a) + Signed(ps[|ps| - 1], a)
  }

  method AccountEffect(e: Entry, a: Account) returns (r: Result<Money>)
    requires Posted(e)
    ensures r == if TypeOf(a).None? then Err(UnknownAccount) else Ok(Money(Effect(e.postings, a), e.currency))
  {
    if TypeOf(a).None? {
      return Err(UnknownAccount);
    }
    var debitPositive := DebitNormal(a);
    var net := Zero(e.currency);
    var i := 0;
    while i < |e.postings|
      invariant 0 <= i <= |e.postings|
      invariant net == Money(Effect(e.postings[..i], a), e.currency)
    {
      var p := e.postings[i];
      assert e.postings[..i + 1][..i] == e.postings[..i];
      i := i + 1;
      if p.account != a {
        continue;
      }
      var delta := if debitPositive then p.debit.minor - p.credit.minor else p.credit.minor - p.debit.minor;
      net := Money(net.minor + delta, net.currency);
    }
    assert e.postings[..|e.postings|] == e.postings;
    r := Ok(net);
  }

  /** Debits raise what is owned and spent, credits all else; no other account is touched. */
  lemma NormalSide(p: Posting, a: Account)
    ensures TypeOf(a) in {Some(Asset), Some(Expense)} ==>
              Effect([p], a) == if a == p.account then p.debit.minor - p.credit.minor else 0
    ensures TypeOf(a) !in {Some(Asset), Some(Expense)} ==>
              Effect([p], a) == if a == p.account then p.credit.minor - p.debit.minor else 0
  {
    hide TypeOf;
    assert [p][..0] == [];
  }

  // ----- Reversing an entry

  function Swapped(p: Posting): Posting {
    Posting(p.account, p.credit, p.debit)
  }

  function SwapAll(ps: seq<Posting>): seq<Posting> {
    seq(|ps|, i requires 0 <= i < |ps| => Swapped(ps[i]))
  }

  /** The compensating entry: the same postings with their sides swapped. */
  function Reverse(e: Entry, source: Source, actor: string): Result<Entry> {
    var built :- Build(EntryInput(e.currency, SwapAll(e.postings), References(source, e.references.programId, actor)));
    Ok(built.(reversalOf := Some(e.references.source)))
  }

  lemma {:induction false} SwapAllTotals(ps: seq<Posting>)
    ensures Debits(SwapAll(ps)) == Credits(ps) && Credits(SwapAll(ps)) == Debits(ps)
  {
    if ps != [] {
      var n := |ps| - 1;
      assert SwapAll(ps)[..n] == SwapAll(ps[..n]);
      SwapAllTotals(ps[..n]);
    }
  }

  lemma {:induction false} SwapAllEffect(ps: seq<Posting>, a: Account)
    ensures Effect(SwapAll(ps), a) == -Effect(ps, a)
  {
    if ps != [] {
      var n := |ps| - 1;
      assert SwapAll(ps)[..n] == SwapAll(ps[..n]);
      SwapAllEffect(ps[..n], a);
    }
  }

  /** Reversing a posted entry always succeeds, cancels it on every account, and is undone by reversing again. */
  lemma ReverseCancels(e: Entry, source: Source, actor: string)
    requires Posted(e)
    ensures var r := Reverse(e, source, actor);
            && r.Ok?
            && Posted(r.value)
            && r.value.reversalOf == Some(e.references.source)
            && (forall a :: Effect(r.value.postings, a) == -Effect(e.postings, a))
            && (forall s, who :: Reverse(r.value, s, who).Ok? && Reverse(r.value, s, who).value.postings == e.postings)
  {
    SwapAllTotals(e.postings);
    var r := Reverse(e, source, actor).value;
    forall a ensures Effect(r.postings, a) == -Effect(e.postings, a) {
      SwapAllEffect(e.postings, a);
    }
    SwapAllTotals(r.postings);
    assert SwapAll(r.postings) == e.postings;
    forall s, who
      ensures Reverse(r, s, who).Ok? && Reverse(r, s, who).value.postings == e.postings
    {
    }
  }

  /** An entry and its reversal have no net effect: together they leave every account where it was. */
  lemma ReversalIsNeutral(e: Entry, source: Source, actor: string, a: Account)
    requires Posted(e)
    ensures Reverse(e, source, actor).Ok?
    ensures Effect(e.postings + Reverse(e, source, actor).value.postings, a) == 0
  {
    ReverseCancels(e, source, actor);
    EffectConcat(e.postings, Reverse(e, source, actor).value.postings, a);
  }

  lemma {:induction false} EffectConcat(p: seq<Posting>, q: seq<Posting>, a: Account)
    ensures Effect(p + q, a) == Effect(p, a) + Effect(q, a)
  {
    if q == [] {
      assert p + q == p;
    } else {
      assert (p + q)[..|p + q| - 1] == p + q[..|q| - 1];
      EffectConcat(p, q[..|q| - 1], a);
    }
  }
}
