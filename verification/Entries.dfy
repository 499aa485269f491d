/** The standard two-posting templates of the reserve and PayKH subledgers. */
module Entries {
  import opened Results
  import opened Moneys
  import opened Journal

  function DebitOf(a: Account, amount: Money): Posting {
    Posting(a, amount, Zero(amount.currency))
  }

  function CreditOf(a: Account, amount: Money): Posting {
    Posting(a, Zero(amount.currency), amount)
  }

  /** Every template debits one account and credits another with one amount. */
  function Transfer(debit: Account, credit: Account, amount: Money, references: References): Result<Entry> {
    Build(EntryInput(amount.currency, [DebitOf(debit, amount), CreditOf(credit, amount)], references))
  }

  function DetectedDepositEntry(amount: Money, references: References): Result<Entry> {
    Transfer(TrusteeBankCash, UnmatchedDeposit, amount, references)
  }

  function ClearedReclassEntry(amount: Money, references: References): Result<Entry> {
    Transfer(UnmatchedDeposit, ReserveObligation, amount, references)
  }

  function ClearedDepositEntry(amount: Money, references: References): Result<Entry> {
    Transfer(TrusteeBankCash, ReserveObligation, amount, references)
  }

  function MintReservationEntry(amount: Money, references: References): Result<Entry> {
    Transfer(ReserveObligation, PendingMint, amount, references)
  }

  function MintReleaseEntry(amount: Money, references: References): Result<Entry> {
    Transfer(PendingMint, ReserveObligation, amount, references)
  }

  function RedemptionObligationEntry(amount: Money, references: References): Result<Entry> {
    Transfer(ReserveObligation, PendingRedemption, amount, references)
  }

  function PayoutConfirmedEntry(amount: Money, references: References): Result<Entry> {
    Transfer(PendingRedemption, TrusteeBankCash, amount, references)
  }

  function PaymentCollectionEntry(amount: Money, references: References): Result<Entry> {
    Transfer(TrusteeBankCash, MerchantPayable, amount, references)
  }

  function MerchantSettlementEntry(amount: Money, references: References): Result<Entry> {
    Transfer(MerchantPayable, TrusteeBankCash, amount, references)
  }

  function ProgramFundingEntry(amount: Money, references: References): Result<Entry> {
    Transfer(TrusteeBankCash, ProgramFund, amount, references)
  }

  function LoyaltyIssuanceEntry(amount: Money, references: References): Result<Entry> {
    Transfer(ProgramFund, LoyaltyStablecoin, amount, references)
  }

  function LoyaltyRedemptionEntry(amount: Money, references: References): Result<Entry> {
    Transfer(LoyaltyStablecoin, MerchantPayable, amount, references)
  }

  /** `e` moves `amount` from one account to the other, on behalf of `source` in `programId`. */
  predicate Moves(e: Entry, source: Source, programId: string, debit: Account, credit: Account, amount: Money) {
    && e.references.source == source
    && e.references.programId == programId
    && e.currency == amount.currency
    && e.postings == [DebitOf(debit, amount), CreditOf(credit, amount)]
    && e.reversalOf == None
  }

  /** The signed effect of debiting `debit` and crediting `credit` with `m`. */
  function TransferEffect(debit: Account, credit: Account, m: int, a: Account): int {
    (if a != debit then 0 else if DebitNormal(a) then m else -m) +
    (if a != credit then 0 else if DebitNormal(a) then -m else m)
  }

  lemma PairTotals(p: Posting, q: Posting)
    ensures Debits([p, q]) == p.debit.minor + q.debit.minor
    ensures Credits([p, q]) == p.credit.minor + q.credit.minor
    ensures forall a :: Effect([p, q], a) == Signed(p, a) + Signed(q, a)
  {
    var ps := [p, q];
    assert ps[..1] == [p] && [p][..0] == [];
    assert Debits([p]) == p.debit.minor && Credits([p]) == p.credit.minor;
    forall a ensures Effect(ps, a) == Signed(p, a) + Signed(q, a) {
      assert Effect([p], a) == Signed(p, a);
    }
  }

  /** A template is accepted exactly for positive amounts, and then does what its name says. */
  lemma TransferSpec(debit: Account, credit: Account, amount: Money, references: References)
    requires TypeOf(debit).Some? && TypeOf(credit).Some?
    ensures var r := Transfer(debit, credit, amount, references);
            && (r.Ok? <==> amount.minor > 0)
            && (r.Ok? ==>
                  && Posted(r.value)
                  && Moves(r.value, references.source, references.programId, debit, credit, amount)
                  && r.value.references == references
                  && forall a :: Effect(r.value.postings, a) == TransferEffect(debit, credit, amount.minor, a))
  {
    var ps := [DebitOf(debit, amount), CreditOf(credit, amount)];
    PairTotals(ps[0], ps[1]);
    if amount.minor <= 0 {
      assert !WellFormed(ps[0], amount.currency);
    }
  }

  /** Booking a deposit as cleared at once comes to the same as booking it as detected and then clearing it. */
  lemma ClearedAtOnce(amount: Money, references: References, a: Account)
    requires amount.minor > 0
    ensures ClearedDepositEntry(amount, references).Ok?
    ensures DetectedDepositEntry(amount, references).Ok? && ClearedReclassEntry(amount, references).Ok?
    ensures Effect(ClearedDepositEntry(amount, references).value.postings, a)
         == Effect(DetectedDepositEntry(amount, references).value.postings, a)
            + Effect(ClearedReclassEntry(amount, references).value.postings, a)
  {
    TransferSpec(TrusteeBankCash, ReserveObligation, amount, references);
    TransferSpec(TrusteeBankCash, UnmatchedDeposit, amount, references);
    TransferSpec(UnmatchedDeposit, ReserveObligation, amount, references);
  }
}
