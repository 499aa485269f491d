/** What an entry does to all balances at once. */
module LedgerMoves {
  import opened Results
  import opened Moneys
  import opened Journal
  import opened Entries
  import opened Ledger

  /** In the scope of a program and currency two accounts move by the given amounts; no other balance moves. */
  ghost predicate Shifts(
    log: JournalLog, after: JournalLog, p: string, c: Currency, a1: Account, d1: int, a2: Account, d2: int)
  {
    forall q, a, k :: Balance(after, q, a, k) == Balance(log, q, a, k) + MoveOf(q == p && k == c, a, a1, d1, a2, d2)
  }

  function MoveOf(inScope: bool, a: Account, a1: Account, d1: int, a2: Account, d2: int): int {
    if !inScope then 0 else if a == a1 then d1 else if a == a2 then d2 else 0
  }

  lemma TransferShifts(
    log: JournalLog, after: JournalLog, debit: Account, credit: Account, m: Money, refs: References)
    requires debit != credit && TypeOf(debit).Some? && TypeOf(credit).Some?
    requires Transfer(debit, credit, m, refs).Ok?
    requires after == log + [Transfer(debit, credit, m, refs).value]
    ensures Shifts(log, after, refs.programId, m.currency,
                   debit, if DebitNormal(debit) then m.minor else -m.minor,
                   credit, if DebitNormal(credit) then -m.minor else m.minor)
  {
    var d1 := if DebitNormal(debit) then m.minor else -m.minor;
    var d2 := if DebitNormal(credit) then -m.minor else m.minor;
    var e := Transfer(debit, credit, m, refs).value;
    hide Transfer, Balance;
    forall q, a, k
      ensures Balance(after, q, a, k)
           == Balance(log, q, a, k) + MoveOf(q == refs.programId && k == m.currency, a, debit, d1, credit, d2)
    {
      BalanceAppendTransfer(log, e, debit, credit, m, refs, q, a, k);
    }
  }

  /** Cash grows on the debit side, all that is owed on the credit side. */
  lemma Sides()
    ensures DebitNormal(TrusteeBankCash)
    ensures !DebitNormal(UnmatchedDeposit) && !DebitNormal(ReserveObligation)
    ensures !DebitNormal(PendingMint) && !DebitNormal(PendingRedemption)
    ensures !DebitNormal(MerchantPayable) && !DebitNormal(ProgramFund) && !DebitNormal(LoyaltyStablecoin)
    ensures TypeOf(TrusteeBankCash).Some? && TypeOf(UnmatchedDeposit).Some? && TypeOf(ReserveObligation).Some?
    ensures TypeOf(PendingMint).Some? && TypeOf(PendingRedemption).Some?
    ensures TypeOf(MerchantPayable).Some? && TypeOf(ProgramFund).Some? && TypeOf(LoyaltyStablecoin).Some?
  {
  }

  /** A template is refused exactly for an amount that is not positive. */
  lemma TransferAccepts(debit: Account, credit: Account, m: Money, refs: References)
    requires TypeOf(debit).Some? && TypeOf(credit).Some?
    ensures Transfer(debit, credit, m, refs).Ok? <==> m.minor > 0
  {
    TransferSpec(debit, credit, m, refs);
  }

  lemma {:induction false} FirstFaultKind(ps: seq<Posting>, c: Currency, i: nat)
    requires i <= |ps|
    ensures var f := FirstFault(ps, c, i); f.Some? ==> f.value.InvalidPosting? || f.value.UnknownAccount?
    decreases |ps| - i
  {
    if i < |ps| { FirstFaultKind(ps, c, i + 1); }
  }

  /** The engine never says that something is missing, taken or forbidden. */
  lemma EngineFaults()
    ensures forall input :: Build(input).Err? ==> Build(input).fault !in {NotFound, Conflict, Forbidden}
  {
    forall input | Build(input).Err? ensures Build(input).fault !in {NotFound, Conflict, Forbidden} {
      FirstFaultKind(input.postings, input.currency, 0);
      hide FirstFault;
    }
  }
}
