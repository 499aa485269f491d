/** The reserve always covers the supply: statements over whole runs of the reserve book. */
module FullReserve {
  import opened Results
  import opened Moneys
  import opened Sums
  import opened Journal
  import opened Entries
  import opened Ledger
  import opened Traces
  import opened ReserveCalculation
  import opened MintGuard
  import opened ReserveBook
  import opened ReserveInvariants

  // ----- Totals of the records of one program in one currency

  function BookedWeight(p: string, c: Currency): Deposit -> int {
    (d: Deposit) => if d.programId == p && d.currency == c && d.amount > 0 then d.amount else 0
  }

  function UnmatchedWeight(p: string, c: Currency): Deposit -> int {
    (d: Deposit) =>
      if d.programId == p && d.currency == c && d.amount > 0 && (d.status == DETECTED || d.status == MATCHED)
      then d.amount else 0
  }

  function ClearedWeight(p: string, c: Currency): Deposit -> int {
    (d: Deposit) => if d.programId == p && d.currency == c && d.status == CLEARED then d.amount else 0
  }

  function HeldWeight(p: string, c: Currency): Auth -> int {
    (a: Auth) => if a.programId == p && a.currency == c && a.hold == Held then a.amount else 0
  }

  function IssuedWeight(p: string, c: Currency): Auth -> int {
    (a: Auth) => if a.programId == p && a.currency == c && a.status == ISSUED then a.amount else 0
  }

  function MintedWeight(p: string, c: Currency): Auth -> int {
    (a: Auth) =>
      if a.programId == p && a.currency == c && a.confirmation.Some? then a.confirmation.value.amount else 0
  }

  function RedemptionWeight(p: string, c: Currency, counted: RedemptionStatus -> bool): Redemption -> int {
    (r: Redemption) => if r.programId == p && r.currency == c && counted(r.status) then r.amount else 0
  }

  const EVER_APPROVED: RedemptionStatus -> bool := (s: RedemptionStatus) => EverApproved(s)
  const BURNED: RedemptionStatus -> bool := (s: RedemptionStatus) => Burned(s)
  const UNPAID_BURN: RedemptionStatus -> bool := (s: RedemptionStatus) => Burned(s) && s != COMPLETED
  const UNPAID: RedemptionStatus -> bool := (s: RedemptionStatus) => EverApproved(s) && s != COMPLETED
  const PAID: RedemptionStatus -> bool := (s: RedemptionStatus) => s == COMPLETED

  function BookedDeposits(b: Book, p: string, c: Currency): int { RowSum(b.deposits, BookedWeight(p, c)) }
  function UnmatchedDeposits(b: Book, p: string, c: Currency): int { RowSum(b.deposits, UnmatchedWeight(p, c)) }
  function ClearedDeposits(b: Book, p: string, c: Currency): int { RowSum(b.deposits, ClearedWeight(p, c)) }
  function HeldMints(b: Book, p: string, c: Currency): int { RowSum(b.auths, HeldWeight(p, c)) }
  function IssuedMints(b: Book, p: string, c: Currency): int { RowSum(b.auths, IssuedWeight(p, c)) }
  function ConfirmedMints(b: Book, p: string, c: Currency): int { RowSum(b.auths, MintedWeight(p, c)) }

  function Redemptions(b: Book, p: string, c: Currency, counted: RedemptionStatus -> bool): int {
    RowSum(b.redemptions, RedemptionWeight(p, c, counted))
  }

  /** The true on-chain supply: what was confirmed minted less what was confirmed burned. */
  function Supply(b: Book, p: string, c: Currency): int {
    ConfirmedMints(b, p, c) - Redemptions(b, p, c, BURNED)
  }

  // ----- The ledger account by account

  /** In every reachable state each balance of the reserve ledger is the total of the records behind it. */
  lemma LedgerMeansRecords(b: Book, p: string, c: Currency)
    requires Inv(b)
    ensures Balance(b.journal, p, TrusteeBankCash, c) == BookedDeposits(b, p, c) - Redemptions(b, p, c, PAID)
    ensures Balance(b.journal, p, UnmatchedDeposit, c) == UnmatchedDeposits(b, p, c)
    ensures Balance(b.journal, p, PendingMint, c) == HeldMints(b, p, c)
    ensures Balance(b.journal, p, PendingRedemption, c) == Redemptions(b, p, c, UNPAID)
    ensures Balance(b.journal, p, ReserveObligation, c)
         == ClearedDeposits(b, p, c) - HeldMints(b, p, c) - Redemptions(b, p, c, EVER_APPROVED)
    ensures BookedDeposits(b, p, c) == UnmatchedDeposits(b, p, c) + ClearedDeposits(b, p, c)
  {
    hide Balance, RowSum, AuthsLive, RedemptionsLive, AllPosted;
    DepositTotals(b, p, c);
    AuthTotals(b, p, c);
    RedemptionTotals(b, p, c);
  }

  lemma DepositTotals(b: Book, p: string, c: Currency)
    requires DepositsLive(b)
    ensures RowSum(b.deposits, DepositShare(p, TrusteeBankCash, c)) == BookedDeposits(b, p, c)
    ensures RowSum(b.deposits, DepositShare(p, UnmatchedDeposit, c)) == UnmatchedDeposits(b, p, c)
    ensures RowSum(b.deposits, DepositShare(p, ReserveObligation, c)) == ClearedDeposits(b, p, c)
    ensures RowSum(b.deposits, DepositShare(p, PendingMint, c)) == 0
    ensures RowSum(b.deposits, DepositShare(p, PendingRedemption, c)) == 0
    ensures BookedDeposits(b, p, c) == UnmatchedDeposits(b, p, c) + ClearedDeposits(b, p, c)
  {
    assert forall i :: 0 <= i < |b.deposits| ==> DepositLife(b.deposits[i], i, Trace(b.journal, DepositFamily, i));
    RowSumScaled(b.deposits, DepositShare(p, TrusteeBankCash, c), BookedWeight(p, c), 1);
    RowSumScaled(b.deposits, DepositShare(p, UnmatchedDeposit, c), UnmatchedWeight(p, c), 1);
    RowSumScaled(b.deposits, DepositShare(p, ReserveObligation, c), ClearedWeight(p, c), 1);
    RowSumScaled(b.deposits, DepositShare(p, PendingMint, c), BookedWeight(p, c), 0);
    RowSumScaled(b.deposits, DepositShare(p, PendingRedemption, c), BookedWeight(p, c), 0);
    RowSumSplit(b.deposits, BookedWeight(p, c), UnmatchedWeight(p, c), ClearedWeight(p, c));
  }

  lemma AuthTotals(b: Book, p: string, c: Currency)
    ensures RowSum(b.auths, AuthShare(p, PendingMint, c)) == HeldMints(b, p, c)
    ensures RowSum(b.auths, AuthShare(p, ReserveObligation, c)) == -HeldMints(b, p, c)
    ensures RowSum(b.auths, AuthShare(p, TrusteeBankCash, c)) == 0
    ensures RowSum(b.auths, AuthShare(p, UnmatchedDeposit, c)) == 0
    ensures RowSum(b.auths, AuthShare(p, PendingRedemption, c)) == 0
  {
    RowSumScaled(b.auths, AuthShare(p, PendingMint, c), HeldWeight(p, c), 1);
    RowSumScaled(b.auths, AuthShare(p, ReserveObligation, c), HeldWeight(p, c), -1);
    RowSumScaled(b.auths, AuthShare(p, TrusteeBankCash, c), HeldWeight(p, c), 0);
    RowSumScaled(b.auths, AuthShare(p, UnmatchedDeposit, c), HeldWeight(p, c), 0);
    RowSumScaled(b.auths, AuthShare(p, PendingRedemption, c), HeldWeight(p, c), 0);
  }

  lemma RedemptionTotals(b: Book, p: string, c: Currency)
    ensures RowSum(b.redemptions, RedemptionShare(p, TrusteeBankCash, c)) == -Redemptions(b, p, c, PAID)
    ensures RowSum(b.redemptions, RedemptionShare(p, PendingRedemption, c)) == Redemptions(b, p, c, UNPAID)
    ensures RowSum(b.redemptions, RedemptionShare(p, ReserveObligation, c)) == -Redemptions(b, p, c, EVER_APPROVED)
    ensures RowSum(b.redemptions, RedemptionShare(p, PendingMint, c)) == 0
    ensures RowSum(b.redemptions, RedemptionShare(p, UnmatchedDeposit, c)) == 0
    ensures Redemptions(b, p, c, EVER_APPROVED) == Redemptions(b, p, c, UNPAID) + Redemptions(b, p, c, PAID)
    ensures Redemptions(b, p, c, BURNED) == Redemptions(b, p, c, UNPAID_BURN) + Redemptions(b, p, c, PAID)
  {
    RowSumScaled(b.redemptions, RedemptionShare(p, TrusteeBankCash, c), RedemptionWeight(p, c, PAID), -1);
    RowSumScaled(b.redemptions, RedemptionShare(p, PendingRedemption, c), RedemptionWeight(p, c, UNPAID), 1);
    RowSumScaled(b.redemptions, RedemptionShare(p, ReserveObligation, c), RedemptionWeight(p, c, EVER_APPROVED), -1);
    RowSumScaled(b.redemptions, RedemptionShare(p, PendingMint, c), RedemptionWeight(p, c, PAID), 0);
    RowSumScaled(b.redemptions, RedemptionShare(p, UnmatchedDeposit, c), RedemptionWeight(p, c, PAID), 0);
    RowSumSplit(b.redemptions, RedemptionWeight(p, c, EVER_APPROVED), RedemptionWeight(p, c, UNPAID),
                RedemptionWeight(p, c, PAID));
    RowSumSplit(b.redemptions, RedemptionWeight(p, c, BURNED), RedemptionWeight(p, c, UNPAID_BURN),
                RedemptionWeight(p, c, PAID));
  }

  /** More redemptions are approved than are burned, and none of these totals is negative. */
  lemma TotalsOrdered(b: Book, p: string, c: Currency)
    requires Inv(b)
    ensures 0 <= HeldMints(b, p, c)
    ensures Redemptions(b, p, c, BURNED) <= Redemptions(b, p, c, EVER_APPROVED)
  {
    assert forall i :: 0 <= i < |b.auths| ==>
                         AuthLife(b.auths[i], i, b.programs, Trace(b.journal, MintFamily, i));
    assert forall i :: 0 <= i < |b.redemptions| ==>
                         RedemptionLife(b.redemptions[i], i, b.programs, Trace(b.journal, RedemptionFamily, i));
    RowSumNonNegative(b.auths, HeldWeight(p, c));
    RowSumMonotone(b.redemptions, RedemptionWeight(p, c, BURNED), RedemptionWeight(p, c, EVER_APPROVED));
  }

  // ----- Full reserve

  /** Matched cash covers the supply, the mints under way and the burned redemptions still to be paid. */
  predicate FullyReserved(b: Book, p: string, c: Currency) {
    Balance(b.journal, p, TrusteeBankCash, c) - Balance(b.journal, p, UnmatchedDeposit, c)
    >= Supply(b, p, c) + Balance(b.journal, p, PendingMint, c) + Redemptions(b, p, c, UNPAID_BURN)
  }

  /** Cleared deposits not yet used by a confirmed or a held mint. */
  function Headroom(b: Book, p: string, c: Currency): int {
    ClearedDeposits(b, p, c) - ConfirmedMints(b, p, c) - HeldMints(b, p, c)
  }

  /** Redemptions cancel out of the reserve equation: full reserve is non-negative headroom. */
  lemma FullReserveIsHeadroom(b: Book, p: string, c: Currency)
    requires Inv(b)
    ensures FullyReserved(b, p, c) <==> Headroom(b, p, c) >= 0
  {
    LedgerMeansRecords(b, p, c);
    RedemptionTotals(b, p, c);
  }

  function AdjustmentsActive(b: Book, p: string, c: Currency): int {
    AdjustmentTotal(b, p, c, RESTRICTED) + AdjustmentTotal(b, p, c, BANK_CHARGE)
    + AdjustmentTotal(b, p, c, REGULATORY_HOLD) + AdjustmentTotal(b, p, c, OPERATIONAL)
  }

  /** The safety buffer kept on an obligation, in basis points of it. */
  function BufferOn(obligation: int, bps: int): int {
    TruncDiv(obligation * bps, 10000)
  }

  /** The position over the balances: both clamps, and no failure but a negative buffer rate. */
  lemma PositionOverBalances(b: Book, p: string)
    requires p in b.programs
    ensures PositionOf(b, p).Ok? <==> b.programs[p].safetyBufferBps >= 0
    ensures PositionOf(b, p).Ok? ==>
              var c := b.programs[p].currency;
              var pos := PositionOf(b, p).value;
              var buffer := BufferOn(pos.reserveObligation.minor, b.programs[p].safetyBufferBps);
              && pos.currency == c
              && pos.eligibleReserve.currency == pos.reserveObligation.currency == pos.mintCapacity.currency == c
              && pos.eligibleReserve.minor
                 == Max0(Balance(b.journal, p, TrusteeBankCash, c) - Balance(b.journal, p, UnmatchedDeposit, c)
                         - Balance(b.journal, p, PendingRedemption, c) - AdjustmentsActive(b, p, c))
              && pos.reserveObligation.minor
                 == Max0(Circulating(b, p) + Balance(b.journal, p, PendingRedemption, c))
              && pos.mintCapacity.minor
                 == Max0(pos.eligibleReserve.minor - pos.reserveObligation.minor - buffer
                         - Balance(b.journal, p, PendingMint, c))
              && pos.surplus == Money(pos.eligibleReserve.minor - pos.requiredReserve.minor, c)
              && pos.requiredReserve == RequiredReserve(pos.reserveObligation, b.programs[p].requiredRatioBps)
  {
    hide EligibleReserve, ReserveObligationOf, MintCapacity, Balance, AdjustmentTotal, Circulating;
    var program := b.programs[p];
    var c := program.currency;
    var ei, oi := EligibleInputOf(b, p, c), ObligationInputOf(b, p, c);
    EligibleReserveInOneCurrency(ei);
    ReserveObligationSpec(oi);
    var eligible, obligation := EligibleReserve(ei).value, ReserveObligationOf(oi).value;
    if program.safetyBufferBps >= 0 {
      var buffer := RequiredSafetyBuffer(obligation, program.safetyBufferBps).value;
      MintCapacitySpec(CapacityInput(c, eligible, obligation, buffer,
                                     Money(Balance(b.journal, p, PendingMint, c), c)));
    }
  }

  /** What is wrong when a program has no position. */
  lemma PositionFaults(b: Book, p: string)
    ensures var position := PositionOf(b, p);
            position.Err? ==> position.fault == if p in b.programs then NegativeBuffer else NotFound
  {
    if p in b.programs {
      var program := b.programs[p];
      var c := program.currency;
      var ei, oi := EligibleInputOf(b, p, c), ObligationInputOf(b, p, c);
      EligibleReserveInOneCurrency(ei);
      ReserveObligationSpec(oi);
      if PositionOf(b, p).Err? {
        PositionOverBalances(b, p);
        hide EligibleReserve, ReserveObligationOf, MintCapacity, Balance, AdjustmentTotal, Circulating;
        assert RequiredSafetyBuffer(ReserveObligationOf(oi).value, program.safetyBufferBps)
            == Result.Err(NegativeBuffer);
      }
    }
  }

  /** The ratio of the position is that of its reserve to its obligation, in whole basis points; none without one. */
  lemma PositionRatio(b: Book, p: string, r: int)
    requires p in b.programs && PositionOf(b, p).Ok?
    ensures var pos := PositionOf(b, p).value;
            && (pos.ratioBps.None? <==> pos.reserveObligation.minor == 0)
            && (pos.ratioBps.Some? ==>
                  (pos.ratioBps.value >= r <==> pos.eligibleReserve.minor * 10000 >= r * pos.reserveObligation.minor))
  {
    var pos := PositionOf(b, p).value;
    PositionOverBalances(b, p);
    PositionHasRatio(b, p);
    hide PositionOf, BufferOn, ReserveRatioBps;
    if pos.reserveObligation.minor > 0 { RatioReaches(pos.eligibleReserve, pos.reserveObligation, r); }
    NoRatioWithoutObligation(pos.eligibleReserve, pos.reserveObligation);
  }

  lemma PositionHasRatio(b: Book, p: string)
    requires p in b.programs && PositionOf(b, p).Ok?
    ensures var pos := PositionOf(b, p).value;
            ReserveRatioBps(pos.eligibleReserve, pos.reserveObligation) == Result.Ok(pos.ratioBps)
  {
    hide EligibleReserve, ReserveObligationOf, MintCapacity, Balance, AdjustmentTotal, Circulating, ReserveRatioBps;
  }

  lemma NoRatioWithoutObligation(eligible: Money, obligation: Money)
    requires eligible.currency == obligation.currency
    ensures obligation.minor == 0 ==> ReserveRatioBps(eligible, obligation) == Result.Ok(None)
  {
  }

  /** The cash that is neither unmatched nor owed to redeemers. */
  lemma FreeCashMeansRecords(b: Book, p: string, c: Currency)
    requires Inv(b)
    ensures Balance(b.journal, p, TrusteeBankCash, c) - Balance(b.journal, p, UnmatchedDeposit, c)
            - Balance(b.journal, p, PendingRedemption, c)
         == ClearedDeposits(b, p, c) - Redemptions(b, p, c, EVER_APPROVED)
    ensures Balance(b.journal, p, PendingRedemption, c) == Redemptions(b, p, c, UNPAID)
    ensures Balance(b.journal, p, PendingMint, c) == HeldMints(b, p, c)
  {
    LedgerMeansRecords(b, p, c);
    RedemptionTotals(b, p, c);
  }

  /** Both clamps and the capacity of the guard, in terms of the records. */
  lemma PositionMeansRecords(b: Book, p: string)
    requires Inv(b) && p in b.programs && PositionOf(b, p).Ok?
    ensures var c := b.programs[p].currency;
            var pos := PositionOf(b, p).value;
            var buffer := BufferOn(pos.reserveObligation.minor, b.programs[p].safetyBufferBps);
            && pos.eligibleReserve.minor
               == Max0(ClearedDeposits(b, p, c) - Redemptions(b, p, c, EVER_APPROVED) - AdjustmentsActive(b, p, c))
            && pos.reserveObligation.minor == Max0(Circulating(b, p) + Redemptions(b, p, c, UNPAID))
            && pos.mintCapacity.minor
               == Max0(pos.eligibleReserve.minor - pos.reserveObligation.minor - buffer - HeldMints(b, p, c))
            && buffer >= 0
  {
    hide PositionOf, Balance, AdjustmentTotal, Circulating, Redemptions, ClearedDeposits, HeldMints, BufferOn;
    hide RequiredReserve, Inv;
    var c := b.programs[p].currency;
    FreeCashMeansRecords(b, p, c);
    PositionOverBalances(b, p);
    BufferNonNegative(PositionOf(b, p).value.reserveObligation.minor, b.programs[p].safetyBufferBps);
  }

  lemma BufferNonNegative(obligation: int, bps: int)
    requires obligation >= 0 && bps >= 0
    ensures BufferOn(obligation, bps) >= 0
  {
    assert obligation * bps >= 0;
  }

  /** What the guard leaves unused: redemptions, adjustments, obligation and buffer, less the mints it forgets. */
  function GuardMargin(b: Book, p: string): int
    requires p in b.programs && PositionOf(b, p).Ok?
  {
    var c := b.programs[p].currency;
    var obligation := PositionOf(b, p).value.reserveObligation.minor;
    Redemptions(b, p, c, EVER_APPROVED) + AdjustmentsActive(b, p, c) + obligation
    + BufferOn(obligation, b.programs[p].safetyBufferBps) - ConfirmedMints(b, p, c)
  }

  /** While there is capacity, headroom exceeds it by exactly the margin. */
  lemma HeadroomIsCapacityPlusMargin(b: Book, p: string)
    requires Inv(b) && p in b.programs && PositionOf(b, p).Ok?
    requires PositionOf(b, p).value.mintCapacity.minor > 0
    ensures Headroom(b, p, b.programs[p].currency)
         == PositionOf(b, p).value.mintCapacity.minor + GuardMargin(b, p)
  {
    hide PositionOf, BufferOn, Inv;
    PositionMeansRecords(b, p);
    TotalsOrdered(b, p, b.programs[p].currency);
  }

  predicate Covers(headroom: int, amount: int) {
    amount <= headroom
  }

  /**
   * Every amount the capacity test lets through is covered
   * exactly when there is no capacity or the margin is not negative.
   */
  lemma CapacityIsSafeExactlyWhen(b: Book, p: string)
    requires Inv(b) && p in b.programs && PositionOf(b, p).Ok?
    ensures var capacity := PositionOf(b, p).value.mintCapacity.minor;
            (forall m :: 0 < m <= capacity ==> Covers(Headroom(b, p, b.programs[p].currency), m))
            <==> capacity == 0 || GuardMargin(b, p) >= 0
  {
    var capacity := PositionOf(b, p).value.mintCapacity.minor;
    var headroom := Headroom(b, p, b.programs[p].currency);
    CapacityNonNegative(b, p);
    if capacity > 0 {
      HeadroomIsCapacityPlusMargin(b, p);
      if forall m :: 0 < m <= capacity ==> Covers(headroom, m) {
        assert Covers(headroom, capacity);
      }
    }
  }

  lemma CapacityNonNegative(b: Book, p: string)
    requires p in b.programs && PositionOf(b, p).Ok?
    ensures PositionOf(b, p).value.mintCapacity.minor >= 0
  {
    PositionOverBalances(b, p);
  }

  /** Up to a required ratio of one to one, buffer or not, every permitted mint keeps the ratio. */
  lemma FullRatioIsKept(b: Book, p: string, m: int)
    requires Inv(b) && p in b.programs && PositionOf(b, p).Ok?
    requires b.programs[p].requiredRatioBps <= 10000
    requires 0 < m <= PositionOf(b, p).value.mintCapacity.minor
    ensures var pos := PositionOf(b, p).value;
            KeepsRatio(pos.eligibleReserve, pos.reserveObligation, b.programs[p].requiredRatioBps, m)
  {
    hide *;
    PermittedFits(b, p, m);
    var r, pos := b.programs[p].requiredRatioBps, PositionOf(b, p).value;
    KeepsRatioMeans(pos.eligibleReserve, pos.reserveObligation, r, m);
    RatioWithin(r, pos.reserveObligation.minor + m, pos.eligibleReserve.minor);
  }

  /** Obligation and a permitted mint together are within the eligible reserve. */
  lemma PermittedFits(b: Book, p: string, m: int)
    requires Inv(b) && p in b.programs && PositionOf(b, p).Ok?
    requires 0 < m <= PositionOf(b, p).value.mintCapacity.minor
    ensures var pos := PositionOf(b, p).value;
            && pos.eligibleReserve.currency == pos.reserveObligation.currency
            && 0 <= pos.reserveObligation.minor
            && pos.reserveObligation.minor + m <= pos.eligibleReserve.minor
  {
    PositionOverBalances(b, p);
    PositionMeansRecords(b, p);
    TotalsOrdered(b, p, b.programs[p].currency);
    hide PositionOf, Inv, BufferOn;
  }

  lemma RatioWithin(r: int, x: int, e: int)
    requires r <= 10000 && 0 < x <= e
    ensures r * x < 10000 * (e + 1)
  {
    assert r * x <= 10000 * x;
  }

  /**
   * Every mint the live capacity of a program permits keeps its required ratio exactly when there is no capacity or
   * the ratio still covers obligation and capacity together.
   */
  lemma PermittedMintsKeepRatioExactlyWhen(b: Book, p: string)
    requires p in b.programs && PositionOf(b, p).Ok?
    ensures var pos, r := PositionOf(b, p).value, b.programs[p].requiredRatioBps;
            var capacity := pos.mintCapacity.minor;
            (forall m :: 0 < m <= capacity ==> KeepsRatio(pos.eligibleReserve, pos.reserveObligation, r, m))
            <==> capacity == 0 || r * (pos.reserveObligation.minor + capacity) < 10000 * (pos.eligibleReserve.minor + 1)
  {
    hide *;
    var pos := PositionOf(b, p).value;
    PositionSigns(b, p);
    CapacityKeepsRatioExactlyWhen(pos.eligibleReserve, pos.reserveObligation, pos.mintCapacity.minor,
                                  b.programs[p].requiredRatioBps);
  }

  lemma PositionSigns(b: Book, p: string)
    requires p in b.programs && PositionOf(b, p).Ok?
    ensures var pos := PositionOf(b, p).value;
            && pos.eligibleReserve.currency == pos.reserveObligation.currency
            && pos.eligibleReserve.minor >= 0 && pos.reserveObligation.minor >= 0 && pos.mintCapacity.minor >= 0
  {
    PositionOverBalances(b, p);
    hide PositionOf, BufferOn;
  }

  /** At a required ratio of 150% the formula permits a mint that breaks it. */
  lemma CapacityBreaksRatio()
    ensures var zero := Money(0, "USD");
            && MintCapacity(CapacityInput("USD", Money(200, "USD"), zero, zero, zero)) == Ok(Money(200, "USD"))
            && !KeepsRatio(Money(200, "USD"), zero, 15000, 200)
  {
    var zero := Money(0, "USD");
    MintCapacitySpec(CapacityInput("USD", Money(200, "USD"), zero, zero, zero));
    KeepsRatioMeans(Money(200, "USD"), zero, 15000, 200);
  }

  /** The liability feed, with the active adjustments, reports at least the true supply. */
  predicate FeedCovers(b: Book, p: string) {
    p in b.programs ==>
      var c := b.programs[p].currency;
      Circulating(b, p) + AdjustmentsActive(b, p, c) >= Supply(b, p, c)
  }

  /** The redemptions counted twice leave the margin non-negative under a covering feed. */
  lemma FreshFeedLeavesMargin(b: Book, p: string)
    requires Inv(b) && p in b.programs && PositionOf(b, p).Ok?
    requires FeedCovers(b, p)
    ensures GuardMargin(b, p) >= 0
  {
    hide PositionOf, BufferOn, Inv;
    var c := b.programs[p].currency;
    PositionMeansRecords(b, p);
    TotalsOrdered(b, p, c);
    RedemptionTotals(b, p, c);
    UnpaidNonNegative(b, p, c);
  }

  lemma UnpaidNonNegative(b: Book, p: string, c: Currency)
    requires Inv(b)
    ensures Redemptions(b, p, c, UNPAID) >= 0
  {
    assert forall i :: 0 <= i < |b.redemptions| ==>
                         RedemptionLife(b.redemptions[i], i, b.programs, Trace(b.journal, RedemptionFamily, i));
    RowSumNonNegative(b.redemptions, RedemptionWeight(p, c, UNPAID));
  }

  // ----- Runs

  function UsedWeight(p: string, c: Currency): Auth -> int {
    (a: Auth) => MintedWeight(p, c)(a) + HeldWeight(p, c)(a)
  }

  lemma DepositHeadroom(b: Book, i: nat, row: Deposit, after: Book, p: string, c: Currency)
    requires i <= |b.deposits|
    requires after == b.(journal := after.journal, deposits := Put(b.deposits, i, row))
    ensures Headroom(after, p, c)
         == Headroom(b, p, c) + ClearedWeight(p, c)(row) - Before(b.deposits, i, ClearedWeight(p, c))
  {
    PutSum(b.deposits, i, row, ClearedWeight(p, c));
  }

  lemma AuthHeadroom(b: Book, i: nat, row: Auth, after: Book, p: string, c: Currency)
    requires i <= |b.auths|
    requires after == b.(journal := after.journal, auths := Put(b.auths, i, row))
    ensures Headroom(after, p, c)
         == Headroom(b, p, c) - UsedWeight(p, c)(row) + Before(b.auths, i, UsedWeight(p, c))
  {
    PutSum(b.auths, i, row, UsedWeight(p, c));
    RowSumSplit(b.auths, UsedWeight(p, c), MintedWeight(p, c), HeldWeight(p, c));
    RowSumSplit(after.auths, UsedWeight(p, c), MintedWeight(p, c), HeldWeight(p, c));
  }

  /** The amount a call newly earmarks in a program: only a successful approval does. */
  function NewlyEarmarked(b: Book, call: Command, p: string, c: Currency): int {
    if call.Approve? && call.id < |b.auths| && ApproveSpec(b, call).fault.None?
       && b.auths[call.id].programId == p && b.auths[call.id].currency == c
    then b.auths[call.id].amount else 0
  }

  /** No call but a successful approval uses up headroom, and that one uses exactly its amount. */
  lemma HeadroomFallsOnlyByApproval(b: Book, call: Command, p: string, c: Currency)
    requires Inv(b)
    ensures Headroom(Step(b, call).book, p, c) >= Headroom(b, p, c) - NewlyEarmarked(b, call, p, c)
  {
    hide Headroom, GuardVerdict, Transfer, ApproveSpec, ConfirmSpec, RevokeSpec, Inv;
    match call
    case Register(_, _, _, _, _, _) => DepositCallHeadroom(b, call, p, c);
    case MatchDeposit(_, _) => DepositCallHeadroom(b, call, p, c);
    case Clear(_, _, _) => DepositCallHeadroom(b, call, p, c);
    case RequestMint(_, _, _, _) => PaperworkHeadroom(b, call, p, c);
    case Review(_, _, _) => PaperworkHeadroom(b, call, p, c);
    case Reject(_, _, _) => PaperworkHeadroom(b, call, p, c);
    case Approve(_, _, _, _) => ApprovalHeadroom(b, call, p, c);
    case Revoke(_, _) => RevokeHeadroom(b, call, p, c);
    case Confirm(_, _, _, _) => ConfirmHeadroom(b, call, p, c);
    case Expire(_, _) => if call.id < |b.auths| { ExpireHeadroom(b, call.id, call.actor, p, c); }
    case _ => OtherCallHeadroom(b, call, p, c);
  }

  /** Redemptions, adjustments and the feed touch neither deposits nor authorizations. */
  lemma OtherCallHeadroom(b: Book, call: Command, p: string, c: Currency)
    requires call.RequestRedemption? || call.ApproveRedemption? || call.ConfirmBurn? || call.SubmitPayout?
          || call.ConfirmPayout? || call.AddAdjustment? || call.LiftAdjustment? || call.Ingest?
    ensures Headroom(Step(b, call).book, p, c) == Headroom(b, p, c)
  {
    hide HighestSequence, Transfer;
    assert Step(b, call).book.deposits == b.deposits;
    assert Step(b, call).book.auths == b.auths;
  }

  lemma DepositCallHeadroom(b: Book, call: Command, p: string, c: Currency)
    requires Inv(b) && (call.Register? || call.MatchDeposit? || call.Clear?)
    ensures Headroom(Step(b, call).book, p, c) >= Headroom(b, p, c)
  {
    hide AuthLife, RedemptionLife, Balance, Posted, Build, LedgerRefines, Headroom;
    var after := Step(b, call).book;
    var i := if call.Register? then |b.deposits| else call.id;
    if after != b {
      if i < |b.deposits| {
        assert DepositLife(b.deposits[i], i, Trace(b.journal, DepositFamily, i));
      }
      assert after.deposits == Put(b.deposits, i, after.deposits[i]);
      DepositHeadroom(b, i, after.deposits[i], after, p, c);
      if call.Clear? {
        TransferSpec(UnmatchedDeposit, ReserveObligation, Money(b.deposits[i].amount, b.deposits[i].currency),
                     References(Source(DepositClear, i), b.deposits[i].programId, call.actor));
      }
    }
  }

  /** Requesting, reviewing and rejecting neither mint nor hold anything. */
  lemma PaperworkHeadroom(b: Book, call: Command, p: string, c: Currency)
    requires call.RequestMint? || call.Review? || call.Reject?
    ensures Headroom(Step(b, call).book, p, c) == Headroom(b, p, c)
  {
    var after := Step(b, call).book;
    var i := if call.RequestMint? then |b.auths| else call.id;
    if after != b {
      assert after.auths == Put(b.auths, i, after.auths[i]);
      AuthHeadroom(b, i, after.auths[i], after, p, c);
    }
  }

  lemma IssueHeadroom(b: Book, i: nat, checkerId: string, nowMs: int, p: string, c: Currency)
    requires i < |b.auths| && b.auths[i].approval.Some? && b.auths[i].confirmation.None? && b.auths[i].hold == NotHeld
    requires Issue(b, i, checkerId, nowMs).fault.None?
    ensures Headroom(Issue(b, i, checkerId, nowMs).book, p, c)
         == Headroom(b, p, c)
            - (if b.auths[i].programId == p && b.auths[i].currency == c then b.auths[i].amount else 0)
  {
    var after := Issue(b, i, checkerId, nowMs).book;
    AuthHeadroom(b, i, after.auths[i], after, p, c);
  }

  lemma RefuseHeadroom(b: Book, i: nat, checkerId: string, p: string, c: Currency)
    requires i < |b.auths| && b.auths[i].approval.Some?
    ensures Headroom(Refuse(b, i, checkerId).book, p, c) == Headroom(b, p, c)
  {
    var after := Refuse(b, i, checkerId).book;
    AuthHeadroom(b, i, after.auths[i], after, p, c);
  }

  lemma ApprovalHeadroom(b: Book, call: Command, p: string, c: Currency)
    requires Inv(b) && call.Approve?
    ensures Headroom(ApproveSpec(b, call).book, p, c) >= Headroom(b, p, c) - NewlyEarmarked(b, call, p, c)
  {
    hide GuardVerdict, Headroom, Transfer;
    var i := call.id;
    if i < |b.auths| && b.auths[i].status == PENDING_CHECKER && b.auths[i].approval.Some? {
      CheckedIsNotHeld(b, i);
      RefuseHeadroom(b, i, call.checkerId, p, c);
      if Issue(b, i, call.checkerId, call.env.nowMs).fault.None? {
        IssueHeadroom(b, i, call.checkerId, call.env.nowMs, p, c);
      }
    }
  }

  lemma CheckedIsNotHeld(b: Book, i: nat)
    requires Inv(b) && i < |b.auths| && b.auths[i].status == PENDING_CHECKER
    ensures b.auths[i].hold == NotHeld && b.auths[i].confirmation.None? && b.auths[i].amount > 0
  {
    assert AuthLife(b.auths[i], i, b.programs, Trace(b.journal, MintFamily, i));
  }

  lemma IssuedIsHeld(b: Book, i: nat)
    requires Inv(b) && i < |b.auths| && b.auths[i].status == ISSUED
    ensures b.auths[i].hold == Held && b.auths[i].confirmation.None? && b.auths[i].amount > 0
  {
    assert AuthLife(b.auths[i], i, b.programs, Trace(b.journal, MintFamily, i));
  }

  lemma ReleaseHeadroom(b: Book, i: nat, kind: SourceKind, row: Auth, actor: string, p: string, c: Currency)
    requires i < |b.auths|
    requires UsedWeight(p, c)(row) <= UsedWeight(p, c)(b.auths[i])
    ensures Headroom(ReleaseAuth(b, i, kind, row, actor).book, p, c) >= Headroom(b, p, c)
  {
    var after := ReleaseAuth(b, i, kind, row, actor).book;
    if after != b {
      AuthHeadroom(b, i, row, after, p, c);
    }
  }

  /** A revocation gives the amount back. */
  lemma RevokeHeadroom(b: Book, call: Command, p: string, c: Currency)
    requires Inv(b) && call.Revoke?
    ensures Headroom(RevokeSpec(b, call).book, p, c) >= Headroom(b, p, c)
  {
    if call.id < |b.auths| && b.auths[call.id].status == ISSUED {
      var a := b.auths[call.id];
      IssuedIsHeld(b, call.id);
      var row := a.(status := REVOKED, hold := Freed(MintRevoke));
      assert HeldWeight(p, c)(row) == 0 && MintedWeight(p, c)(row) == 0;
      assert UsedWeight(p, c)(row) <= UsedWeight(p, c)(a);
      ReleaseHeadroom(b, call.id, MintRevoke, row, call.actor, p, c);
    }
  }

  lemma ExpireHeadroom(b: Book, i: nat, actor: string, p: string, c: Currency)
    requires Inv(b) && i < |b.auths|
    ensures Headroom(ExpireAuth(b, i, actor).book, p, c) >= Headroom(b, p, c)
  {
    var a := b.auths[i];
    if a.status == ISSUED {
      IssuedIsHeld(b, i);
      var row := a.(status := EXPIRED, hold := Freed(MintExpire));
      assert HeldWeight(p, c)(row) == 0 && MintedWeight(p, c)(row) == 0;
      assert UsedWeight(p, c)(row) <= UsedWeight(p, c)(a);
      ReleaseHeadroom(b, i, MintExpire, row, actor, p, c);
    }
  }

  /** A confirmation turns held into minted. */
  lemma ConfirmHeadroom(b: Book, call: Command, p: string, c: Currency)
    requires Inv(b) && call.Confirm?
    ensures Headroom(ConfirmSpec(b, call).book, p, c) >= Headroom(b, p, c)
  {
    hide Headroom, ReleaseAuth;
    if call.id < |b.auths| && b.auths[call.id].status == ISSUED {
      var a := b.auths[call.id];
      IssuedIsHeld(b, call.id);
      ExpireHeadroom(b, call.id, call.actor, p, c);
      if call.amount == a.amount {
        var row := a.(status := CONSUMED, confirmation := Some(Confirmation(call.amount, call.nowMs)),
                      hold := Freed(MintConfirm));
        assert HeldWeight(p, c)(row) == 0 && MintedWeight(p, c)(row) == HeldWeight(p, c)(a);
        assert UsedWeight(p, c)(row) <= UsedWeight(p, c)(a);
        ReleaseHeadroom(b, call.id, MintConfirm, row, call.actor, p, c);
      }
    }
  }

  /** A successful approval means the guard saw capacity for the whole, positive amount. */
  lemma ApprovedMeansCapacity(b: Book, call: Command)
    requires Inv(b) && call.Approve? && ApproveSpec(b, call).fault.None?
    ensures var a := b.auths[call.id];
            && PositionOf(b, a.programId).Ok?
            && 0 < a.amount <= PositionOf(b, a.programId).value.mintCapacity.minor
  {
    hide PositionOf, Decide, MintCapacity, FundingCleared, LiabilityFeedAge;
    var a := b.auths[call.id];
    assert AuthLife(a, call.id, b.programs, Trace(b.journal, MintFamily, call.id));
    assert GuardVerdict(b, a, call.env) == Ok(true);
    var facts := GuardFacts(b, a, call.env).value;
    GuardFailsSafe(facts);
    PositionOverBalances(b, a.programId);
    MintCapacitySpec(facts.capacityInput);
  }

  lemma ApprovalIsCovered(b: Book, call: Command, p: string)
    requires Inv(b) && p in b.programs
    requires FullyReserved(b, p, b.programs[p].currency)
    requires call.Approve? && call.id < |b.auths| ==> FeedCovers(b, b.auths[call.id].programId)
    ensures Headroom(b, p, b.programs[p].currency) >= NewlyEarmarked(b, call, p, b.programs[p].currency)
  {
    var c := b.programs[p].currency;
    FullReserveIsHeadroom(b, p, c);
    if NewlyEarmarked(b, call, p, c) != 0 {
      ApprovedMeansCapacity(b, call);
      HeadroomIsCapacityPlusMargin(b, p);
      FreshFeedLeavesMargin(b, p);
    }
  }

  lemma StepKeepsPrograms(b: Book, call: Command)
    ensures Step(b, call).book.programs == b.programs
  {
    hide GuardVerdict, HighestSequence, Transfer;
  }

  /** One step: whatever the call and its outcome, full reserve is kept if approvals see a covering feed. */
  lemma StepKeepsFullReserve(b: Book, call: Command, p: string)
    requires Inv(b) && p in b.programs
    requires FullyReserved(b, p, b.programs[p].currency)
    requires call.Approve? && call.id < |b.auths| ==> FeedCovers(b, b.auths[call.id].programId)
    ensures p in Step(b, call).book.programs
    ensures FullyReserved(Step(b, call).book, p, b.programs[p].currency)
  {
    var c := b.programs[p].currency;
    StepKeepsPrograms(b, call);
    ApprovalIsCovered(b, call, p);
    HeadroomFallsOnlyByApproval(b, call, p, c);
    StepKeeps(b, call);
    FullReserveIsHeadroom(Step(b, call).book, p, c);
  }

  /** At each approval of the run the feed of its program covers the true supply. */
  ghost predicate FeedCoversAtApprovals(b: Book, calls: seq<Command>) {
    forall k :: 0 <= k < |calls| && calls[k].Approve? ==>
                  var before := Run(b, calls[..k]);
                  calls[k].id < |before.auths| ==> FeedCovers(before, before.auths[calls[k].id].programId)
  }

  lemma {:induction false} RunKeepsFullReserve(b: Book, calls: seq<Command>, p: string)
    requires Inv(b) && p in b.programs
    requires FullyReserved(b, p, b.programs[p].currency)
    requires FeedCoversAtApprovals(b, calls)
    ensures Run(b, calls).programs == b.programs
    ensures FullyReserved(Run(b, calls), p, b.programs[p].currency)
  {
    hide Inv, FullyReserved, FeedCovers, Step;
    if calls != [] {
      var n := |calls| - 1;
      var front := calls[..n];
      assert forall k :: 0 <= k < n ==> front[k] == calls[k] && front[..k] == calls[..k];
      RunKeepsFullReserve(b, front, p);
      RunKeeps(b, front);
      StepKeepsPrograms(Run(b, front), calls[n]);
      StepKeepsFullReserve(Run(b, front), calls[n], p);
    }
  }

  /**
   * Full reserve over every run: for every interleaving of all calls, in every program, matched cash covers
   * the supply, the mints under way and the unpaid burns, if each approval sees a feed that covers the supply.
   */
  lemma FullReserveAlways(programs: map<string, Program>, config: Config, calls: seq<Command>, p: string)
    requires p in programs
    requires FeedCoversAtApprovals(EmptyBook(programs, config), calls)
    ensures FullyReserved(Run(EmptyBook(programs, config), calls), p, programs[p].currency)
  {
    EmptyInv(programs, config);
    RunKeepsFullReserve(EmptyBook(programs, config), calls, p);
  }
}
