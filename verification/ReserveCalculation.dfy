/** Reserve arithmetic: eligible reserve, obligation, buffer, capacity and ratios. */
module ReserveCalculation {
  import opened Results
  import opened Moneys

  datatype EligibleInput = EligibleInput(
    currency: Currency,
    clearedBankBalance: Money,
    restrictedFunds: Money,
    unmatchedFunds: Money,
    pendingOutgoingPayouts: Money,
    bankChargesDue: Money,
    regulatoryHolds: Money,
    operationalFunds: Money,
    otherIneligibleAmounts: Money)
  {
    function Deductions(): seq<Money> {
      [restrictedFunds, unmatchedFunds, pendingOutgoingPayouts, bankChargesDue,
       regulatoryHolds, operationalFunds, otherIneligibleAmounts]
    }
  }

  datatype ObligationInput = ObligationInput(
    currency: Currency,
    circulatingSupply: Money,
    confirmedRedemptionObligations: Money,
    otherContractualLiabilities: Money,
    legallyApprovedExclusions: Money)

  datatype CapacityInput = CapacityInput(
    currency: Currency,
    eligibleReserve: Money,
    existingReserveObligation: Money,
    requiredSafetyBuffer: Money,
    pendingMintAuthorizations: Money)

  function Max0(x: int): int {
    if x < 0 then 0 else x
  }

  function EligibleReserve(i: EligibleInput): Result<Money> {
    var deductions :- Sum(i.Deductions());
    var result :- Subtract(i.clearedBankBalance, deductions);
    Ok(if result.minor < 0 then Zero(i.currency) else result)
  }

  function ReserveObligationOf(i: ObligationInput): Result<Money> {
    var gross :- Sum([i.circulatingSupply, i.confirmedRedemptionObligations, i.otherContractualLiabilities]);
    var result :- Subtract(gross, i.legallyApprovedExclusions);
    Ok(if result.minor < 0 then Zero(i.currency) else result)
  }

  function MintCapacity(i: CapacityInput): Result<Money> {
    var consumed :- Sum([i.existingReserveObligation, i.requiredSafetyBuffer, i.pendingMintAuthorizations]);
    var result :- Subtract(i.eligibleReserve, consumed);
    Max(result, Zero(i.currency))
  }

  function RequiredSafetyBuffer(obligation: Money, bufferBps: int): Result<Money> {
    if bufferBps < 0 then Err(NegativeBuffer)
    else Ok(Money(TruncDiv(obligation.minor * bufferBps, 10000), obligation.currency))
  }

  /** Basis points, or nothing when there is no obligation. */
  function ReserveRatioBps(eligible: Money, obligation: Money): Result<Option<int>> {
    if obligation.currency != eligible.currency then Err(CurrencyMismatch)
    else if obligation.minor == 0 then Ok(None)
    else if obligation.minor > 0 then Ok(Some(TruncDiv(eligible.minor * 10000, obligation.minor)))
    else Ok(Some(TruncDiv(-(eligible.minor * 10000), -obligation.minor)))
  }

  function RequiredReserve(obligation: Money, ratioBps: int): Money {
    Money(TruncDiv(obligation.minor * ratioBps, 10000), obligation.currency)
  }

  function IsFullyReserved(eligible: Money, obligation: Money, ratioBps: int): Result<bool> {
    if obligation.minor == 0 then Ok(true)
    else Gte(eligible, RequiredReserve(obligation, ratioBps))
  }

  // ----- What the Money computations come to

  lemma MinorTotalAppend(values: seq<Money>, m: Money)
    ensures MinorTotal(values + [m]) == MinorTotal(values) + m.minor
  {
    assert (values + [m])[..|values|] == values;
  }

  lemma MinorTotal3(a: Money, b: Money, c: Money)
    ensures MinorTotal([a, b, c]) == a.minor + b.minor + c.minor
  {
    MinorTotalAppend([a, b], c);
    MinorTotalAppend([a], b);
    MinorTotalAppend([], a);
    assert [a, b, c] == [a, b] + [c];
    assert [a, b] == [a] + [b];
    assert [a] == [] + [a];
  }

  lemma MinorTotalOfDeductions(i: EligibleInput)
    ensures MinorTotal(i.Deductions())
         == i.restrictedFunds.minor + i.unmatchedFunds.minor + i.pendingOutgoingPayouts.minor + i.bankChargesDue.minor
            + i.regulatoryHolds.minor + i.operationalFunds.minor + i.otherIneligibleAmounts.minor
  {
    var first := [i.restrictedFunds, i.unmatchedFunds, i.pendingOutgoingPayouts];
    MinorTotal3(i.restrictedFunds, i.unmatchedFunds, i.pendingOutgoingPayouts);
    MinorTotalAppend(first, i.bankChargesDue);
    MinorTotalAppend(first + [i.bankChargesDue], i.regulatoryHolds);
    MinorTotalAppend(first + [i.bankChargesDue] + [i.regulatoryHolds], i.operationalFunds);
    MinorTotalAppend(first + [i.bankChargesDue] + [i.regulatoryHolds] + [i.operationalFunds], i.otherIneligibleAmounts);
    assert i.Deductions()
        == first + [i.bankChargesDue] + [i.regulatoryHolds] + [i.operationalFunds] + [i.otherIneligibleAmounts];
  }

  /** Accepted exactly when all eight amounts share a currency; then the clamped difference. */
  lemma EligibleReserveSpec(i: EligibleInput)
    ensures EligibleReserve(i).Ok? <==> OneCurrency([i.clearedBankBalance] + i.Deductions())
    ensures EligibleReserve(i).Ok? ==>
              EligibleReserve(i).value.minor ==
              Max0(i.clearedBankBalance.minor - i.restrictedFunds.minor - i.unmatchedFunds.minor
                   - i.pendingOutgoingPayouts.minor - i.bankChargesDue.minor - i.regulatoryHolds.minor
                   - i.operationalFunds.minor - i.otherIneligibleAmounts.minor)
  {
    var ds := i.Deductions();
    var all := [i.clearedBankBalance] + ds;
    SumSpec(ds);
    MinorTotalOfDeductions(i);
    assert forall k :: 0 <= k < |ds| ==> all[k + 1] == ds[k];
    if OneCurrency(all) {
      assert all[0].currency == all[1].currency;
      forall k, j | 0 <= k < |ds| && 0 <= j < |ds| ensures ds[k].currency == ds[j].currency {
        assert all[k + 1].currency == all[j + 1].currency;
      }
    }
    if EligibleReserve(i).Ok? {
      forall k | 0 <= k < |all| ensures all[k].currency == ds[0].currency {
        if k > 0 { assert all[k] == ds[k - 1]; }
      }
    }
  }

  lemma EligibleReserveInOneCurrency(i: EligibleInput)
    requires forall k :: 0 <= k < |i.Deductions()| ==> i.Deductions()[k].currency == i.currency
    requires i.clearedBankBalance.currency == i.currency
    ensures EligibleReserve(i).Ok? && EligibleReserve(i).value.currency == i.currency
    ensures EligibleReserve(i).value.minor ==
              Max0(i.clearedBankBalance.minor - i.restrictedFunds.minor - i.unmatchedFunds.minor
                   - i.pendingOutgoingPayouts.minor - i.bankChargesDue.minor - i.regulatoryHolds.minor
                   - i.operationalFunds.minor - i.otherIneligibleAmounts.minor)
  {
    assert OneCurrency([i.clearedBankBalance] + i.Deductions());
    EligibleReserveSpec(i);
  }

  lemma ReserveObligationSpec(i: ObligationInput)
    requires i.circulatingSupply.currency == i.confirmedRedemptionObligations.currency
          == i.otherContractualLiabilities.currency == i.legallyApprovedExclusions.currency == i.currency
    ensures ReserveObligationOf(i)
         == Ok(Money(Max0(i.circulatingSupply.minor + i.confirmedRedemptionObligations.minor
                          + i.otherContractualLiabilities.minor - i.legallyApprovedExclusions.minor), i.currency))
  {
    SumSpec([i.circulatingSupply, i.confirmedRedemptionObligations, i.otherContractualLiabilities]);
    MinorTotal3(i.circulatingSupply, i.confirmedRedemptionObligations, i.otherContractualLiabilities);
  }

  lemma MintCapacitySpec(i: CapacityInput)
    requires i.eligibleReserve.currency == i.existingReserveObligation.currency
          == i.requiredSafetyBuffer.currency == i.pendingMintAuthorizations.currency
    ensures MintCapacity(i).Ok? <==> i.currency == i.eligibleReserve.currency
    ensures MintCapacity(i).Ok? ==>
              MintCapacity(i).value == Money(Max0(i.eligibleReserve.minor - i.existingReserveObligation.minor
                         - i.requiredSafetyBuffer.minor - i.pendingMintAuthorizations.minor), i.currency)
  {
    SumSpec([i.existingReserveObligation, i.requiredSafetyBuffer, i.pendingMintAuthorizations]);
    MinorTotal3(i.existingReserveObligation, i.requiredSafetyBuffer, i.pendingMintAuthorizations);
  }

  // ----- Ratio and coverage

  lemma FloorAtLeast(n: int, d: int, r: int)
    requires d > 0
    ensures n / d >= r <==> n >= r * d
  {
    var q := n / d;
    assert n == q * d + n % d && 0 <= n % d < d;
    if q >= r {
      assert q * d >= r * d;
    } else {
      assert q * d <= (r - 1) * d;
    }
  }

  /** Down to the last basis point: the reported ratio reaches `r` exactly when the reserve covers that share. */
  lemma RatioReaches(eligible: Money, obligation: Money, r: int)
    requires eligible.currency == obligation.currency
    requires eligible.minor >= 0 && obligation.minor > 0
    ensures ReserveRatioBps(eligible, obligation).Ok? && ReserveRatioBps(eligible, obligation).value.Some?
    ensures ReserveRatioBps(eligible, obligation).value.value >= r
       <==> eligible.minor * 10000 >= r * obligation.minor
  {
    FloorAtLeast(eligible.minor * 10000, obligation.minor, r);
  }

  /** Coverage is decided on the required reserve rounded down to a whole minor unit. */
  lemma CoverageReaches(eligible: Money, obligation: Money, r: nat)
    requires eligible.currency == obligation.currency
    requires obligation.minor > 0
    ensures IsFullyReserved(eligible, obligation, r).Ok?
    ensures IsFullyReserved(eligible, obligation, r).value
       <==> eligible.minor * 10000 > r * obligation.minor - 10000
  {
    var n := obligation.minor * r;
    assert n >= 0;
    FloorAtLeast(n, 10000, eligible.minor + 1);
    assert eligible.minor >= n / 10000 <==> !(n / 10000 >= eligible.minor + 1);
  }

  /** A sufficient ratio implies coverage; coverage leaves a shortfall below one minor unit. */
  lemma RatioAndCoverage(eligible: Money, obligation: Money, r: nat)
    requires eligible.currency == obligation.currency
    requires eligible.minor >= 0 && obligation.minor > 0
    ensures ReserveRatioBps(eligible, obligation).Ok? && ReserveRatioBps(eligible, obligation).value.Some?
    ensures IsFullyReserved(eligible, obligation, r).Ok?
    ensures ReserveRatioBps(eligible, obligation).value.value >= r ==> IsFullyReserved(eligible, obligation, r).value
    ensures IsFullyReserved(eligible, obligation, r).value ==> r * obligation.minor - eligible.minor * 10000 < 10000
  {
    RatioReaches(eligible, obligation, r);
    CoverageReaches(eligible, obligation, r);
  }

  /** The two tests part only inside the last minor unit; this pair is covered but below the ratio. */
  lemma CoverageWithoutRatio()
    ensures IsFullyReserved(Money(0, "USD"), Money(9999, "USD"), 1) == Ok(true)
    ensures ReserveRatioBps(Money(0, "USD"), Money(9999, "USD")) == Ok(Some(0))
  {
  }

  // ----- Capacity and the required ratio

  /** A mint of the amount leaves the reserve full at the required ratio. */
  predicate KeepsRatio(eligible: Money, obligation: Money, ratioBps: int, amount: int) {
    IsFullyReserved(eligible, Money(obligation.minor + amount, obligation.currency), ratioBps) == Ok(true)
  }

  /** Full reserve after a mint, without the division. */
  lemma KeepsRatioMeans(eligible: Money, obligation: Money, ratioBps: int, amount: int)
    requires eligible.currency == obligation.currency
    requires eligible.minor >= 0 && obligation.minor >= 0 && amount > 0
    ensures KeepsRatio(eligible, obligation, ratioBps, amount)
       <==> ratioBps * (obligation.minor + amount) < 10000 * (eligible.minor + 1)
  {
    var after := Money(obligation.minor + amount, obligation.currency);
    if ratioBps >= 0 {
      CoverageReaches(eligible, after, ratioBps);
    } else {
      NegativeProduct(after.minor, ratioBps);
    }
  }

  lemma NegativeProduct(x: int, r: int)
    requires x > 0 && r < 0
    ensures x * r < 0
  {
  }

  lemma LargerProduct(r: int, x: int, y: int)
    requires r >= 0 && x <= y
    ensures r * x <= r * y
  {
  }

  /**
   * The capacity formula does not see the required ratio. Every amount it permits keeps the reserve full at that
   * ratio exactly when there is no capacity, or the ratio leaves obligation and capacity together covered.
   */
  lemma CapacityKeepsRatioExactlyWhen(eligible: Money, obligation: Money, capacity: int, ratioBps: int)
    requires eligible.currency == obligation.currency
    requires eligible.minor >= 0 && obligation.minor >= 0
    ensures (forall m :: 0 < m <= capacity ==> KeepsRatio(eligible, obligation, ratioBps, m))
       <==> capacity <= 0 || ratioBps * (obligation.minor + capacity) < 10000 * (eligible.minor + 1)
  {
    if capacity > 0 {
      KeepsRatioMeans(eligible, obligation, ratioBps, capacity);
      if ratioBps * (obligation.minor + capacity) < 10000 * (eligible.minor + 1) {
        forall m | 0 < m <= capacity ensures KeepsRatio(eligible, obligation, ratioBps, m) {
          KeepsRatioMeans(eligible, obligation, ratioBps, m);
          if ratioBps >= 0 { LargerProduct(ratioBps, obligation.minor + m, obligation.minor + capacity); }
          else { NegativeProduct(obligation.minor + m, ratioBps); }
        }
      }
    }
  }
}
