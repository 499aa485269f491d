/** The mint guard: every reason that blocks a mint, in a fixed order. */
module MintGuard {
  import opened Results
  import opened Moneys
  import opened ReserveCalculation

  datatype Reason =
    | MintFeatureDisabled
    | NonPositiveAmount
    | CurrencyMismatchReason
    | InsufficientCapacity
    | ReserveDataStale
    | BankConnectivityUnavailable
    | LiabilityFeedStale
    | ProofOfReserveExpired
    | ReconciliationUnresolved
    | ComplianceHold
    | AssetMintingSuspended
    | ProgramSuspended
    | AccountRestricted
    | DepositNotCleared
    | ApprovalIncomplete

  datatype Facts = Facts(
    requested: Money,
    capacityInput: CapacityInput,
    reserveSnapshotAge: int, maxReserveSnapshotAge: int,
    bankConnectivityAge: int, maxBankConnectivityAge: int,
    liabilityFeedAge: int, maxLiabilityFeedAge: int,
    proofOfReserveAge: Option<int>, maxProofOfReserveAge: Option<int>,
    hasUnresolvedReconciliation: bool,
    complianceHoldActive: bool,
    assetMintingSuspended: bool,
    programSuspended: bool,
    accountRestricted: bool,
    fundingDepositsCleared: bool,
    makerCheckerComplete: bool,
    mintFeatureEnabled: bool)

  datatype Decision = Decision(allowed: bool, reasons: seq<Reason>, capacity: Money)

  /** When a reason blocks the mint, given the computed capacity. */
  predicate Blocks(f: Facts, capacity: Money, r: Reason) {
    match r
    case MintFeatureDisabled => !f.mintFeatureEnabled
    case NonPositiveAmount => f.requested.minor <= 0
    case CurrencyMismatchReason => f.requested.minor > 0 && f.requested.currency != capacity.currency
    case InsufficientCapacity =>
      f.requested.minor > 0 && f.requested.currency == capacity.currency && capacity.minor < f.requested.minor
    case ReserveDataStale => f.reserveSnapshotAge > f.maxReserveSnapshotAge
    case BankConnectivityUnavailable => f.bankConnectivityAge > f.maxBankConnectivityAge
    case LiabilityFeedStale => f.liabilityFeedAge > f.maxLiabilityFeedAge
    case ProofOfReserveExpired =>
      f.maxProofOfReserveAge.Some? &&
      (f.proofOfReserveAge.None? || f.proofOfReserveAge.value > f.maxProofOfReserveAge.value)
    case ReconciliationUnresolved => f.hasUnresolvedReconciliation
    case ComplianceHold => f.complianceHoldActive
    case AssetMintingSuspended => f.assetMintingSuspended
    case ProgramSuspended => f.programSuspended
    case AccountRestricted => f.accountRestricted
    case DepositNotCleared => !f.fundingDepositsCleared
    case ApprovalIncomplete => !f.makerCheckerComplete
  }

  function PushIf(rs: seq<Reason>, blocks: bool, r: Reason): (pushed: seq<Reason>)
    ensures forall q :: q in pushed <==> q in rs || (blocks && q == r)
  {
    if blocks then rs + [r] else rs
  }

  function AmountReasons(f: Facts, capacity: Money, rs: seq<Reason>): seq<Reason> {
    var rs := PushIf(rs, Blocks(f, capacity, MintFeatureDisabled), MintFeatureDisabled);
    var rs := PushIf(rs, Blocks(f, capacity, NonPositiveAmount), NonPositiveAmount);
    var rs := PushIf(rs, Blocks(f, capacity, CurrencyMismatchReason), CurrencyMismatchReason);
    var rs := PushIf(rs, Blocks(f, capacity, InsufficientCapacity), InsufficientCapacity);
    rs
  }

  function FreshnessReasons(f: Facts, capacity: Money, rs: seq<Reason>): seq<Reason> {
    var rs := PushIf(rs, Blocks(f, capacity, ReserveDataStale), ReserveDataStale);
    var rs := PushIf(rs, Blocks(f, capacity, BankConnectivityUnavailable), BankConnectivityUnavailable);
    var rs := PushIf(rs, Blocks(f, capacity, LiabilityFeedStale), LiabilityFeedStale);
    var rs := PushIf(rs, Blocks(f, capacity, ProofOfReserveExpired), ProofOfReserveExpired);
    rs
  }

  function StandingReasons(f: Facts, capacity: Money, rs: seq<Reason>): seq<Reason> {
    var rs := PushIf(rs, Blocks(f, capacity, ReconciliationUnresolved), ReconciliationUnresolved);
    var rs := PushIf(rs, Blocks(f, capacity, ComplianceHold), ComplianceHold);
    var rs := PushIf(rs, Blocks(f, capacity, AssetMintingSuspended), AssetMintingSuspended);
    var rs := PushIf(rs, Blocks(f, capacity, ProgramSuspended), ProgramSuspended);
    var rs := PushIf(rs, Blocks(f, capacity, AccountRestricted), AccountRestricted);
    var rs := PushIf(rs, Blocks(f, capacity, DepositNotCleared), DepositNotCleared);
    var rs := PushIf(rs, Blocks(f, capacity, ApprovalIncomplete), ApprovalIncomplete);
    rs
  }

  function Decide(f: Facts): Result<Decision> {
    var capacity :- MintCapacity(f.capacityInput);
    var reasons := StandingReasons(f, capacity, FreshnessReasons(f, capacity, AmountReasons(f, capacity, [])));
    Ok(Decision(reasons == [], reasons, capacity))
  }

  /** The guard fails safe: a mint is allowed exactly when nothing blocks it, and every block is reported. */
  lemma GuardFailsSafe(f: Facts)
    ensures Decide(f).Ok? <==> MintCapacity(f.capacityInput).Ok?
    ensures Decide(f).Ok? ==>
              var d := Decide(f).value;
              && d.capacity == MintCapacity(f.capacityInput).value
              && (forall r :: r in d.reasons <==> Blocks(f, d.capacity, r))
              && (d.allowed <==> forall r :: !Blocks(f, d.capacity, r))
              && (d.allowed ==> 0 < f.requested.minor <= d.capacity.minor
                                && f.requested.currency == d.capacity.currency)
  {
    if Decide(f).Ok? {
      var d := Decide(f).value;
      ReasonsAreBlocks(f, d.capacity);
      hide StandingReasons, FreshnessReasons, AmountReasons;
      if d.allowed {
        assert NonPositiveAmount !in d.reasons && CurrencyMismatchReason !in d.reasons
            && InsufficientCapacity !in d.reasons;
      } else {
        assert d.reasons[0] in d.reasons;
      }
    }
  }

  predicate OfAmount(r: Reason) {
    r.MintFeatureDisabled? || r.NonPositiveAmount? || r.CurrencyMismatchReason? || r.InsufficientCapacity?
  }

  predicate OfFreshness(r: Reason) {
    r.ReserveDataStale? || r.BankConnectivityUnavailable? || r.LiabilityFeedStale? || r.ProofOfReserveExpired?
  }

  lemma AmountBlocks(f: Facts, capacity: Money, r: Reason)
    ensures r in AmountReasons(f, capacity, []) <==> OfAmount(r) && Blocks(f, capacity, r)
  {
    hide Blocks;
  }

  lemma FreshnessBlocks(f: Facts, capacity: Money, before: seq<Reason>, r: Reason)
    ensures r in FreshnessReasons(f, capacity, before) <==> r in before || (OfFreshness(r) && Blocks(f, capacity, r))
  {
    hide Blocks;
  }

  lemma StandingBlocks(f: Facts, capacity: Money, before: seq<Reason>, r: Reason)
    ensures r in StandingReasons(f, capacity, before)
       <==> r in before || (!OfAmount(r) && !OfFreshness(r) && Blocks(f, capacity, r))
  {
    hide Blocks;
  }

  lemma ReasonsAreBlocks(f: Facts, capacity: Money)
    ensures var reasons := StandingReasons(f, capacity, FreshnessReasons(f, capacity, AmountReasons(f, capacity, [])));
            forall r :: r in reasons <==> Blocks(f, capacity, r)
  {
    hide Blocks, StandingReasons, FreshnessReasons, AmountReasons;
    var amount := AmountReasons(f, capacity, []);
    var freshness := FreshnessReasons(f, capacity, amount);
    forall r ensures r in StandingReasons(f, capacity, freshness) <==> Blocks(f, capacity, r) {
      AmountBlocks(f, capacity, r);
      FreshnessBlocks(f, capacity, amount, r);
      StandingBlocks(f, capacity, freshness, r);
    }
  }

  method CheckAmount(f: Facts, capacity: Money) returns (reasons: seq<Reason>)
    ensures reasons == AmountReasons(f, capacity, [])
  {
    reasons := [];
    if !f.mintFeatureEnabled { reasons := reasons + [MintFeatureDisabled]; }
    if f.requested.minor <= 0 {
      reasons := reasons + [NonPositiveAmount];
    } else if f.requested.currency != capacity.currency {
      reasons := reasons + [CurrencyMismatchReason];
    } else if capacity.minor < f.requested.minor {
      reasons := reasons + [InsufficientCapacity];
    }
  }

  method CheckFreshness(f: Facts, capacity: Money, before: seq<Reason>) returns (reasons: seq<Reason>)
    ensures reasons == FreshnessReasons(f, capacity, before)
  {
    reasons := before;
    if f.reserveSnapshotAge > f.maxReserveSnapshotAge { reasons := reasons + [ReserveDataStale]; }
    if f.bankConnectivityAge > f.maxBankConnectivityAge { reasons := reasons + [BankConnectivityUnavailable]; }
    if f.liabilityFeedAge > f.maxLiabilityFeedAge { reasons := reasons + [LiabilityFeedStale]; }
    if f.maxProofOfReserveAge.Some? &&
       (f.proofOfReserveAge.None? || f.proofOfReserveAge.value > f.maxProofOfReserveAge.value)
    {
      reasons := reasons + [ProofOfReserveExpired];
    }
  }

  method CheckStanding(f: Facts, capacity: Money, before: seq<Reason>) returns (reasons: seq<Reason>)
    ensures reasons == StandingReasons(f, capacity, before)
  {
    reasons := before;
    if f.hasUnresolvedReconciliation { reasons := reasons + [ReconciliationUnresolved]; }
    if f.complianceHoldActive { reasons := reasons + [ComplianceHold]; }
    if f.assetMintingSuspended { reasons := reasons + [AssetMintingSuspended]; }
    if f.programSuspended { reasons := reasons + [ProgramSuspended]; }
    if f.accountRestricted { reasons := reasons + [AccountRestricted]; }
    if !f.fundingDepositsCleared { reasons := reasons + [DepositNotCleared]; }
    if !f.makerCheckerComplete { reasons := reasons + [ApprovalIncomplete]; }
  }

  /** The branch-by-branch guard, its branches in three groups: it pushes exactly the blocking reasons. */
  method EvaluateMintGuard(f: Facts) returns (r: Result<Decision>)
    ensures r == Decide(f)
  {
    var computed := MintCapacity(f.capacityInput);
    if computed.Err? {
      return Err(computed.fault);
    }
    var capacity := computed.value;
    var reasons := CheckAmount(f, capacity);
    reasons := CheckFreshness(f, capacity, reasons);
    reasons := CheckStanding(f, capacity, reasons);
    r := Ok(Decision(reasons == [], reasons, capacity));
  }
}
