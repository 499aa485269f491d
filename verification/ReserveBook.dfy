/**
 * The reserve and mint system: the rows the services keep, and what each service call does to them.
 * A table is a sequence of rows; a row's key is its position.
 */
module ReserveBook {
  import opened Results
  import opened Moneys
  import opened Sums
  import opened Journal
  import opened Entries
  import opened Ledger
  import opened ReserveCalculation
  import opened MintGuard

  // ----- Rows

  datatype Program = Program(currency: Currency, safetyBufferBps: int, requiredRatioBps: int)

  datatype Config = Config(
    maxReserveSnapshotAge: int,
    maxBankConnectivityAge: int,
    maxLiabilityFeedAge: int,
    maxProofOfReserveAge: Option<int>,
    authorizationTtlMs: int)

  datatype DepositStatus =
    | EXPECTED | DETECTED | UNMATCHED | MATCHED | PENDING_CLEARANCE | CLEARED | HELD | DEPOSIT_REJECTED
    | RETURNED | ALLOCATED_TO_RESERVE | AVAILABLE_FOR_MINT | CONSUMED_BY_MINT | REFUNDED | DEPOSIT_IN_REVIEW

  datatype Deposit = Deposit(
    programId: string,
    bankTransactionId: string,
    amount: int,
    currency: Currency,
    status: DepositStatus)

  datatype FundingInstruction = FundingInstruction(amount: int, currency: Currency)

  datatype AuthStatus =
    | DRAFT | PENDING_MAKER | PENDING_CHECKER | AUTH_APPROVED | ISSUED | CONSUMED | EXPIRED | REVOKED | REJECTED

  datatype ApprovalDecision = DECISION_PENDING | DECISION_APPROVED | DECISION_REJECTED
  datatype Approval = Approval(makerId: string, checkerId: Option<string>, decision: ApprovalDecision)
  datatype Confirmation = Confirmation(amount: int, recordedAt: int)

  /** History of the earmark of an authorization. Not a stored column: the status alone does not tell. */
  datatype Hold = NotHeld | Held | Freed(through: SourceKind)

  datatype Auth = Auth(
    programId: string,
    paychainRequestId: string,
    amount: int,
    currency: Currency,
    fundingDepositIds: seq<nat>,
    status: AuthStatus,
    approval: Option<Approval>,
    expiresAt: Option<int>,
    confirmation: Option<Confirmation>,
    hold: Hold)

  datatype RedemptionStatus =
    | REQUESTED | VALIDATING | COMPLIANCE_REVIEW | AWAITING_APPROVAL | APPROVED | ASSET_LOCK_PENDING
    | ASSET_LOCKED | BURN_PENDING | BURN_CONFIRMED | PAYOUT_PENDING | PAYOUT_SUBMITTED | PAYOUT_CONFIRMED
    | COMPLETED | REDEMPTION_REJECTED | FAILED | REDEMPTION_RETURNED | REDEMPTION_IN_REVIEW

  datatype Redemption = Redemption(
    programId: string,
    paychainRedemptionId: string,
    amount: int,
    currency: Currency,
    status: RedemptionStatus,
    burnTxHash: Option<string>)

  datatype AdjustmentKind = RESTRICTED | REGULATORY_HOLD | OPERATIONAL | BANK_CHARGE | UNKNOWN_KIND(name: string)
  datatype Adjustment = Adjustment(
    programId: string,
    currency: Currency,
    kind: AdjustmentKind,
    amount: int,
    active: bool)

  datatype Snapshot = Snapshot(programId: string, sequence: int, circulating: int, timestampMs: int, verified: bool)

  datatype Book = Book(
    programs: map<string, Program>,
    config: Config,
    journal: JournalLog,
    deposits: seq<Deposit>,
    auths: seq<Auth>,
    redemptions: seq<Redemption>,
    adjustments: seq<Adjustment>,
    snapshots: seq<Snapshot>)

  // ----- The reserve position

  function AdjustmentWeight(programId: string, c: Currency, kind: AdjustmentKind): Adjustment -> int {
    (x: Adjustment) => if x.programId == programId && x.currency == c && x.active && x.kind == kind then x.amount else 0
  }

  function AdjustmentTotal(b: Book, programId: string, c: Currency, kind: AdjustmentKind): int {
    RowSum(b.adjustments, AdjustmentWeight(programId, c, kind))
  }

  /** The verified liability snapshot of a program with the highest sequence number. */
  function LatestSnapshot(snapshots: seq<Snapshot>, programId: string): Option<Snapshot> {
    if snapshots == [] then None
    else
      var s := snapshots[|snapshots| - 1];
      var earlier := LatestSnapshot(snapshots[..|snapshots| - 1], programId);
      if s.programId == programId && s.verified && (earlier.None? || earlier.value.sequence < s.sequence)
      then Some(s) else earlier
  }

  function Circulating(b: Book, programId: string): int {
    match LatestSnapshot(b.snapshots, programId)
    case Some(s) => s.circulating
    case None => 0
  }

  datatype Position = Position(
    currency: Currency,
    eligibleReserve: Money,
    reserveObligation: Money,
    requiredReserve: Money,
    mintCapacity: Money,
    surplus: Money,
    ratioBps: Option<int>)

  function EligibleInputOf(b: Book, programId: string, c: Currency): EligibleInput {
    EligibleInput(
      c,
      Money(Balance(b.journal, programId, TrusteeBankCash, c), c),
      Money(AdjustmentTotal(b, programId, c, RESTRICTED), c),
      Money(Balance(b.journal, programId, UnmatchedDeposit, c), c),
      Money(Balance(b.journal, programId, PendingRedemption, c), c),
      Money(AdjustmentTotal(b, programId, c, BANK_CHARGE), c),
      Money(AdjustmentTotal(b, programId, c, REGULATORY_HOLD), c),
      Money(AdjustmentTotal(b, programId, c, OPERATIONAL), c),
      Zero(c))
  }

  function ObligationInputOf(b: Book, programId: string, c: Currency): ObligationInput {
    ObligationInput(
      c,
      Money(Circulating(b, programId), c),
      Money(Balance(b.journal, programId, PendingRedemption, c), c),
      Zero(c),
      Zero(c))
  }

  function PositionFrom(program: Program, eligible: Money, obligation: Money, pendingMint: Money): Result<Position> {
    var c := program.currency;
    var buffer :- RequiredSafetyBuffer(obligation, program.safetyBufferBps);
    var required := RequiredReserve(obligation, program.requiredRatioBps);
    var capacity :- MintCapacity(CapacityInput(c, eligible, obligation, buffer, pendingMint));
    var surplus :- Subtract(eligible, required);
    var ratio :- ReserveRatioBps(eligible, obligation);
    Ok(Position(c, eligible, obligation, required, capacity, surplus, ratio))
  }

  function PositionOf(b: Book, programId: string): Result<Position> {
    if programId !in b.programs then Err(NotFound)
    else
      var program := b.programs[programId];
      var c := program.currency;
      var eligible :- EligibleReserve(EligibleInputOf(b, programId, c));
      var obligation :- ReserveObligationOf(ObligationInputOf(b, programId, c));
      PositionFrom(program, eligible, obligation, Money(Balance(b.journal, programId, PendingMint, c), c))
  }

  // ----- The facts of the mint guard

  /** What the guard learns from outside the book at one instant. */
  datatype GuardEnv = GuardEnv(
    nowMs: int,
    bankConnectivityAge: int,
    proofOfReserveAge: Option<int>,
    unresolvedReconciliation: bool,
    complianceHold: bool,
    assetSuspended: bool,
    programSuspended: bool,
    accountRestricted: bool,
    mintFeatureEnabled: bool)

  const MAX_SAFE_INTEGER: int := 9007199254740991

  predicate MintEligible(s: DepositStatus) {
    s == CLEARED || s == ALLOCATED_TO_RESERVE || s == AVAILABLE_FOR_MINT
  }

  /** The query returns each named deposit once, so a repeated or unknown key fails the length test. */
  predicate FundingCleared(deposits: seq<Deposit>, ids: seq<nat>) {
    var found := set i | i in ids && i < |deposits|;
    && ids != []
    && |found| == |ids|
    && forall i :: i in found ==> MintEligible(deposits[i].status)
  }

  function LiabilityFeedAge(b: Book, programId: string, nowMs: int): int {
    match LatestSnapshot(b.snapshots, programId)
    case Some(s) => Max0((nowMs - s.timestampMs) / 1000)
    case None => MAX_SAFE_INTEGER
  }

  function GuardFacts(b: Book, a: Auth, env: GuardEnv): Result<Facts> {
    var pos :- PositionOf(b, a.programId);
    Ok(Facts(
      Money(a.amount, a.currency),
      CapacityInput(pos.currency, pos.mintCapacity, Zero(pos.currency), Zero(pos.currency), Zero(pos.currency)),
      0, b.config.maxReserveSnapshotAge,
      env.bankConnectivityAge, b.config.maxBankConnectivityAge,
      LiabilityFeedAge(b, a.programId, env.nowMs), b.config.maxLiabilityFeedAge,
      env.proofOfReserveAge, b.config.maxProofOfReserveAge,
      env.unresolvedReconciliation,
      env.complianceHold,
      env.assetSuspended,
      env.programSuspended,
      env.accountRestricted,
      FundingCleared(b.deposits, a.fundingDepositIds),
      true,
      env.mintFeatureEnabled))
  }

  // ----- Service calls

  datatype Command =
    | Register(programId: string, accountKnown: bool, bankTransactionId: string, amount: int, currency: Currency,
               actor: string)
    | MatchDeposit(id: nat, instruction: Option<FundingInstruction>)
    | Clear(id: nat, accountKnown: bool, actor: string)
    | RequestMint(programId: string, paychainRequestId: string, amount: int, fundingDepositIds: seq<nat>)
    | Review(id: nat, makerId: string, makerIsTrustee: bool)
    | Approve(id: nat, checkerId: string, checkerKnown: bool, env: GuardEnv)
    | Reject(id: nat, checkerId: string, checkerKnown: bool)
    | Revoke(id: nat, actor: string)
    | Confirm(id: nat, amount: int, nowMs: int, actor: string)
    | Expire(id: nat, actor: string)
    | RequestRedemption(programId: string, paychainRedemptionId: string, enabled: bool, amount: int)
    | ApproveRedemption(id: nat, approverId: string, approverIsTrustee: bool)
    | ConfirmBurn(id: nat, burnTxHash: string)
    | SubmitPayout(id: nat, enabled: bool)
    | ConfirmPayout(id: nat, actor: string)
    | AddAdjustment(programId: string, kind: AdjustmentKind, amount: int)
    | LiftAdjustment(id: nat)
    | Ingest(programId: string, sequence: int, circulating: int, timestampMs: int,
             signatureGiven: bool, signatureValid: bool, signatureRequired: bool)

  /** The book after a call, and the exception it ended with, if any. */
  datatype Stepped = Stepped(book: Book, fault: Option<Fault>)

  function Unchanged(b: Book, fault: Fault): Stepped {
    Stepped(b, Some(fault))
  }

  function RegisterSpec(b: Book, c: Command): Stepped
    requires c.Register?
  {
    if !c.accountKnown then Unchanged(b, NotFound)
    else if c.programId !in b.programs then Unchanged(b, BadRequest)
    else if exists d :: d in b.deposits && d.bankTransactionId == c.bankTransactionId then Unchanged(b, Conflict)
    else
      var id := |b.deposits|;
      var row := Deposit(c.programId, c.bankTransactionId, c.amount, c.currency, DETECTED);
      var saved := b.(deposits := b.deposits + [row]);
      match DetectedDepositEntry(Money(c.amount, c.currency),
                                 References(Source(DepositDetected, id), c.programId, c.actor))
      case Err(fault) => Stepped(saved, Some(fault))
      case Ok(entry) => Stepped(saved.(journal := b.journal + [entry]), None)
  }

  function MatchSpec(b: Book, c: Command): Stepped
    requires c.MatchDeposit?
  {
    if c.id >= |b.deposits| then Unchanged(b, NotFound)
    else
      var d := b.deposits[c.id];
      if d.status != DETECTED && d.status != UNMATCHED then Unchanged(b, BadRequest)
      else if c.instruction.None? then Unchanged(b, NotFound)
      else if c.instruction.value.currency != d.currency then Unchanged(b, BadRequest)
      else if c.instruction.value.amount != d.amount then Unchanged(b, BadRequest)
      else Stepped(b.(deposits := b.deposits[c.id := d.(status := MATCHED)]), None)
  }

  function ClearSpec(b: Book, c: Command): Stepped
    requires c.Clear?
  {
    if c.id >= |b.deposits| then Unchanged(b, NotFound)
    else
      var d := b.deposits[c.id];
      if d.status != MATCHED then Unchanged(b, BadRequest)
      else if !c.accountKnown then Unchanged(b, NotFound)
      else
        match ClearedReclassEntry(Money(d.amount, d.currency),
                                  References(Source(DepositClear, c.id), d.programId, c.actor))
        case Err(fault) => Unchanged(b, fault)
        case Ok(entry) =>
          Stepped(b.(journal := b.journal + [entry], deposits := b.deposits[c.id := d.(status := CLEARED)]), None)
  }

  function RequestMintSpec(b: Book, c: Command): Stepped
    requires c.RequestMint?
  {
    if c.programId !in b.programs then Unchanged(b, NotFound)
    else if c.amount <= 0 then Unchanged(b, BadRequest)
    else if exists a :: a in b.auths && a.paychainRequestId == c.paychainRequestId then Unchanged(b, Conflict)
    else
      var row := Auth(c.programId, c.paychainRequestId, c.amount, b.programs[c.programId].currency,
                      c.fundingDepositIds, PENDING_MAKER, None, None, None, NotHeld);
      Stepped(b.(auths := b.auths + [row]), None)
  }

  function ReviewSpec(b: Book, c: Command): Stepped
    requires c.Review?
  {
    if c.id >= |b.auths| then Unchanged(b, NotFound)
    else
      var a := b.auths[c.id];
      if a.status != PENDING_MAKER then Unchanged(b, BadRequest)
      else if !c.makerIsTrustee then Unchanged(b, BadRequest)
      else
        var row := a.(status := PENDING_CHECKER, approval := Some(Approval(c.makerId, None, DECISION_PENDING)));
        Stepped(b.(auths := b.auths[c.id := row]), None)
  }

  function Decided(a: Auth, checkerId: string, decision: ApprovalDecision): Option<Approval>
    requires a.approval.Some?
  {
    Some(a.approval.value.(checkerId := Some(checkerId), decision := decision))
  }

  /** Whether the guard lets the mint through on the facts of this instant. */
  function GuardVerdict(b: Book, a: Auth, env: GuardEnv): Result<bool> {
    var facts :- GuardFacts(b, a, env);
    var decision :- Decide(facts);
    Ok(decision.allowed)
  }

  /** A blocked mint: the authorization is rejected and the call fails. */
  function Refuse(b: Book, id: nat, checkerId: string): Stepped
    requires id < |b.auths| && b.auths[id].approval.Some?
  {
    var a := b.auths[id];
    var row := a.(status := REJECTED, approval := Decided(a, checkerId, DECISION_REJECTED));
    Stepped(b.(auths := b.auths[id := row]), Some(BadRequest))
  }

  /** An allowed mint: the amount is earmarked and the authorization issued for a limited time. */
  function Issue(b: Book, id: nat, checkerId: string, nowMs: int): Stepped
    requires id < |b.auths| && b.auths[id].approval.Some?
  {
    var a := b.auths[id];
    match MintReservationEntry(Money(a.amount, a.currency), References(Source(MintAuth, id), a.programId, checkerId))
    case Err(fault) => Unchanged(b, fault)
    case Ok(entry) =>
      var row := a.(status := ISSUED,
                    approval := Decided(a, checkerId, DECISION_APPROVED),
                    expiresAt := Some(nowMs + b.config.authorizationTtlMs),
                    hold := Held);
      Stepped(b.(journal := b.journal + [entry], auths := b.auths[id := row]), None)
  }

  function ApproveSpec(b: Book, c: Command): Stepped
    requires c.Approve?
  {
    if c.id >= |b.auths| then Unchanged(b, NotFound)
    else
      var a := b.auths[c.id];
      if a.status != PENDING_CHECKER then Unchanged(b, BadRequest)
      else if a.approval.None? then Unchanged(b, BadRequest)
      else if a.approval.value.makerId == c.checkerId then Unchanged(b, Forbidden)
      else if !c.checkerKnown then Unchanged(b, NotFound)
      else
        match GuardVerdict(b, a, c.env)
        case Err(fault) => Unchanged(b, fault)
        case Ok(allowed) => if allowed then Issue(b, c.id, c.checkerId, c.env.nowMs) else Refuse(b, c.id, c.checkerId)
  }

  /** No status is checked. An unknown checker fails only after the status is written. */
  function RejectSpec(b: Book, c: Command): Stepped
    requires c.Reject?
  {
    if c.id >= |b.auths| then Unchanged(b, NotFound)
    else
      var a := b.auths[c.id];
      if a.approval.None? then Unchanged(b, BadRequest)
      else if a.approval.value.makerId == c.checkerId then Unchanged(b, Forbidden)
      else if !c.checkerKnown then Stepped(b.(auths := b.auths[c.id := a.(status := REJECTED)]), Some(BadRequest))
      else
        var row := a.(status := REJECTED, approval := Decided(a, c.checkerId, DECISION_REJECTED));
        Stepped(b.(auths := b.auths[c.id := row]), None)
  }

  /** Release the earmark of an issued authorization and leave it in a final state. */
  function ReleaseAuth(b: Book, id: nat, kind: SourceKind, row: Auth, actor: string): Stepped
    requires id < |b.auths|
  {
    var a := b.auths[id];
    match MintReleaseEntry(Money(a.amount, a.currency), References(Source(kind, id), a.programId, actor))
    case Err(fault) => Unchanged(b, fault)
    case Ok(entry) => Stepped(b.(journal := b.journal + [entry], auths := b.auths[id := row]), None)
  }

  function RevokeSpec(b: Book, c: Command): Stepped
    requires c.Revoke?
  {
    if c.id >= |b.auths| then Unchanged(b, NotFound)
    else
      var a := b.auths[c.id];
      if a.status != ISSUED then Unchanged(b, BadRequest)
      else ReleaseAuth(b, c.id, MintRevoke, a.(status := REVOKED, hold := Freed(MintRevoke)), c.actor)
  }

  function ExpireAuth(b: Book, id: nat, actor: string): Stepped
    requires id < |b.auths|
  {
    var a := b.auths[id];
    if a.status != ISSUED then Stepped(b, None)
    else ReleaseAuth(b, id, MintExpire, a.(status := EXPIRED, hold := Freed(MintExpire)), actor)
  }

  function ExpireSpec(b: Book, c: Command): Stepped
    requires c.Expire?
  {
    if c.id >= |b.auths| then Unchanged(b, NotFound) else ExpireAuth(b, c.id, c.actor)
  }

  function ConfirmSpec(b: Book, c: Command): Stepped
    requires c.Confirm?
  {
    if c.id >= |b.auths| then Unchanged(b, NotFound)
    else
      var a := b.auths[c.id];
      if a.status != ISSUED then Unchanged(b, BadRequest)
      else if a.expiresAt.Some? && a.expiresAt.value < c.nowMs then
        Stepped(ExpireAuth(b, c.id, c.actor).book, Some(BadRequest))
      else if c.amount != a.amount then Unchanged(b, BadRequest)
      else
        var row := a.(status := CONSUMED, confirmation := Some(Confirmation(c.amount, c.nowMs)),
                      hold := Freed(MintConfirm));
        ReleaseAuth(b, c.id, MintConfirm, row, c.actor)
  }

  function RequestRedemptionSpec(b: Book, c: Command): Stepped
    requires c.RequestRedemption?
  {
    if c.programId !in b.programs then Unchanged(b, NotFound)
    else if !c.enabled then Unchanged(b, BadRequest)
    else if c.amount <= 0 then Unchanged(b, BadRequest)
    else if exists r :: r in b.redemptions && r.paychainRedemptionId == c.paychainRedemptionId
    then Unchanged(b, Conflict)
    else
      var row := Redemption(c.programId, c.paychainRedemptionId, c.amount, b.programs[c.programId].currency,
                            AWAITING_APPROVAL, None);
      Stepped(b.(redemptions := b.redemptions + [row]), None)
  }

  function ApproveRedemptionSpec(b: Book, c: Command): Stepped
    requires c.ApproveRedemption?
  {
    if c.id >= |b.redemptions| then Unchanged(b, NotFound)
    else
      var r := b.redemptions[c.id];
      if r.status != AWAITING_APPROVAL then Unchanged(b, BadRequest)
      else if !c.approverIsTrustee then Unchanged(b, BadRequest)
      else
        match RedemptionObligationEntry(Money(r.amount, r.currency),
                                        References(Source(RedemptionApproved, c.id), r.programId, c.approverId))
        case Err(fault) => Unchanged(b, fault)
        case Ok(entry) =>
          Stepped(b.(journal := b.journal + [entry], redemptions := b.redemptions[c.id := r.(status := APPROVED)]),
                  None)
  }

  function ConfirmBurnSpec(b: Book, c: Command): Stepped
    requires c.ConfirmBurn?
  {
    if c.id >= |b.redemptions| then Unchanged(b, NotFound)
    else
      var r := b.redemptions[c.id];
      if r.status != APPROVED && r.status != ASSET_LOCKED then Unchanged(b, BadRequest)
      else
        var row := r.(status := BURN_CONFIRMED, burnTxHash := Some(c.burnTxHash));
        Stepped(b.(redemptions := b.redemptions[c.id := row]), None)
  }

  function SubmitPayoutSpec(b: Book, c: Command): Stepped
    requires c.SubmitPayout?
  {
    if c.id >= |b.redemptions| then Unchanged(b, NotFound)
    else
      var r := b.redemptions[c.id];
      if r.status != BURN_CONFIRMED then Unchanged(b, BadRequest)
      else if !c.enabled then Unchanged(b, BadRequest)
      else Stepped(b.(redemptions := b.redemptions[c.id := r.(status := PAYOUT_SUBMITTED)]), None)
  }

  function ConfirmPayoutSpec(b: Book, c: Command): Stepped
    requires c.ConfirmPayout?
  {
    if c.id >= |b.redemptions| then Unchanged(b, NotFound)
    else
      var r := b.redemptions[c.id];
      if r.status != PAYOUT_SUBMITTED then Unchanged(b, BadRequest)
      else
        match PayoutConfirmedEntry(Money(r.amount, r.currency),
                                   References(Source(RedemptionPayout, c.id), r.programId, c.actor))
        case Err(fault) => Unchanged(b, fault)
        case Ok(entry) =>
          Stepped(b.(journal := b.journal + [entry], redemptions := b.redemptions[c.id := r.(status := COMPLETED)]),
                  None)
  }

  function AddAdjustmentSpec(b: Book, c: Command): Stepped
    requires c.AddAdjustment?
  {
    if c.programId !in b.programs then Unchanged(b, NotFound)
    else if c.kind.UNKNOWN_KIND? then Unchanged(b, NotFound)
    else
      var row := Adjustment(c.programId, b.programs[c.programId].currency, c.kind, c.amount, true);
      Stepped(b.(adjustments := b.adjustments + [row]), None)
  }

  function LiftAdjustmentSpec(b: Book, c: Command): Stepped
    requires c.LiftAdjustment?
  {
    if c.id >= |b.adjustments| then Unchanged(b, NotFound)
    else Stepped(b.(adjustments := b.adjustments[c.id := b.adjustments[c.id].(active := false)]), None)
  }

  /** The highest sequence number stored for a program, verified or not. */
  function HighestSequence(snapshots: seq<Snapshot>, programId: string): Option<int> {
    if snapshots == [] then None
    else
      var s := snapshots[|snapshots| - 1];
      var earlier := HighestSequence(snapshots[..|snapshots| - 1], programId);
      if s.programId == programId && (earlier.None? || earlier.value < s.sequence) then Some(s.sequence) else earlier
  }

  function IngestSpec(b: Book, c: Command): Stepped
    requires c.Ingest?
  {
    var highest := HighestSequence(b.snapshots, c.programId);
    if highest.Some? && c.sequence <= highest.value then Unchanged(b, Conflict)
    else if c.signatureGiven && !c.signatureValid then Unchanged(b, BadRequest)
    else if !c.signatureGiven && c.signatureRequired then Unchanged(b, BadRequest)
    else if c.programId !in b.programs then Unchanged(b, BadRequest)
    else
      var row := Snapshot(c.programId, c.sequence, c.circulating, c.timestampMs, true);
      Stepped(b.(snapshots := b.snapshots + [row]), None)
  }

  function Step(b: Book, c: Command): Stepped {
    match c
    case Register(_, _, _, _, _, _) => RegisterSpec(b, c)
    case MatchDeposit(_, _) => MatchSpec(b, c)
    case Clear(_, _, _) => ClearSpec(b, c)
    case RequestMint(_, _, _, _) => RequestMintSpec(b, c)
    case Review(_, _, _) => ReviewSpec(b, c)
    case Approve(_, _, _, _) => ApproveSpec(b, c)
    case Reject(_, _, _) => RejectSpec(b, c)
    case Revoke(_, _) => RevokeSpec(b, c)
    case Confirm(_, _, _, _) => ConfirmSpec(b, c)
    case Expire(_, _) => ExpireSpec(b, c)
    case RequestRedemption(_, _, _, _) => RequestRedemptionSpec(b, c)
    case ApproveRedemption(_, _, _) => ApproveRedemptionSpec(b, c)
    case ConfirmBurn(_, _) => ConfirmBurnSpec(b, c)
    case SubmitPayout(_, _) => SubmitPayoutSpec(b, c)
    case ConfirmPayout(_, _) => ConfirmPayoutSpec(b, c)
    case AddAdjustment(_, _, _) => AddAdjustmentSpec(b, c)
    case LiftAdjustment(_) => LiftAdjustmentSpec(b, c)
    case Ingest(_, _, _, _, _, _, _) => IngestSpec(b, c)
  }

  // ----- Runs

  function EmptyBook(programs: map<string, Program>, config: Config): Book {
    Book(programs, config, [], [], [], [], [], [])
  }

  /** The book after a sequence of service calls. */
  function Run(b: Book, calls: seq<Command>): Book {
    if calls == [] then b else Step(Run(b, calls[..|calls| - 1]), calls[|calls| - 1]).book
  }

  ghost predicate Reachable(b: Book) {
    exists programs, config, calls :: b == Run(EmptyBook(programs, config), calls)
  }
}
