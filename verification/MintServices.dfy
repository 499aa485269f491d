/** The mint authorization and redemption workflows over the reserve tables. */
module MintServices {
  import opened Results
  import opened Moneys
  import opened Journal
  import opened Entries
  import opened ReserveCalculation
  import opened MintGuard
  import opened ReserveBook
  import opened ReserveInvariants
  import opened ReserveServices

  class MintService {
    const store: Store
    const ledger: ReserveLedgerService
    const reserve: ReserveService

    constructor (store: Store, ledger: ReserveLedgerService, reserve: ReserveService)
      requires ledger.store == store && reserve.store == store && reserve.ledger == ledger
      ensures Wired()
      ensures this.store == store
    {
      this.store, this.ledger, this.reserve := store, ledger, reserve;
    }

    predicate Wired() {
      ledger.store == store && reserve.store == store && reserve.ledger == ledger
    }

    method Request(programId: string, paychainRequestId: string, amount: int, fundingDepositIds: seq<nat>)
      returns (fault: Option<Fault>)
      modifies store
      ensures Stepped(store.Model(), fault)
           == RequestMintSpec(old(store.Model()), RequestMint(programId, paychainRequestId, amount, fundingDepositIds))
      ensures Inv(old(store.Model())) ==> Inv(store.Model())
    {
      hide Inv;
      StepKeepsInv(store.Model(), RequestMint(programId, paychainRequestId, amount, fundingDepositIds));
      if programId !in store.programs { return Some(NotFound); }
      if amount <= 0 { return Some(BadRequest); }
      if exists a :: a in store.auths && a.paychainRequestId == paychainRequestId { return Some(Conflict); }
      var row := Auth(programId, paychainRequestId, amount, store.programs[programId].currency,
                      fundingDepositIds, PENDING_MAKER, None, None, None, NotHeld);
      store.auths := store.auths + [row];
      fault := None;
    }

    method Review(id: nat, makerId: string, makerIsTrustee: bool) returns (fault: Option<Fault>)
      modifies store
      ensures Stepped(store.Model(), fault)
           == ReviewSpec(old(store.Model()), Command.Review(id, makerId, makerIsTrustee))
      ensures Inv(old(store.Model())) ==> Inv(store.Model())
    {
      hide Inv;
      StepKeepsInv(store.Model(), Command.Review(id, makerId, makerIsTrustee));
      if id >= |store.auths| { return Some(NotFound); }
      var a := store.auths[id];
      if a.status != PENDING_MAKER { return Some(BadRequest); }
      if !makerIsTrustee { return Some(BadRequest); }
      var approval := Approval(makerId, None, DECISION_PENDING);
      store.auths := store.auths[id := a.(status := PENDING_CHECKER, approval := Some(approval))];
      fault := None;
    }

    /** The facts of the guard, gathered from the live position and the tables. */
    method GatherGuardFacts(a: Auth, env: GuardEnv) returns (r: Result<Facts>)
      requires Wired()
      ensures r == GuardFacts(store.Model(), a, env)
    {
      var position := reserve.Position(a.programId);
      if position.Err? { return Err(position.fault); }
      var pos := position.value;
      var cleared := FundingCleared(store.deposits, a.fundingDepositIds);
      var feedAge := LiabilityFeedAge(store.Model(), a.programId, env.nowMs);
      r := Ok(Facts(
        Money(a.amount, a.currency),
        CapacityInput(pos.currency, pos.mintCapacity, Zero(pos.currency), Zero(pos.currency), Zero(pos.currency)),
        0, store.config.maxReserveSnapshotAge,
        env.bankConnectivityAge, store.config.maxBankConnectivityAge,
        feedAge, store.config.maxLiabilityFeedAge,
        env.proofOfReserveAge, store.config.maxProofOfReserveAge,
        env.unresolvedReconciliation, env.complianceHold, env.assetSuspended, env.programSuspended,
        env.accountRestricted, cleared, true, env.mintFeatureEnabled));
    }

    method JudgeMint(a: Auth, env: GuardEnv) returns (r: Result<bool>)
      requires Wired()
      ensures r == GuardVerdict(store.Model(), a, env)
    {
      var facts := GatherGuardFacts(a, env);
      if facts.Err? { return Err(facts.fault); }
      var decision := EvaluateMintGuard(facts.value);
      if decision.Err? { return Err(decision.fault); }
      r := Ok(decision.value.allowed);
    }

    /** Approve: check the roles, judge on live facts, earmark the reserve, then issue. */
    method Approve(id: nat, checkerId: string, checkerKnown: bool, env: GuardEnv) returns (fault: Option<Fault>)
      requires Wired()
      modifies store
      ensures Stepped(store.Model(), fault)
           == ApproveSpec(old(store.Model()), Command.Approve(id, checkerId, checkerKnown, env))
      ensures Inv(old(store.Model())) ==> Inv(store.Model())
    {
      hide Inv;
      StepKeepsInv(store.Model(), Command.Approve(id, checkerId, checkerKnown, env));
      if id >= |store.auths| { return Some(NotFound); }
      var a := store.auths[id];
      if a.status != PENDING_CHECKER { return Some(BadRequest); }
      if a.approval.None? { return Some(BadRequest); }
      if a.approval.value.makerId == checkerId { return Some(Forbidden); }
      if !checkerKnown { return Some(NotFound); }
      var verdict := JudgeMint(a, env);
      if verdict.Err? { return Some(verdict.fault); }
      if !verdict.value {
        fault := RefuseRow(id, checkerId);
      } else {
        fault := IssueRow(id, checkerId, env.nowMs);
      }
    }

    method RefuseRow(id: nat, checkerId: string) returns (fault: Option<Fault>)
      requires id < |store.auths| && store.auths[id].approval.Some?
      modifies store
      ensures Stepped(store.Model(), fault) == Refuse(old(store.Model()), id, checkerId)
    {
      var a := store.auths[id];
      store.auths := store.auths[id := a.(status := REJECTED)];
      store.auths := store.auths[id := store.auths[id].(approval := Decided(a, checkerId, DECISION_REJECTED))];
      fault := Some(BadRequest);
    }

    method IssueRow(id: nat, checkerId: string, nowMs: int) returns (fault: Option<Fault>)
      requires Wired()
      requires id < |store.auths| && store.auths[id].approval.Some?
      modifies store
      ensures Stepped(store.Model(), fault) == Issue(old(store.Model()), id, checkerId, nowMs)
    {
      var a := store.auths[id];
      var entry := MintReservationEntry(Money(a.amount, a.currency),
                                        References(Source(MintAuth, id), a.programId, checkerId));
      if entry.Err? { return Some(entry.fault); }
      ledger.Post(entry.value);
      var expiresAt := nowMs + store.config.authorizationTtlMs;
      store.auths := store.auths[id := a.(status := ISSUED, expiresAt := Some(expiresAt), hold := Held)];
      store.auths := store.auths[id := store.auths[id].(approval := Decided(a, checkerId, DECISION_APPROVED))];
      fault := None;
    }

    /** Two writes: the status first, then the approval record, which needs a known checker. */
    method Reject(id: nat, checkerId: string, checkerKnown: bool) returns (fault: Option<Fault>)
      modifies store
      ensures Stepped(store.Model(), fault)
           == RejectSpec(old(store.Model()), Command.Reject(id, checkerId, checkerKnown))
      ensures Inv(old(store.Model())) ==> Inv(store.Model())
    {
      hide Inv;
      StepKeepsInv(store.Model(), Command.Reject(id, checkerId, checkerKnown));
      if id >= |store.auths| { return Some(NotFound); }
      var a := store.auths[id];
      if a.approval.None? { return Some(BadRequest); }
      if a.approval.value.makerId == checkerId { return Some(Forbidden); }
      store.auths := store.auths[id := a.(status := REJECTED)];
      if !checkerKnown { return Some(BadRequest); }
      store.auths := store.auths[id := store.auths[id].(approval := Decided(a, checkerId, DECISION_REJECTED))];
      fault := None;
    }

    method Release(id: nat, kind: SourceKind, row: Auth, actor: string) returns (fault: Option<Fault>)
      requires Wired()
      requires id < |store.auths|
      modifies store
      ensures Stepped(store.Model(), fault) == ReleaseAuth(old(store.Model()), id, kind, row, actor)
    {
      var a := store.auths[id];
      var entry := MintReleaseEntry(Money(a.amount, a.currency), References(Source(kind, id), a.programId, actor));
      if entry.Err? { return Some(entry.fault); }
      ledger.Post(entry.value);
      store.auths := store.auths[id := row];
      fault := None;
    }

    method Revoke(id: nat, actor: string) returns (fault: Option<Fault>)
      requires Wired()
      modifies store
      ensures Stepped(store.Model(), fault) == RevokeSpec(old(store.Model()), Command.Revoke(id, actor))
      ensures Inv(old(store.Model())) ==> Inv(store.Model())
    {
      hide Inv;
      StepKeepsInv(store.Model(), Command.Revoke(id, actor));
      if id >= |store.auths| { return Some(NotFound); }
      var a := store.auths[id];
      if a.status != ISSUED { return Some(BadRequest); }
      fault := Release(id, MintRevoke, a.(status := REVOKED, hold := Freed(MintRevoke)), actor);
    }

    /** A late confirmation expires the authorization; a matching one consumes it. */
    method Confirm(id: nat, amount: int, nowMs: int, actor: string) returns (fault: Option<Fault>)
      requires Wired()
      modifies store
      ensures Stepped(store.Model(), fault)
           == ConfirmSpec(old(store.Model()), Command.Confirm(id, amount, nowMs, actor))
      ensures Inv(old(store.Model())) ==> Inv(store.Model())
    {
      hide Inv;
      StepKeepsInv(store.Model(), Command.Confirm(id, amount, nowMs, actor));
      if id >= |store.auths| { return Some(NotFound); }
      var a := store.auths[id];
      if a.status != ISSUED { return Some(BadRequest); }
      if a.expiresAt.Some? && a.expiresAt.value < nowMs {
        var _ := Expire(id, actor);
        return Some(BadRequest);
      }
      if amount != a.amount { return Some(BadRequest); }
      var row := a.(status := CONSUMED, confirmation := Some(Confirmation(amount, nowMs)), hold := Freed(MintConfirm));
      fault := Release(id, MintConfirm, row, actor);
    }

    method Expire(id: nat, actor: string) returns (fault: Option<Fault>)
      requires Wired()
      modifies store
      ensures Stepped(store.Model(), fault) == ExpireSpec(old(store.Model()), Command.Expire(id, actor))
      ensures Inv(old(store.Model())) ==> Inv(store.Model())
    {
      hide Inv;
      StepKeepsInv(store.Model(), Command.Expire(id, actor));
      if id >= |store.auths| { return Some(NotFound); }
      var a := store.auths[id];
      if a.status != ISSUED { return None; }
      fault := Release(id, MintExpire, a.(status := EXPIRED, hold := Freed(MintExpire)), actor);
    }
  }

  class RedemptionService {
    const store: Store
    const ledger: ReserveLedgerService

    constructor (store: Store, ledger: ReserveLedgerService)
      requires ledger.store == store
      ensures this.store == store && this.ledger == ledger
    {
      this.store, this.ledger := store, ledger;
    }

    method Request(programId: string, paychainRedemptionId: string, enabled: bool, amount: int)
      returns (fault: Option<Fault>)
      modifies store
      ensures Stepped(store.Model(), fault)
           == RequestRedemptionSpec(old(store.Model()),
                                    RequestRedemption(programId, paychainRedemptionId, enabled, amount))
      ensures Inv(old(store.Model())) ==> Inv(store.Model())
    {
      hide Inv;
      StepKeepsInv(store.Model(), RequestRedemption(programId, paychainRedemptionId, enabled, amount));
      if programId !in store.programs { return Some(NotFound); }
      if !enabled { return Some(BadRequest); }
      if amount <= 0 { return Some(BadRequest); }
      if exists r :: r in store.redemptions && r.paychainRedemptionId == paychainRedemptionId {
        return Some(Conflict);
      }
      var row := Redemption(programId, paychainRedemptionId, amount, store.programs[programId].currency,
                            AWAITING_APPROVAL, None);
      store.redemptions := store.redemptions + [row];
      fault := None;
    }

    method Approve(id: nat, approverId: string, approverIsTrustee: bool) returns (fault: Option<Fault>)
      requires ledger.store == store
      modifies store
      ensures Stepped(store.Model(), fault)
           == ApproveRedemptionSpec(old(store.Model()), ApproveRedemption(id, approverId, approverIsTrustee))
      ensures Inv(old(store.Model())) ==> Inv(store.Model())
    {
      hide Inv;
      StepKeepsInv(store.Model(), ApproveRedemption(id, approverId, approverIsTrustee));
      if id >= |store.redemptions| { return Some(NotFound); }
      var r := store.redemptions[id];
      if r.status != AWAITING_APPROVAL { return Some(BadRequest); }
      if !approverIsTrustee { return Some(BadRequest); }
      var entry := RedemptionObligationEntry(Money(r.amount, r.currency),
                                             References(Source(RedemptionApproved, id), r.programId, approverId));
      if entry.Err? { return Some(entry.fault); }
      ledger.Post(entry.value);
      store.redemptions := store.redemptions[id := r.(status := APPROVED)];
      fault := None;
    }

    method ConfirmBurn(id: nat, burnTxHash: string) returns (fault: Option<Fault>)
      modifies store
      ensures Stepped(store.Model(), fault) == ConfirmBurnSpec(old(store.Model()), Command.ConfirmBurn(id, burnTxHash))
      ensures Inv(old(store.Model())) ==> Inv(store.Model())
    {
      hide Inv;
      StepKeepsInv(store.Model(), Command.ConfirmBurn(id, burnTxHash));
      if id >= |store.redemptions| { return Some(NotFound); }
      var r := store.redemptions[id];
      if r.status != APPROVED && r.status != ASSET_LOCKED { return Some(BadRequest); }
      store.redemptions := store.redemptions[id := r.(status := BURN_CONFIRMED, burnTxHash := Some(burnTxHash))];
      fault := None;
    }

    method SubmitPayout(id: nat, enabled: bool) returns (fault: Option<Fault>)
      modifies store
      ensures Stepped(store.Model(), fault) == SubmitPayoutSpec(old(store.Model()), Command.SubmitPayout(id, enabled))
      ensures Inv(old(store.Model())) ==> Inv(store.Model())
    {
      hide Inv;
      StepKeepsInv(store.Model(), Command.SubmitPayout(id, enabled));
      if id >= |store.redemptions| { return Some(NotFound); }
      var r := store.redemptions[id];
      if r.status != BURN_CONFIRMED { return Some(BadRequest); }
      if !enabled { return Some(BadRequest); }
      store.redemptions := store.redemptions[id := r.(status := PAYOUT_SUBMITTED)];
      fault := None;
    }

    method ConfirmPayout(id: nat, actor: string) returns (fault: Option<Fault>)
      requires ledger.store == store
      modifies store
      ensures Stepped(store.Model(), fault) == ConfirmPayoutSpec(old(store.Model()), Command.ConfirmPayout(id, actor))
      ensures Inv(old(store.Model())) ==> Inv(store.Model())
    {
      hide Inv;
      StepKeepsInv(store.Model(), Command.ConfirmPayout(id, actor));
      if id >= |store.redemptions| { return Some(NotFound); }
      var r := store.redemptions[id];
      if r.status != PAYOUT_SUBMITTED { return Some(BadRequest); }
      var entry := PayoutConfirmedEntry(Money(r.amount, r.currency),
                                        References(Source(RedemptionPayout, id), r.programId, actor));
      if entry.Err? { return Some(entry.fault); }
      ledger.Post(entry.value);
      store.redemptions := store.redemptions[id := r.(status := COMPLETED)];
      fault := None;
    }
  }
}
