/** What each reserve call does, told by rows and balances: when it succeeds, what it writes, and what it leaves. */
module ReserveEffects {
  import opened Results
  import opened Moneys
  import opened Sums
  import opened Journal
  import opened Entries
  import opened Ledger
  import opened LedgerMoves
  import opened Traces
  import opened ReserveBook
  import opened ReserveInvariants
  import opened FullReserve
  import opened MintClearance

  // ----- Deposits

  /**
   * A registration writes its row as soon as account, program and bank transaction are in order, and books it as
   * unmatched cash, and succeeds, exactly when the amount is positive too.
   */
  lemma RegisterOutcome(b: Book, call: Command)
    requires call.Register?
    ensures var s := Step(b, call);
            var free := call.accountKnown && call.programId in b.programs
                        && forall i :: 0 <= i < |b.deposits| ==>
                                         b.deposits[i].bankTransactionId != call.bankTransactionId;
            var row := Deposit(call.programId, call.bankTransactionId, call.amount, call.currency, DETECTED);
            && (s.fault.None? <==> free && call.amount > 0)
            && (!free ==> s.book == b)
            && (free ==> s.book == b.(journal := s.book.journal, deposits := b.deposits + [row]))
            && (free && call.amount <= 0 ==> s.book.journal == b.journal)
            && (s.fault.None? ==> Shifts(b.journal, s.book.journal, call.programId, call.currency,
                                         TrusteeBankCash, call.amount, UnmatchedDeposit, call.amount))
  {
    hide Inv, Transfer, Balance, Shifts, DebitNormal, TypeOf;
    Sides();
    var money := Money(call.amount, call.currency);
    var refs := References(Source(DepositDetected, |b.deposits|), call.programId, call.actor);
    TransferAccepts(TrusteeBankCash, UnmatchedDeposit, money, refs);
    var s := Step(b, call);
    if s.fault.None? { TransferShifts(b.journal, s.book.journal, TrusteeBankCash, UnmatchedDeposit, money, refs); }
  }

  /** A match succeeds exactly for an unmatched deposit and an instruction of its currency and amount. */
  lemma MatchOutcome(b: Book, call: Command)
    requires call.MatchDeposit?
    ensures var s := Step(b, call);
            var fits := call.id < |b.deposits| && b.deposits[call.id].status in {DETECTED, UNMATCHED}
                        && call.instruction
                           == Some(FundingInstruction(b.deposits[call.id].amount, b.deposits[call.id].currency));
            && (s.fault.None? <==> fits)
            && (!fits ==> s.book == b)
            && (fits ==>
                  s.book == b.(deposits := b.deposits[call.id := b.deposits[call.id].(status := MATCHED)]))
  {
    if call.instruction.Some? {
      var i := call.instruction.value;
      assert i == FundingInstruction(i.amount, i.currency);
    }
  }

  /** Clearing turns a matched amount from unmatched into obligation. */
  lemma ClearOutcome(b: Book, call: Command)
    requires call.Clear?
    ensures var s := Step(b, call);
            var ready := call.id < |b.deposits| && b.deposits[call.id].status == MATCHED && call.accountKnown
                         && b.deposits[call.id].amount > 0;
            && (s.fault.None? <==> ready)
            && (!ready ==> s.book == b)
            && (ready ==>
                  var d := b.deposits[call.id];
                  && s.book == b.(journal := s.book.journal, deposits := b.deposits[call.id := d.(status := CLEARED)])
                  && Shifts(b.journal, s.book.journal, d.programId, d.currency,
                            UnmatchedDeposit, -d.amount, ReserveObligation, d.amount))
  {
    hide Inv, Transfer, Balance, Shifts, DebitNormal, TypeOf;
    Sides();
    if call.id < |b.deposits| {
      var d := b.deposits[call.id];
      var money := Money(d.amount, d.currency);
      var refs := References(Source(DepositClear, call.id), d.programId, call.actor);
      TransferAccepts(UnmatchedDeposit, ReserveObligation, money, refs);
        var s := Step(b, call);
      if s.fault.None? { TransferShifts(b.journal, s.book.journal, UnmatchedDeposit, ReserveObligation, money, refs); }
    }
  }

  // ----- Authorizations

  lemma RequestMintOutcome(b: Book, call: Command)
    requires call.RequestMint?
    ensures var s := Step(b, call);
            var free := call.programId in b.programs && call.amount > 0
                        && forall i :: 0 <= i < |b.auths| ==> b.auths[i].paychainRequestId != call.paychainRequestId;
            && (s.fault.None? <==> free)
            && (!free ==> s.book == b)
            && (free ==>
                  s.book == b.(auths := b.auths + [
                    Auth(call.programId, call.paychainRequestId, call.amount, b.programs[call.programId].currency,
                         call.fundingDepositIds, PENDING_MAKER, None, None, None, NotHeld)]))
  {
  }

  lemma ReviewOutcome(b: Book, call: Command)
    requires call.Review?
    ensures var s := Step(b, call);
            var ready := call.id < |b.auths| && b.auths[call.id].status == PENDING_MAKER && call.makerIsTrustee;
            && (s.fault.None? <==> ready)
            && (!ready ==> s.book == b)
            && (ready ==>
                  s.book == b.(auths := b.auths[call.id := b.auths[call.id].(
                    status := PENDING_CHECKER, approval := Some(Approval(call.makerId, None, DECISION_PENDING)))]))
  {
  }

  /** What must hold before the guard is asked. */
  predicate AwaitsChecker(b: Book, call: Command)
    requires call.Approve?
  {
    && call.id < |b.auths|
    && b.auths[call.id].status == PENDING_CHECKER
    && b.auths[call.id].approval.Some?
    && b.auths[call.id].approval.value.makerId != call.checkerId
    && call.checkerKnown
  }

  /** The amount is earmarked, and the authorization approved by the checker and issued until its term ends. */
  ghost predicate IssuedFrom(b: Book, after: Book, i: nat, checkerId: string, nowMs: int)
    requires i < |b.auths| && b.auths[i].approval.Some?
  {
    var a := b.auths[i];
    var row := a.(status := ISSUED, hold := Held,
                  approval := Some(Approval(a.approval.value.makerId, Some(checkerId), DECISION_APPROVED)),
                  expiresAt := Some(nowMs + b.config.authorizationTtlMs));
    && after == b.(journal := after.journal, auths := b.auths[i := row])
    && Shifts(b.journal, after.journal, a.programId, a.currency, ReserveObligation, -a.amount, PendingMint, a.amount)
  }

  /** The authorization is rejected by the checker; nothing else is written. */
  ghost predicate RefusedFrom(b: Book, after: Book, i: nat, checkerId: string)
    requires i < |b.auths| && b.auths[i].approval.Some?
  {
    var a := b.auths[i];
    after == b.(auths := b.auths[i := a.(
      status := REJECTED,
      approval := Some(Approval(a.approval.value.makerId, Some(checkerId), DECISION_REJECTED)))])
  }

  /**
   * An approval succeeds exactly when it awaits this checker and nothing stands against the mint. It then earmarks
   * the amount and issues the authorization for a limited time. A blocked one is rejected and nothing is posted;
   * without a position to judge it by, nothing is written at all.
   */
  lemma ApproveOutcome(b: Book, call: Command)
    requires call.Approve? && FeedOrdered(b.snapshots)
    ensures var s := Step(b, call);
            && (s.fault.None? <==> AwaitsChecker(b, call) && MintClear(b, b.auths[call.id], call.env))
            && (!AwaitsChecker(b, call) ==> s.book == b)
            && (s.fault.None? ==> IssuedFrom(b, s.book, call.id, call.checkerId, call.env.nowMs))
            && (AwaitsChecker(b, call) && s.fault.Some? ==>
                  if PositionOf(b, b.auths[call.id].programId).Ok?
                  then RefusedFrom(b, s.book, call.id, call.checkerId) else s.book == b)
  {
    if AwaitsChecker(b, call) {
      var a := b.auths[call.id];
      GuardSaysYesExactlyWhen(b, a, call.env);
      VerdictIsGiven(b, a, call.env);
      ApproveAsJudged(b, call);
      if MintClear(b, a, call.env) { IssueOutcome(b, call.id, call.checkerId, call.env.nowMs); }
      hide *;
    } else {
      ApproveWaits(b, call);
    }
  }

  lemma ApproveWaits(b: Book, call: Command)
    requires call.Approve? && !AwaitsChecker(b, call)
    ensures Step(b, call).book == b && Step(b, call).fault.Some?
  {
    hide GuardVerdict, Issue, Refuse;
  }

  lemma ApproveAsJudged(b: Book, call: Command)
    requires call.Approve? && AwaitsChecker(b, call)
    ensures var s, verdict := Step(b, call), GuardVerdict(b, b.auths[call.id], call.env);
            && (verdict == Result.Ok(true) ==> s == Issue(b, call.id, call.checkerId, call.env.nowMs))
            && (verdict == Result.Ok(false) ==>
                  s.fault.Some? && RefusedFrom(b, s.book, call.id, call.checkerId))
            && (verdict.Err? ==> s.fault.Some? && s.book == b)
  {
    hide GuardVerdict, Issue;
  }

  lemma IssueOutcome(b: Book, i: nat, checkerId: string, nowMs: int)
    requires i < |b.auths| && b.auths[i].approval.Some? && b.auths[i].amount > 0
    ensures Issue(b, i, checkerId, nowMs).fault.None?
    ensures IssuedFrom(b, Issue(b, i, checkerId, nowMs).book, i, checkerId, nowMs)
  {
    hide Inv, Transfer, Balance, Shifts, DebitNormal, TypeOf;
    Sides();
    var a := b.auths[i];
    var money, refs := Money(a.amount, a.currency), References(Source(MintAuth, i), a.programId, checkerId);
    TransferAccepts(ReserveObligation, PendingMint, money, refs);
    TransferShifts(b.journal, Issue(b, i, checkerId, nowMs).book.journal, ReserveObligation, PendingMint, money, refs);
  }

  /** A rejection asks only for a review by another hand; an unknown checker still leaves the row rejected. */
  lemma RejectOutcome(b: Book, call: Command)
    requires call.Reject?
    ensures var s := Step(b, call);
            var ready := call.id < |b.auths| && b.auths[call.id].approval.Some?
                         && b.auths[call.id].approval.value.makerId != call.checkerId;
            && (s.fault.None? <==> ready && call.checkerKnown)
            && (!ready ==> s.book == b)
            && (ready ==>
                  var a := b.auths[call.id];
                  var decided := Some(Approval(a.approval.value.makerId, Some(call.checkerId), DECISION_REJECTED));
                  s.book == b.(auths := b.auths[call.id := a.(
                    status := REJECTED, approval := if call.checkerKnown then decided else a.approval)]))
  {
  }

  /** The earmark of an issued authorization is given back and its row left as told. */
  lemma ReleaseOutcome(b: Book, i: nat, kind: SourceKind, row: Auth, actor: string)
    requires i < |b.auths| && b.auths[i].amount > 0
    ensures var s, a := ReleaseAuth(b, i, kind, row, actor), b.auths[i];
            && s.fault.None?
            && s.book == b.(journal := s.book.journal, auths := b.auths[i := row])
            && Shifts(b.journal, s.book.journal, a.programId, a.currency,
                      PendingMint, -a.amount, ReserveObligation, a.amount)
  {
    hide Inv, Transfer, Balance, Shifts, DebitNormal, TypeOf;
    Sides();
    var a := b.auths[i];
    var money, refs := Money(a.amount, a.currency), References(Source(kind, i), a.programId, actor);
    TransferAccepts(PendingMint, ReserveObligation, money, refs);
    TransferShifts(b.journal, ReleaseAuth(b, i, kind, row, actor).book.journal, PendingMint, ReserveObligation, money,
                   refs);
  }

  /** A revocation succeeds exactly on an issued authorization, revokes it and gives its earmark back. */
  lemma RevokeOutcome(b: Book, call: Command)
    requires Inv(b) && call.Revoke?
    ensures var s := Step(b, call);
            var issued := call.id < |b.auths| && b.auths[call.id].status == ISSUED;
            && (s.fault.None? <==> issued)
            && (!issued ==> s.book == b)
            && (issued ==>
                  var a := b.auths[call.id];
                  var row := a.(status := REVOKED, hold := Freed(MintRevoke));
                  && s.book == b.(journal := s.book.journal, auths := b.auths[call.id := row])
                  && Shifts(b.journal, s.book.journal, a.programId, a.currency,
                            PendingMint, -a.amount, ReserveObligation, a.amount))
  {
    hide ReleaseAuth, Shifts;
    if call.id < |b.auths| && b.auths[call.id].status == ISSUED {
      var a := b.auths[call.id];
      IssuedIsHeld(b, call.id);
      hide Inv;
      ReleaseOutcome(b, call.id, MintRevoke, a.(status := REVOKED, hold := Freed(MintRevoke)), call.actor);
    } else {
      hide Inv;
    }
  }

  /** Expiring gives the earmark of an issued authorization back; on any other it does nothing and succeeds. */
  lemma ExpireOutcome(b: Book, call: Command)
    requires Inv(b) && call.Expire?
    ensures var s := Step(b, call);
            && (s.fault.None? <==> call.id < |b.auths|)
            && (call.id < |b.auths| && b.auths[call.id].status == ISSUED ==> ExpiredFrom(b, s.book, call.id))
            && (!(call.id < |b.auths| && b.auths[call.id].status == ISSUED) ==> s.book == b)
  {
    hide ReleaseAuth, ExpiredFrom;
    if call.id < |b.auths| && b.auths[call.id].status == ISSUED { ExpireIssued(b, call.id, call.actor); }
    hide Inv;
  }

  ghost predicate ExpiredFrom(b: Book, after: Book, i: nat)
    requires i < |b.auths|
  {
    var a := b.auths[i];
    && after == b.(journal := after.journal,
                   auths := b.auths[i := a.(status := EXPIRED, hold := Freed(MintExpire))])
    && Shifts(b.journal, after.journal, a.programId, a.currency, PendingMint, -a.amount, ReserveObligation, a.amount)
  }

  lemma ExpireIssued(b: Book, i: nat, actor: string)
    requires Inv(b) && i < |b.auths| && b.auths[i].status == ISSUED
    ensures ExpireAuth(b, i, actor).fault.None? && ExpiredFrom(b, ExpireAuth(b, i, actor).book, i)
  {
    hide Inv, ReleaseAuth, Shifts;
    IssuedIsHeld(b, i);
    ReleaseOutcome(b, i, MintExpire, b.auths[i].(status := EXPIRED, hold := Freed(MintExpire)), actor);
  }

  /**
   * A confirmation succeeds exactly on an issued authorization, in its term and for its amount; it then consumes it
   * and gives the earmark back. One that comes late fails and leaves the authorization expired.
   */
  lemma ConfirmOutcome(b: Book, call: Command)
    requires Inv(b) && call.Confirm?
    ensures var s := Step(b, call);
            var issued := call.id < |b.auths| && b.auths[call.id].status == ISSUED;
            && (issued ==> b.auths[call.id].expiresAt.Some?)
            && (s.fault.None? <==> issued && call.nowMs <= b.auths[call.id].expiresAt.value
                                   && call.amount == b.auths[call.id].amount)
            && (issued && b.auths[call.id].expiresAt.value < call.nowMs ==> ExpiredFrom(b, s.book, call.id))
            && (s.fault.None? && issued ==> ConsumedFrom(b, s.book, call.id, call.nowMs))
            && (!issued || (call.nowMs <= b.auths[call.id].expiresAt.value && call.amount != b.auths[call.id].amount)
                ==> s.book == b)
  {
    hide ReleaseAuth, ExpiredFrom, ConsumedFrom;
    if call.id < |b.auths| && b.auths[call.id].status == ISSUED {
      IssuedHasTerm(b, call.id);
      ExpireIssued(b, call.id, call.actor);
      ConsumeIssued(b, call.id, call.nowMs, call.actor);
    }
    hide Inv, ExpireAuth;
  }

  ghost predicate ConsumedFrom(b: Book, after: Book, i: nat, nowMs: int)
    requires i < |b.auths|
  {
    var a := b.auths[i];
    var row := a.(status := CONSUMED, confirmation := Some(Confirmation(a.amount, nowMs)), hold := Freed(MintConfirm));
    && after == b.(journal := after.journal, auths := b.auths[i := row])
    && Shifts(b.journal, after.journal, a.programId, a.currency, PendingMint, -a.amount, ReserveObligation, a.amount)
  }

  lemma IssuedHasTerm(b: Book, i: nat)
    requires Inv(b) && i < |b.auths| && b.auths[i].status == ISSUED
    ensures b.auths[i].expiresAt.Some?
  {
    assert AuthLife(b.auths[i], i, b.programs, Trace(b.journal, MintFamily, i));
  }

  lemma ConsumeIssued(b: Book, i: nat, nowMs: int, actor: string)
    requires Inv(b) && i < |b.auths| && b.auths[i].status == ISSUED
    ensures var a := b.auths[i];
            var row := a.(status := CONSUMED, confirmation := Some(Confirmation(a.amount, nowMs)),
                          hold := Freed(MintConfirm));
            var s := ReleaseAuth(b, i, MintConfirm, row, actor);
            s.fault.None? && ConsumedFrom(b, s.book, i, nowMs)
  {
    hide Inv, ReleaseAuth, Shifts;
    IssuedIsHeld(b, i);
    var a := b.auths[i];
    ReleaseOutcome(b, i, MintConfirm, a.(status := CONSUMED, confirmation := Some(Confirmation(a.amount, nowMs)),
                                         hold := Freed(MintConfirm)), actor);
  }

  // ----- An authorization that has ended

  predicate Ended(a: Auth) {
    a.status !in {PENDING_MAKER, PENDING_CHECKER, ISSUED}
  }

  /** Once ended, an authorization only ever changes into a rejected one. */
  lemma EndedStays(b: Book, call: Command, i: nat)
    requires i < |b.auths| && Ended(b.auths[i])
    ensures i < |Step(b, call).book.auths| && Ended(Step(b, call).book.auths[i])
    ensures Step(b, call).book.auths[i].confirmation == b.auths[i].confirmation
  {
    hide GuardVerdict, Transfer, HighestSequence, Balance;
    match call
    case Approve(_, _, _, _) => EndedNotApproved(b, call, i);
    case Revoke(_, _) => EndedNotReleased(b, call, i);
    case Confirm(_, _, _, _) => EndedNotReleased(b, call, i);
    case Expire(_, _) => EndedNotReleased(b, call, i);
    case _ =>
  }

  lemma EndedNotApproved(b: Book, call: Command, i: nat)
    requires call.Approve? && i < |b.auths| && Ended(b.auths[i])
    ensures |Step(b, call).book.auths| == |b.auths| && Step(b, call).book.auths[i] == b.auths[i]
  {
    hide GuardVerdict, Transfer;
  }

  lemma EndedNotReleased(b: Book, call: Command, i: nat)
    requires (call.Revoke? || call.Confirm? || call.Expire?) && i < |b.auths| && Ended(b.auths[i])
    ensures |Step(b, call).book.auths| == |b.auths| && Step(b, call).book.auths[i] == b.auths[i]
  {
    hide Transfer;
  }

  lemma {:induction false} EndedForever(b: Book, calls: seq<Command>, i: nat)
    requires i < |b.auths| && Ended(b.auths[i])
    ensures i < |Run(b, calls).auths| && Ended(Run(b, calls).auths[i])
    ensures Run(b, calls).auths[i].confirmation == b.auths[i].confirmation
  {
    if calls != [] {
      hide Step, Ended;
      EndedForever(b, calls[..|calls| - 1], i);
      EndedStays(Run(b, calls[..|calls| - 1]), calls[|calls| - 1], i);
    }
  }

  lemma RevokedIsUnconfirmed(b: Book, i: nat)
    requires Inv(b) && i < |b.auths| && b.auths[i].status in {REVOKED, EXPIRED}
    ensures b.auths[i].confirmation.None? && Ended(b.auths[i])
  {
    assert AuthLife(b.auths[i], i, b.programs, Trace(b.journal, MintFamily, i));
  }

  /** A revoked or expired authorization is not confirmed and never will be, whatever calls follow. */
  lemma RevokedIsNeverConfirmed(b: Book, calls: seq<Command>, i: nat)
    requires Inv(b) && i < |b.auths| && b.auths[i].status in {REVOKED, EXPIRED}
    ensures i < |Run(b, calls).auths| && Run(b, calls).auths[i].confirmation.None?
    ensures Run(b, calls).auths[i].status != ISSUED
  {
    RevokedIsUnconfirmed(b, i);
    EndedForever(b, calls, i);
    hide Run, Inv;
  }

  // ----- Redemptions

  lemma RequestRedemptionOutcome(b: Book, call: Command)
    requires call.RequestRedemption?
    ensures var s := Step(b, call);
            var free := call.programId in b.programs && call.enabled && call.amount > 0
                        && forall i :: 0 <= i < |b.redemptions| ==>
                                         b.redemptions[i].paychainRedemptionId != call.paychainRedemptionId;
            && (s.fault.None? <==> free)
            && (!free ==> s.book == b)
            && (free ==>
                  s.book == b.(redemptions := b.redemptions + [
                    Redemption(call.programId, call.paychainRedemptionId, call.amount,
                               b.programs[call.programId].currency, AWAITING_APPROVAL, None)]))
  {
  }

  lemma RedemptionAmountPositive(b: Book, i: nat)
    requires Inv(b) && i < |b.redemptions|
    ensures b.redemptions[i].amount > 0
  {
    assert RedemptionLife(b.redemptions[i], i, b.programs, Trace(b.journal, RedemptionFamily, i));
  }

  /** Approving turns the amount of an awaiting redemption from obligation into pending redemption. */
  lemma ApproveRedemptionOutcome(b: Book, call: Command)
    requires Inv(b) && call.ApproveRedemption?
    ensures var s := Step(b, call);
            var ready := call.id < |b.redemptions| && b.redemptions[call.id].status == AWAITING_APPROVAL
                         && call.approverIsTrustee;
            && (s.fault.None? <==> ready)
            && (!ready ==> s.book == b)
            && (ready ==>
                  var r := b.redemptions[call.id];
                  && s.book == b.(journal := s.book.journal,
                                  redemptions := b.redemptions[call.id := r.(status := APPROVED)])
                  && Shifts(b.journal, s.book.journal, r.programId, r.currency,
                            ReserveObligation, -r.amount, PendingRedemption, r.amount))
  {
    hide Inv, Transfer, Balance, Shifts, DebitNormal, TypeOf;
    Sides();
    if call.id < |b.redemptions| {
      RedemptionAmountPositive(b, call.id);
      var r := b.redemptions[call.id];
      var money := Money(r.amount, r.currency);
      var refs := References(Source(RedemptionApproved, call.id), r.programId, call.approverId);
      TransferAccepts(ReserveObligation, PendingRedemption, money, refs);
      var s := Step(b, call);
      if s.fault.None? { TransferShifts(b.journal, s.book.journal, ReserveObligation, PendingRedemption, money, refs); }
    }
  }

  lemma ConfirmBurnOutcome(b: Book, call: Command)
    requires call.ConfirmBurn?
    ensures var s := Step(b, call);
            var ready := call.id < |b.redemptions| && b.redemptions[call.id].status in {APPROVED, ASSET_LOCKED};
            && (s.fault.None? <==> ready)
            && (!ready ==> s.book == b)
            && (ready ==>
                  s.book == b.(redemptions := b.redemptions[call.id := b.redemptions[call.id].(
                    status := BURN_CONFIRMED, burnTxHash := Some(call.burnTxHash))]))
  {
  }

  lemma SubmitPayoutOutcome(b: Book, call: Command)
    requires call.SubmitPayout?
    ensures var s := Step(b, call);
            var ready := call.id < |b.redemptions| && b.redemptions[call.id].status == BURN_CONFIRMED && call.enabled;
            && (s.fault.None? <==> ready)
            && (!ready ==> s.book == b)
            && (ready ==>
                  s.book == b.(redemptions := b.redemptions[call.id := b.redemptions[call.id].(
                    status := PAYOUT_SUBMITTED)]))
  {
  }

  /** A confirmed payout pays the pending amount out of cash. */
  lemma ConfirmPayoutOutcome(b: Book, call: Command)
    requires Inv(b) && call.ConfirmPayout?
    ensures var s := Step(b, call);
            var ready := call.id < |b.redemptions| && b.redemptions[call.id].status == PAYOUT_SUBMITTED;
            && (s.fault.None? <==> ready)
            && (!ready ==> s.book == b)
            && (ready ==>
                  var r := b.redemptions[call.id];
                  && s.book == b.(journal := s.book.journal,
                                  redemptions := b.redemptions[call.id := r.(status := COMPLETED)])
                  && Shifts(b.journal, s.book.journal, r.programId, r.currency,
                            PendingRedemption, -r.amount, TrusteeBankCash, -r.amount))
  {
    hide Inv, Transfer, Balance, Shifts, DebitNormal, TypeOf;
    Sides();
    if call.id < |b.redemptions| {
      RedemptionAmountPositive(b, call.id);
      var r := b.redemptions[call.id];
      var money := Money(r.amount, r.currency);
      var refs := References(Source(RedemptionPayout, call.id), r.programId, call.actor);
      TransferAccepts(PendingRedemption, TrusteeBankCash, money, refs);
      var s := Step(b, call);
      if s.fault.None? { TransferShifts(b.journal, s.book.journal, PendingRedemption, TrusteeBankCash, money, refs); }
    }
  }

  // ----- Adjustments

  /**
   * An adjustment adds its amount to the total of its own kind in its program and currency, and to no other. With
   * nothing on record every total is zero, so these totals are those of the adjustments in force.
   */
  lemma AddAdjustmentOutcome(b: Book, call: Command)
    requires call.AddAdjustment?
    ensures var s := Step(b, call);
            var known := call.programId in b.programs
                         && call.kind in {RESTRICTED, REGULATORY_HOLD, OPERATIONAL, BANK_CHARGE};
            && (s.fault.None? <==> known)
            && (!known ==> s.book == b)
            && s.book == b.(adjustments := s.book.adjustments)
            && (known ==>
                  forall p, c, k ::
                    AdjustmentTotal(s.book, p, c, k)
                    == AdjustmentTotal(b, p, c, k)
                       + (if p == call.programId && c == b.programs[call.programId].currency && k == call.kind
                          then call.amount else 0))
  {
    var s := Step(b, call);
    if s.fault.None? {
      var row := s.book.adjustments[|b.adjustments|];
      forall p, c, k
        ensures AdjustmentTotal(s.book, p, c, k)
             == AdjustmentTotal(b, p, c, k) + AdjustmentWeight(p, c, k)(row)
      {
        RowSumAppend(b.adjustments, row, AdjustmentWeight(p, c, k));
      }
    }
  }

  lemma NothingAdjusted(b: Book, p: string, c: Currency, k: AdjustmentKind)
    requires b.adjustments == []
    ensures AdjustmentTotal(b, p, c, k) == 0
  {
  }

  /** Lifting takes the amount of an active adjustment out of its total again; a lifted one counts for nothing. */
  lemma LiftAdjustmentOutcome(b: Book, call: Command)
    requires call.LiftAdjustment?
    ensures var s := Step(b, call);
            && (s.fault.None? <==> call.id < |b.adjustments|)
            && s.book == b.(adjustments := s.book.adjustments)
            && (call.id >= |b.adjustments| ==> s.book == b)
            && (call.id < |b.adjustments| ==>
                  var row := b.adjustments[call.id];
                  && s.book.adjustments == b.adjustments[call.id := row.(active := false)]
                  && forall p, c, k ::
                       AdjustmentTotal(s.book, p, c, k)
                       == AdjustmentTotal(b, p, c, k)
                          - (if row.active && p == row.programId && c == row.currency && k == row.kind
                             then row.amount else 0))
  {
    var s := Step(b, call);
    if call.id < |b.adjustments| {
      var row := b.adjustments[call.id];
      forall p, c, k
        ensures AdjustmentTotal(s.book, p, c, k)
             == AdjustmentTotal(b, p, c, k) - AdjustmentWeight(p, c, k)(row)
                + AdjustmentWeight(p, c, k)(row.(active := false))
      {
        RowSumUpdate(b.adjustments, call.id, row.(active := false), AdjustmentWeight(p, c, k));
      }
    }
  }

  // ----- The feed

  /**
   * A snapshot is taken exactly when its sequence is above all stored for the program, its signature is valid or
   * absent where none is required, and the program is known. Its figure is then the one in use for that program.
   */
  lemma IngestOutcome(b: Book, call: Command)
    requires call.Ingest? && FeedOrdered(b.snapshots)
    ensures var s := Step(b, call);
            var fits := && (forall i :: 0 <= i < |b.snapshots| && b.snapshots[i].programId == call.programId ==>
                                          b.snapshots[i].sequence < call.sequence)
                        && (if call.signatureGiven then call.signatureValid else !call.signatureRequired)
                        && call.programId in b.programs;
            && (s.fault.None? <==> fits)
            && (!fits ==> s.book == b)
            && s.book == b.(snapshots := s.book.snapshots)
            && (fits ==>
                  && s.book.snapshots == b.snapshots + [
                    Snapshot(call.programId, call.sequence, call.circulating, call.timestampMs, true)]
                  && Circulating(s.book, call.programId) == call.circulating
                  && forall p :: p != call.programId ==> Circulating(s.book, p) == Circulating(b, p))
  {
    HighestBounds(b.snapshots, call.programId);
    HighestIn(b.snapshots, call.programId);
    hide HighestSequence;
    var s := Step(b, call);
    if s.fault.None? {
      var row := Snapshot(call.programId, call.sequence, call.circulating, call.timestampMs, true);
      assert (b.snapshots + [row])[..|b.snapshots|] == b.snapshots;
      LatestIn(b.snapshots, call.programId);
      hide FeedOrdered;
    }
  }

  lemma {:induction false} HighestIn(snapshots: seq<Snapshot>, p: string)
    ensures HighestSequence(snapshots, p).Some? ==>
              exists i :: 0 <= i < |snapshots| && snapshots[i].programId == p
                          && snapshots[i].sequence == HighestSequence(snapshots, p).value
  {
    if snapshots != [] {
      var n := |snapshots| - 1;
      HighestIn(snapshots[..n], p);
      assert forall i :: 0 <= i < n ==> snapshots[..n][i] == snapshots[i];
    }
  }

  /** Without a snapshot the supply in use is zero. */
  lemma NothingCirculates(b: Book, p: string)
    requires forall s :: s in b.snapshots ==> s.programId != p
    ensures Circulating(b, p) == 0
  {
    LatestIn(b.snapshots, p);
  }

  // ----- Who posts

  /** Whose name an entry posted by the call carries. */
  function Hand(call: Command): string {
    match call
    case Register(_, _, _, _, _, actor) => actor
    case Clear(_, _, actor) => actor
    case Approve(_, checkerId, _, _) => checkerId
    case Revoke(_, actor) => actor
    case Confirm(_, _, _, actor) => actor
    case Expire(_, actor) => actor
    case ApproveRedemption(_, approverId, _) => approverId
    case ConfirmPayout(_, actor) => actor
    case _ => ""
  }

  /** What a call adds to the journal is at most one entry, which carries the name of the caller. */
  lemma EntryNamesCaller(b: Book, call: Command)
    ensures var log := Step(b, call).book.journal;
            log == b.journal
            || (log == b.journal + [log[|log| - 1]] && log[|log| - 1].references.actor == Hand(call))
  {
    hide Balance, PositionOf, GuardFacts, FirstFault, Debits, Credits, TypeOf;
  }

  // ----- What the faults mean

  /** The call names something that is not there, and nothing looked at before stands against it. */
  predicate Missing(b: Book, call: Command) {
    match call
    case Register(_, accountKnown, _, _, _, _) => !accountKnown
    case MatchDeposit(id, instruction) =>
      id >= |b.deposits| || (b.deposits[id].status in {DETECTED, UNMATCHED} && instruction == None)
    case Clear(id, accountKnown, _) => id >= |b.deposits| || (b.deposits[id].status == MATCHED && !accountKnown)
    case Approve(id, checkerId, checkerKnown, _) =>
      id >= |b.auths|
      || (var a := b.auths[id];
          && a.status == PENDING_CHECKER && a.approval.Some? && a.approval.value.makerId != checkerId
          && (!checkerKnown || a.programId !in b.programs))
    case Review(id, _, _) => id >= |b.auths|
    case Reject(id, _, _) => id >= |b.auths|
    case Revoke(id, _) => id >= |b.auths|
    case Confirm(id, _, _, _) => id >= |b.auths|
    case Expire(id, _) => id >= |b.auths|
    case RequestMint(programId, _, _, _) => programId !in b.programs
    case RequestRedemption(programId, _, _, _) => programId !in b.programs
    case ApproveRedemption(id, _, _) => id >= |b.redemptions|
    case ConfirmBurn(id, _) => id >= |b.redemptions|
    case SubmitPayout(id, _) => id >= |b.redemptions|
    case ConfirmPayout(id, _) => id >= |b.redemptions|
    case AddAdjustment(programId, kind, _) =>
      programId !in b.programs || kind !in {RESTRICTED, REGULATORY_HOLD, OPERATIONAL, BANK_CHARGE}
    case LiftAdjustment(id) => id >= |b.adjustments|
    case Ingest(_, _, _, _, _, _, _) => false
  }

  /** The key is taken, or the sequence not above what is stored. */
  predicate Taken(b: Book, call: Command) {
    match call
    case Register(programId, accountKnown, key, _, _, _) =>
      accountKnown && programId in b.programs
      && exists i :: 0 <= i < |b.deposits| && b.deposits[i].bankTransactionId == key
    case RequestMint(programId, key, amount, _) =>
      programId in b.programs && amount > 0
      && exists i :: 0 <= i < |b.auths| && b.auths[i].paychainRequestId == key
    case RequestRedemption(programId, key, enabled, amount) =>
      programId in b.programs && enabled && amount > 0
      && exists i :: 0 <= i < |b.redemptions| && b.redemptions[i].paychainRedemptionId == key
    case Ingest(programId, sequence, _, _, _, _, _) =>
      exists i :: 0 <= i < |b.snapshots| && b.snapshots[i].programId == programId && sequence <= b.snapshots[i].sequence
    case _ => false
  }

  /** The checker would decide on a review of their own. */
  predicate OwnWork(b: Book, call: Command) {
    match call
    case Approve(id, checkerId, _, _) =>
      && id < |b.auths| && b.auths[id].status == PENDING_CHECKER
      && b.auths[id].approval.Some? && b.auths[id].approval.value.makerId == checkerId
    case Reject(id, checkerId, _) =>
      id < |b.auths| && b.auths[id].approval.Some? && b.auths[id].approval.value.makerId == checkerId
    case _ => false
  }

  /** Which fault a call ends with tells what was wrong with it. */
  ghost predicate FaultTells(b: Book, call: Command) {
    var fault := Step(b, call).fault;
    && (fault == Some(NotFound) <==> Missing(b, call))
    && (fault == Some(Conflict) <==> Taken(b, call))
    && (fault == Some(Forbidden) <==> OwnWork(b, call))
  }

  lemma FaultsMean(b: Book, call: Command)
    ensures FaultTells(b, call)
  {
    hide *;
    if call.Approve? { ApproveFaults(b, call); }
    if call.Ingest? { IngestFaults(b, call); }
    if call.Register? || call.MatchDeposit? || call.Clear? { DepositFaults(b, call); }
    if call.RequestMint? || call.Review? || call.Reject? || call.Revoke? || call.Confirm? || call.Expire? {
      AuthFaults(b, call);
    }
    if call.RequestRedemption? || call.ApproveRedemption? || call.ConfirmBurn? || call.SubmitPayout?
       || call.ConfirmPayout?
    {
      RedemptionFaults(b, call);
    }
    if call.AddAdjustment? || call.LiftAdjustment? { AdjustmentFaults(b, call); }
  }

  lemma ApproveFaults(b: Book, call: Command)
    requires call.Approve?
    ensures FaultTells(b, call)
  {
    JudgedFaults(b, call);
    hide ApproveSpec, Missing, OwnWork;
  }

  lemma JudgedFaults(b: Book, call: Command)
    requires call.Approve?
    ensures var fault := ApproveSpec(b, call).fault;
            && (fault == Some(NotFound) <==> Missing(b, call))
            && fault != Some(Conflict)
            && (fault == Some(Forbidden) <==> OwnWork(b, call))
  {
    hide Issue, Refuse, GuardVerdict;
    if call.id < |b.auths| {
      VerdictFaults(b, b.auths[call.id], call.env);
      if b.auths[call.id].approval.Some? { IssueFault(b, call.id, call.checkerId, call.env.nowMs); }
    }
  }

  lemma IssueFault(b: Book, i: nat, checkerId: string, nowMs: int)
    requires i < |b.auths| && b.auths[i].approval.Some?
    ensures var fault := Issue(b, i, checkerId, nowMs).fault;
            fault != Some(NotFound) && fault != Some(Conflict) && fault != Some(Forbidden)
    ensures Refuse(b, i, checkerId).fault == Some(BadRequest)
  {
    EngineFaults();
    hide Build;
  }

  lemma VerdictFaults(b: Book, a: Auth, env: GuardEnv)
    ensures var verdict := GuardVerdict(b, a, env);
            verdict.Err? ==> (verdict.fault == NotFound <==> a.programId !in b.programs)
                             && verdict.fault != Conflict && verdict.fault != Forbidden
    ensures a.programId !in b.programs ==> GuardVerdict(b, a, env).Err?
  {
    VerdictIsGiven(b, a, env);
    if PositionOf(b, a.programId).Err? {
      PositionFaults(b, a.programId);
      hide PositionOf, FundingCleared, LiabilityFeedAge;
    } else {
      ProgramKnown(b, a.programId);
      hide PositionOf, GuardVerdict;
    }
  }

  lemma IngestFaults(b: Book, call: Command)
    requires call.Ingest?
    ensures FaultTells(b, call)
  {
    HighestBounds(b.snapshots, call.programId);
    HighestIn(b.snapshots, call.programId);
    hide HighestSequence;
  }

  lemma DepositFaults(b: Book, call: Command)
    requires call.Register? || call.MatchDeposit? || call.Clear?
    ensures FaultTells(b, call)
  {
    EngineFaults();
    hide Build;
  }

  lemma AuthFaults(b: Book, call: Command)
    requires call.RequestMint? || call.Review? || call.Reject? || call.Revoke? || call.Confirm? || call.Expire?
    ensures FaultTells(b, call)
  {
    EngineFaults();
    hide Build;
  }

  lemma RedemptionFaults(b: Book, call: Command)
    requires call.RequestRedemption? || call.ApproveRedemption? || call.ConfirmBurn? || call.SubmitPayout?
             || call.ConfirmPayout?
    ensures FaultTells(b, call)
  {
    EngineFaults();
    hide Build;
  }

  lemma AdjustmentFaults(b: Book, call: Command)
    requires call.AddAdjustment? || call.LiftAdjustment?
    ensures FaultTells(b, call)
  {
  }
}
