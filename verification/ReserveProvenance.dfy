/** What must have happened before: the checks behind a cleared deposit, an earmark and the latest feed figure. */
module ReserveProvenance {
  import opened Results
  import opened Moneys
  import opened Entries
  import opened Traces
  import opened ReserveCalculation
  import opened MintGuard
  import opened ReserveBook
  import opened ReserveInvariants
  import opened FullReserve
  import opened MintClearance

  // ----- What no call changes

  /** Only the workflow columns of a row are ever written again. */
  ghost predicate RowsKept(b: Book, after: Book) {
    && |b.deposits| <= |after.deposits| <= |b.deposits| + 1
    && |b.auths| <= |after.auths| <= |b.auths| + 1
    && |b.redemptions| <= |after.redemptions| <= |b.redemptions| + 1
    && (forall i :: 0 <= i < |b.deposits| ==>
          after.deposits[i] == b.deposits[i].(status := after.deposits[i].status))
    && (forall i :: 0 <= i < |b.auths| ==> AuthKept(b.auths[i], after.auths[i]))
    && (forall i :: 0 <= i < |b.redemptions| ==>
          after.redemptions[i] == b.redemptions[i].(status := after.redemptions[i].status,
                                                    burnTxHash := after.redemptions[i].burnTxHash))
  }

  predicate AuthKept(before: Auth, after: Auth) {
    after == before.(status := after.status, approval := after.approval, expiresAt := after.expiresAt,
                     confirmation := after.confirmation, hold := after.hold)
  }

  /** Each request names a bank transaction, a mint request or a redemption that no other row names. */
  ghost predicate KeysUnique(b: Book) {
    && (forall i, j :: 0 <= i < j < |b.deposits| ==>
          b.deposits[i].bankTransactionId != b.deposits[j].bankTransactionId)
    && (forall i, j :: 0 <= i < j < |b.auths| ==> b.auths[i].paychainRequestId != b.auths[j].paychainRequestId)
    && (forall i, j :: 0 <= i < j < |b.redemptions| ==>
          b.redemptions[i].paychainRedemptionId != b.redemptions[j].paychainRedemptionId)
  }

  predicate OnDeposits(call: Command) {
    call.Register? || call.MatchDeposit? || call.Clear?
  }

  predicate OnAuths(call: Command) {
    || call.RequestMint? || call.Review? || call.Approve? || call.Reject? || call.Revoke? || call.Confirm?
    || call.Expire?
  }

  predicate OnRedemptions(call: Command) {
    || call.RequestRedemption? || call.ApproveRedemption? || call.ConfirmBurn? || call.SubmitPayout?
    || call.ConfirmPayout?
  }

  lemma OtherDeposits(b: Book, call: Command)
    requires !OnDeposits(call)
    ensures Step(b, call).book.deposits == b.deposits
  {
    hide GuardVerdict, HighestSequence, Transfer;
  }

  lemma OtherAuths(b: Book, call: Command)
    requires !OnAuths(call)
    ensures Step(b, call).book.auths == b.auths
  {
    hide HighestSequence, Transfer;
  }

  lemma OtherRedemptions(b: Book, call: Command)
    requires !OnRedemptions(call)
    ensures Step(b, call).book.redemptions == b.redemptions
  {
    hide GuardVerdict, HighestSequence, Transfer;
  }

  lemma DepositsKept(b: Book, call: Command)
    requires OnDeposits(call)
    ensures var rows, after := b.deposits, Step(b, call).book.deposits;
            && |rows| <= |after| <= |rows| + 1
            && (forall i :: 0 <= i < |rows| ==> after[i] == rows[i].(status := after[i].status))
            && (|after| > |rows| ==>
                  forall i :: 0 <= i < |rows| ==> rows[i].bankTransactionId != after[|rows|].bankTransactionId)
  {
    hide Transfer;
  }

  lemma AuthsKept(b: Book, call: Command)
    requires OnAuths(call)
    ensures var rows, after := b.auths, Step(b, call).book.auths;
            && |rows| <= |after| <= |rows| + 1
            && (forall i :: 0 <= i < |rows| ==> AuthKept(rows[i], after[i]))
            && (|after| > |rows| ==>
                  forall i :: 0 <= i < |rows| ==> rows[i].paychainRequestId != after[|rows|].paychainRequestId)
  {
    hide GuardVerdict, Transfer;
  }

  lemma RedemptionsKept(b: Book, call: Command)
    requires OnRedemptions(call)
    ensures var rows, after := b.redemptions, Step(b, call).book.redemptions;
            && |rows| <= |after| <= |rows| + 1
            && (forall i :: 0 <= i < |rows| ==>
                  after[i] == rows[i].(status := after[i].status, burnTxHash := after[i].burnTxHash))
            && (|after| > |rows| ==>
                  forall i :: 0 <= i < |rows| ==> rows[i].paychainRedemptionId != after[|rows|].paychainRedemptionId)
  {
    hide Transfer;
  }

  /** Amounts, currencies and owners are written once; keys stay unique. */
  lemma StepKeepsRows(b: Book, call: Command)
    ensures RowsKept(b, Step(b, call).book)
    ensures KeysUnique(b) ==> KeysUnique(Step(b, call).book)
  {
    hide Step, AuthKept;
    if OnDeposits(call) { DepositsKept(b, call); } else { OtherDeposits(b, call); }
    if OnAuths(call) { AuthsKept(b, call); } else { OtherAuths(b, call); SameAuthsKept(b); }
    if OnRedemptions(call) { RedemptionsKept(b, call); } else { OtherRedemptions(b, call); }
    hide OnDeposits, OnAuths, OnRedemptions;
    if KeysUnique(b) { KeysStayUnique(b, Step(b, call).book); }
  }

  lemma SameAuthsKept(b: Book)
    ensures forall i :: 0 <= i < |b.auths| ==> AuthKept(b.auths[i], b.auths[i])
  {
  }

  lemma KeysStayUnique(b: Book, after: Book)
    requires KeysUnique(b) && RowsKept(b, after)
    requires |after.deposits| > |b.deposits| ==>
               forall i :: 0 <= i < |b.deposits| ==>
                             b.deposits[i].bankTransactionId != after.deposits[|b.deposits|].bankTransactionId
    requires |after.auths| > |b.auths| ==>
               forall i :: 0 <= i < |b.auths| ==>
                             b.auths[i].paychainRequestId != after.auths[|b.auths|].paychainRequestId
    requires |after.redemptions| > |b.redemptions| ==>
               forall i :: 0 <= i < |b.redemptions| ==>
                 b.redemptions[i].paychainRedemptionId != after.redemptions[|b.redemptions|].paychainRedemptionId
    ensures KeysUnique(after)
  {
  }

  /** Over every run, no bank transaction is registered twice and no mint or redemption request is taken twice. */
  lemma {:induction false} RunKeepsKeys(programs: map<string, Program>, config: Config, calls: seq<Command>)
    ensures KeysUnique(Run(EmptyBook(programs, config), calls))
  {
    if calls != [] {
      hide Step, KeysUnique;
      RunKeepsKeys(programs, config, calls[..|calls| - 1]);
      StepKeepsRows(Run(EmptyBook(programs, config), calls[..|calls| - 1]), calls[|calls| - 1]);
    } else {
      assert KeysUnique(EmptyBook(programs, config));
    }
  }

  // ----- Every row comes from a request

  /** Call `k` registered deposit `i` with just these columns. */
  ghost predicate RegisteredAt(calls: seq<Command>, k: nat, d: Deposit) {
    && k < |calls| && calls[k].Register? && calls[k].accountKnown
    && d.programId == calls[k].programId && d.bankTransactionId == calls[k].bankTransactionId
    && d.amount == calls[k].amount && d.currency == calls[k].currency
  }

  ghost predicate RequestedAt(b0: Book, calls: seq<Command>, k: nat, a: Auth) {
    && k < |calls| && calls[k].RequestMint?
    && a.programId == calls[k].programId && a.paychainRequestId == calls[k].paychainRequestId
    && a.amount == calls[k].amount > 0 && a.fundingDepositIds == calls[k].fundingDepositIds
    && a.programId in b0.programs && a.currency == b0.programs[a.programId].currency
  }

  ghost predicate RedemptionRequestedAt(b0: Book, calls: seq<Command>, k: nat, r: Redemption) {
    && k < |calls| && calls[k].RequestRedemption? && calls[k].enabled
    && r.programId == calls[k].programId && r.paychainRedemptionId == calls[k].paychainRedemptionId
    && r.amount == calls[k].amount > 0
    && r.programId in b0.programs && r.currency == b0.programs[r.programId].currency
  }

  lemma NewRows(b: Book, call: Command)
    ensures var after := Step(b, call).book;
            && after.programs == b.programs && after.config == b.config
            && (|after.deposits| > |b.deposits| ==> RegisteredAt([call], 0, after.deposits[|b.deposits|]))
            && (|after.auths| > |b.auths| ==> RequestedAt(b, [call], 0, after.auths[|b.auths|]))
            && (|after.redemptions| > |b.redemptions| ==>
                  RedemptionRequestedAt(b, [call], 0, after.redemptions[|b.redemptions|]))
  {
    TermsStay(b, call);
    var after := Step(b, call).book;
    if OnDeposits(call) { if |after.deposits| > |b.deposits| { NewDeposit(b, call); } } else { OtherDeposits(b, call); }
    if OnAuths(call) { if |after.auths| > |b.auths| { NewAuth(b, call); } } else { OtherAuths(b, call); }
    if OnRedemptions(call) {
      if |after.redemptions| > |b.redemptions| { NewRedemption(b, call); }
    } else {
      OtherRedemptions(b, call);
    }
    hide Step;
  }

  lemma TermsStay(b: Book, call: Command)
    ensures Step(b, call).book.programs == b.programs && Step(b, call).book.config == b.config
  {
    hide GuardVerdict, HighestSequence, Transfer;
  }

  lemma NewDeposit(b: Book, call: Command)
    requires OnDeposits(call) && |Step(b, call).book.deposits| > |b.deposits|
    ensures RegisteredAt([call], 0, Step(b, call).book.deposits[|b.deposits|])
  {
    hide Transfer;
  }

  lemma NewAuth(b: Book, call: Command)
    requires OnAuths(call) && |Step(b, call).book.auths| > |b.auths|
    ensures RequestedAt(b, [call], 0, Step(b, call).book.auths[|b.auths|])
  {
    hide GuardVerdict, Transfer;
  }

  lemma NewRedemption(b: Book, call: Command)
    requires OnRedemptions(call) && |Step(b, call).book.redemptions| > |b.redemptions|
    ensures RedemptionRequestedAt(b, [call], 0, Step(b, call).book.redemptions[|b.redemptions|])
  {
    hide Transfer;
  }

  lemma {:induction false} RunKeepsTerms(b0: Book, calls: seq<Command>)
    ensures Run(b0, calls).programs == b0.programs && Run(b0, calls).config == b0.config
  {
    if calls != [] {
      hide Step;
      RunKeepsTerms(b0, calls[..|calls| - 1]);
      NewRows(Run(b0, calls[..|calls| - 1]), calls[|calls| - 1]);
    }
  }

  /** After every run each deposit stands as some call registered it. */
  lemma {:induction false} DepositComesFromRegister(b0: Book, calls: seq<Command>, i: nat) returns (k: nat)
    requires b0.deposits == [] && i < |Run(b0, calls).deposits|
    ensures RegisteredAt(calls, k, Run(b0, calls).deposits[i])
  {
    hide Step;
    var n := |calls| - 1;
    var before := Run(b0, calls[..n]);
    StepKeepsRows(before, calls[n]);
    NewRows(before, calls[n]);
    if i < |before.deposits| { k := DepositComesFromRegister(b0, calls[..n], i); } else { k := n; }
  }

  /** Each authorization stands for the positive amount some call requested, in the currency of its program. */
  lemma {:induction false} AuthComesFromRequest(b0: Book, calls: seq<Command>, i: nat) returns (k: nat)
    requires b0.auths == [] && i < |Run(b0, calls).auths|
    ensures RequestedAt(b0, calls, k, Run(b0, calls).auths[i])
  {
    hide Step;
    var n := |calls| - 1;
    var before := Run(b0, calls[..n]);
    StepKeepsRows(before, calls[n]);
    NewRows(before, calls[n]);
    RunKeepsTerms(b0, calls[..n]);
    if i < |before.auths| { k := AuthComesFromRequest(b0, calls[..n], i); } else { k := n; }
  }

  /** Each redemption stands for the positive amount some call requested while redemptions were enabled. */
  lemma {:induction false} RedemptionComesFromRequest(b0: Book, calls: seq<Command>, i: nat) returns (k: nat)
    requires b0.redemptions == [] && i < |Run(b0, calls).redemptions|
    ensures RedemptionRequestedAt(b0, calls, k, Run(b0, calls).redemptions[i])
  {
    hide Step;
    var n := |calls| - 1;
    var before := Run(b0, calls[..n]);
    StepKeepsRows(before, calls[n]);
    NewRows(before, calls[n]);
    RunKeepsTerms(b0, calls[..n]);
    if i < |before.redemptions| { k := RedemptionComesFromRequest(b0, calls[..n], i); } else { k := n; }
  }

  // ----- A cleared deposit was matched

  /** Call `k` of a run matched deposit `i` to a funding instruction of its own amount and currency. */
  ghost predicate MatchedAt(calls: seq<Command>, k: nat, i: nat, d: Deposit) {
    && k < |calls| && calls[k].MatchDeposit? && calls[k].id == i
    && calls[k].instruction == Some(FundingInstruction(d.amount, d.currency))
  }

  predicate Settled(d: Deposit) {
    d.status == MATCHED || d.status == CLEARED
  }

  lemma SettledOnlyByMatch(b: Book, call: Command, i: nat)
    requires i < |Step(b, call).book.deposits| && Settled(Step(b, call).book.deposits[i])
    requires i < |b.deposits| ==> !Settled(b.deposits[i])
    ensures call.MatchDeposit? && call.id == i
    ensures var d := Step(b, call).book.deposits[i];
            call.instruction == Some(FundingInstruction(d.amount, d.currency))
  {
    if OnDeposits(call) { hide Transfer; } else { OtherDeposits(b, call); }
  }

  /** After every run, a deposit is cleared only if an earlier call matched its exact amount and currency. */
  lemma {:induction false} ClearedMeansMatched(b0: Book, calls: seq<Command>, i: nat) returns (k: nat)
    requires b0.deposits == []
    requires i < |Run(b0, calls).deposits| && Settled(Run(b0, calls).deposits[i])
    ensures MatchedAt(calls, k, i, Run(b0, calls).deposits[i])
  {
    var n := |calls| - 1;
    var before := Run(b0, calls[..n]);
    StepKeepsRows(before, calls[n]);
    if i < |before.deposits| && Settled(before.deposits[i]) {
      k := ClearedMeansMatched(b0, calls[..n], i);
    } else {
      SettledOnlyByMatch(before, calls[n], i);
      k := n;
    }
  }

  // ----- An earmark passed the guard

  /** The call approves authorization `i` while the guard allows it, by another hand than its maker's. */
  ghost predicate ApprovedOn(before: Book, call: Command, i: nat) {
    && call.Approve? && call.id == i
    && i < |before.auths|
    && before.auths[i].status == PENDING_CHECKER
    && before.auths[i].approval.Some? && before.auths[i].approval.value.makerId != call.checkerId
    && GuardVerdict(before, before.auths[i], call.env) == Result.Ok(true)
  }

  lemma ApproveEarmarks(b: Book, call: Command, i: nat)
    requires call.Approve?
    requires i < |ApproveSpec(b, call).book.auths| && ApproveSpec(b, call).book.auths[i].hold != NotHeld
    requires i < |b.auths| ==> b.auths[i].hold == NotHeld
    ensures call.id == i && i < |b.auths|
    ensures b.auths[i].status == PENDING_CHECKER
    ensures b.auths[i].approval.Some? && b.auths[i].approval.value.makerId != call.checkerId
    ensures GuardVerdict(b, b.auths[i], call.env) == Result.Ok(true)
    ensures ApproveSpec(b, call).book.auths[i].expiresAt == Some(call.env.nowMs + b.config.authorizationTtlMs)
  {
    hide GuardVerdict, Transfer;
  }

  /** A release leaves a history only where there was an earmark. */
  lemma OthersEarmarkNothing(b: Book, call: Command, i: nat)
    requires Inv(b) && OnAuths(call) && !call.Approve?
    requires i < |Step(b, call).book.auths| && Step(b, call).book.auths[i].hold != NotHeld
    ensures i < |b.auths| && b.auths[i].hold != NotHeld
  {
    hide Inv, Transfer;
    if call.Revoke? || call.Confirm? || call.Expire? {
      if call.id < |b.auths| && b.auths[call.id].status == ISSUED { IssuedIsHeld(b, call.id); }
      ReleasesOnlyIssued(b, call, i);
    }
  }

  /** A release concerns the one row it names, and only while that is issued. */
  lemma ReleasesOnlyIssued(b: Book, call: Command, i: nat)
    requires call.Revoke? || call.Confirm? || call.Expire?
    ensures |Step(b, call).book.auths| == |b.auths|
    ensures i < |b.auths| && (i != call.id || b.auths[i].status != ISSUED) ==>
              Step(b, call).book.auths[i] == b.auths[i]
  {
    hide Transfer;
  }

  lemma EarmarkedOnlyByApproval(b: Book, call: Command, i: nat)
    requires Inv(b)
    requires i < |Step(b, call).book.auths| && Step(b, call).book.auths[i].hold != NotHeld
    requires i < |b.auths| ==> b.auths[i].hold == NotHeld
    ensures call.Approve? && call.id == i && i < |b.auths|
    ensures b.auths[i].status == PENDING_CHECKER
    ensures b.auths[i].approval.Some? && b.auths[i].approval.value.makerId != call.checkerId
    ensures GuardVerdict(b, b.auths[i], call.env) == Result.Ok(true)
    ensures Step(b, call).book.auths[i].expiresAt == Some(call.env.nowMs + b.config.authorizationTtlMs)
  {
    hide Inv, GuardVerdict;
    if call.Approve? {
      ApproveEarmarks(b, call, i);
    } else if OnAuths(call) {
      OthersEarmarkNothing(b, call, i);
    } else {
      OtherAuths(b, call);
    }
  }

  /** Authorization `i` is unchanged since the call approved it, and its term runs from then. */
  ghost predicate KeptSince(before: Book, call: Command, now: Auth, i: nat) {
    && ApprovedOn(before, call, i)
    && AuthKept(before.auths[i], now)
    && now.expiresAt == Some(call.env.nowMs + before.config.authorizationTtlMs)
  }

  lemma KeptLonger(before: Book, call: Command, now: Auth, later: Auth, i: nat)
    requires KeptSince(before, call, now, i)
    requires AuthKept(now, later) && later.expiresAt == now.expiresAt
    ensures KeptSince(before, call, later, i)
  {
    hide GuardVerdict;
  }

  lemma KeptFromNow(b: Book, call: Command, i: nat)
    requires Inv(b)
    requires i < |Step(b, call).book.auths| && Step(b, call).book.auths[i].hold != NotHeld
    requires i < |b.auths| ==> b.auths[i].hold == NotHeld
    ensures KeptSince(b, call, Step(b, call).book.auths[i], i)
  {
    hide Inv, GuardVerdict, Step, AuthKept;
    EarmarkedOnlyByApproval(b, call, i);
    AuthRowKept(b, call, i);
  }

  /**
   * After every run, an amount is or was earmarked only if some call approved it while nothing blocked the mint:
   * the four-eyes rule held and the guard said yes on the book of that instant. Nothing but the workflow columns
   * has changed since, and the term runs from that instant.
   */
  lemma {:induction false} EarmarkMeansGuardPassed(b0: Book, calls: seq<Command>, i: nat) returns (k: nat)
    requires Inv(b0) && b0.auths == []
    requires i < |Run(b0, calls).auths| && Run(b0, calls).auths[i].hold != NotHeld
    ensures k < |calls| && KeptSince(Run(b0, calls[..k]), calls[k], Run(b0, calls).auths[i], i)
  {
    hide *;
    LastStep(b0, calls);
    var n := |calls| - 1;
    var before := Run(b0, calls[..n]);
    RunKeeps(b0, calls[..n]);
    EarmarkStep(before, calls[n], i);
    if i < |before.auths| && before.auths[i].hold != NotHeld {
      k := EarmarkMeansGuardPassed(b0, calls[..n], i);
      assert calls[..n][..k] == calls[..k];
      KeptLonger(Run(b0, calls[..k]), calls[k], before.auths[i], Run(b0, calls).auths[i], i);
    } else {
      k := n;
    }
  }

  lemma LastStep(b0: Book, calls: seq<Command>)
    ensures calls == [] ==> Run(b0, calls) == b0
    ensures calls != [] ==> Run(b0, calls) == Step(Run(b0, calls[..|calls| - 1]), calls[|calls| - 1]).book
  {
  }

  /** One call: an earmarked row is kept with its term, a newly earmarked one has just been approved. */
  lemma EarmarkStep(b: Book, call: Command, i: nat)
    requires Inv(b)
    requires i < |Step(b, call).book.auths| && Step(b, call).book.auths[i].hold != NotHeld
    ensures var after := Step(b, call).book.auths[i];
            if i < |b.auths| && b.auths[i].hold != NotHeld
            then AuthKept(b.auths[i], after) && after.expiresAt == b.auths[i].expiresAt
            else KeptSince(b, call, after, i)
  {
    hide Inv, Step, KeptSince, AuthKept;
    if i < |b.auths| && b.auths[i].hold != NotHeld {
      AuthRowKept(b, call, i);
      ExpiryStays(b, call, i);
    } else {
      KeptFromNow(b, call, i);
    }
  }

  /** Once earmarked, an authorization is never given another term. */
  lemma ExpiryStays(b: Book, call: Command, i: nat)
    requires Inv(b) && i < |b.auths| && b.auths[i].hold != NotHeld
    ensures i < |Step(b, call).book.auths|
    ensures Step(b, call).book.auths[i].expiresAt == b.auths[i].expiresAt
  {
    if b.auths[i].status == PENDING_CHECKER { CheckedIsNotHeld(b, i); }
    hide Inv;
    if !OnAuths(call) { OtherAuths(b, call); }
    else if call.Approve? { ApprovesOnlyChecked(b, call, i); }
    else { OthersKeepExpiry(b, call, i); }
  }

  lemma ApprovesOnlyChecked(b: Book, call: Command, i: nat)
    requires call.Approve? && i < |b.auths| && b.auths[i].status != PENDING_CHECKER
    ensures |ApproveSpec(b, call).book.auths| == |b.auths|
    ensures ApproveSpec(b, call).book.auths[i] == b.auths[i]
  {
    hide GuardVerdict, Transfer;
  }

  lemma OthersKeepExpiry(b: Book, call: Command, i: nat)
    requires OnAuths(call) && !call.Approve? && i < |b.auths|
    ensures i < |Step(b, call).book.auths|
    ensures Step(b, call).book.auths[i].expiresAt == b.auths[i].expiresAt
  {
    hide Transfer;
  }

  /** After every run, a mint was confirmed only within the term that began with its approval. */
  lemma ConfirmedWithinTerm(b0: Book, calls: seq<Command>, i: nat) returns (k: nat)
    requires Inv(b0) && b0.auths == []
    requires i < |Run(b0, calls).auths| && Run(b0, calls).auths[i].confirmation.Some?
    ensures k < |calls| && ApprovedOn(Run(b0, calls[..k]), calls[k], i)
    ensures var confirmation := Run(b0, calls).auths[i].confirmation.value;
            && confirmation.amount == Run(b0, calls[..k]).auths[i].amount
            && confirmation.recordedAt <= calls[k].env.nowMs + b0.config.authorizationTtlMs
  {
    hide Inv, GuardVerdict, Run;
    RunKeeps(b0, calls);
    ConfirmedInTime(Run(b0, calls), i);
    k := EarmarkMeansGuardPassed(b0, calls, i);
    RunKeepsTerms(b0, calls[..k]);
  }

  lemma ConfirmedInTime(b: Book, i: nat)
    requires Inv(b) && i < |b.auths| && b.auths[i].confirmation.Some?
    ensures var a := b.auths[i];
            && a.hold != NotHeld && a.expiresAt.Some?
            && a.confirmation.value.amount == a.amount
            && a.confirmation.value.recordedAt <= a.expiresAt.value
  {
    assert AuthLife(b.auths[i], i, b.programs, Trace(b.journal, MintFamily, i));
  }

  lemma AuthRowKept(b: Book, call: Command, i: nat)
    requires i < |Step(b, call).book.auths|
    ensures i < |b.auths| ==> AuthKept(b.auths[i], Step(b, call).book.auths[i])
  {
    StepKeepsRows(b, call);
  }

  /**
   * After every run from the empty book, an amount is or was earmarked only if some call approved it at a moment when
   * nothing stood against the mint: capacity, cleared funding, a feed in time and none of the blocking facts.
   */
  lemma EarmarkMeansClear(programs: map<string, Program>, config: Config, calls: seq<Command>, i: nat)
    returns (k: nat)
    requires i < |Run(EmptyBook(programs, config), calls).auths|
    requires Run(EmptyBook(programs, config), calls).auths[i].hold != NotHeld
    ensures k < |calls| && calls[k].Approve? && calls[k].id == i
    ensures var before := Run(EmptyBook(programs, config), calls[..k]);
            i < |before.auths| && MintClear(before, before.auths[i], calls[k].env)
  {
    hide *;
    EmptyIsFit(programs, config);
    k := EarmarkMeansGuardPassed(EmptyBook(programs, config), calls, i);
    RunKeepsFeed(EmptyBook(programs, config), calls[..k]);
    KeptWasYes(Run(EmptyBook(programs, config), calls[..k]), calls[k],
               Run(EmptyBook(programs, config), calls).auths[i], i);
  }

  lemma EmptyIsFit(programs: map<string, Program>, config: Config)
    ensures Inv(EmptyBook(programs, config))
    ensures EmptyBook(programs, config).auths == [] && EmptyBook(programs, config).snapshots == []
  {
  }

  lemma KeptWasYes(before: Book, call: Command, now: Auth, i: nat)
    requires KeptSince(before, call, now, i) && FeedOrdered(before.snapshots)
    ensures call.Approve? && call.id == i && i < |before.auths|
    ensures MintClear(before, before.auths[i], call.env)
  {
    hide GuardVerdict, MintClear, FeedOrdered;
    GuardSaysYesExactlyWhen(before, before.auths[i], call.env);
  }
}
