/** Lives of single records over whole runs, and where the code falls short of its own promises. */
module ReserveLifecycles {
  import opened Results
  import opened Moneys
  import opened Sums
  import opened Journal
  import opened Entries
  import opened Ledger
  import opened Traces
  import opened ReserveCalculation
  import opened ReserveBook
  import opened ReserveInvariants
  import opened FullReserve

  // ----- Append-only journal

  lemma StepAppends(b: Book, call: Command)
    ensures b.journal <= Step(b, call).book.journal
    ensures |Step(b, call).book.journal| <= |b.journal| + 1
  {
    hide GuardVerdict, HighestSequence, Transfer;
    if call.Approve? && call.id < |b.auths| && b.auths[call.id].approval.Some? {
      assert b.journal <= Issue(b, call.id, call.checkerId, call.env.nowMs).book.journal;
    }
  }

  /** Entries are never edited or removed: an earlier journal is a prefix of every later one. */
  lemma {:induction false} JournalIsAppendOnly(b: Book, calls: seq<Command>)
    ensures b.journal <= Run(b, calls).journal
  {
    if calls != [] {
      JournalIsAppendOnly(b, calls[..|calls| - 1]);
      StepAppends(Run(b, calls[..|calls| - 1]), calls[|calls| - 1]);
    }
  }

  // ----- One authorization, one redemption

  /**
   * The whole ledger life of an authorization: nothing, or one reservation, or one reservation and then one
   * release of the same amount; a confirmation is the release, in time, for that amount, under four eyes.
   */
  lemma AuthorizationLife(b: Book, i: nat)
    requires Reachable(b) && i < |b.auths|
    ensures var a, t := b.auths[i], Trace(b.journal, MintFamily, i);
            var amount := Money(a.amount, a.currency);
            && |t| <= 2
            && (|t| >= 1 ==> Moves(t[0], Source(MintAuth, i), a.programId, ReserveObligation, PendingMint, amount))
            && (|t| == 2 ==>
                  && t[1].references.source.kind != MintAuth
                  && Moves(t[1], t[1].references.source, a.programId, PendingMint, ReserveObligation, amount))
            && (a.status == ISSUED ==> |t| == 1)
            && (a.status == PENDING_MAKER || a.status == PENDING_CHECKER ==> t == [])
            && (a.confirmation.Some? <==> |t| == 2 && t[1].references.source.kind == MintConfirm)
            && (a.confirmation.Some? ==>
                  && a.confirmation.value.amount == a.amount
                  && a.expiresAt.Some? && a.confirmation.value.recordedAt <= a.expiresAt.value
                  && a.approval.Some?
                  && t[0].references.actor != a.approval.value.makerId)
  {
    ReachableInv(b);
    assert AuthLife(b.auths[i], i, b.programs, Trace(b.journal, MintFamily, i));
  }

  /** A redemption is owed once, then burned, then paid once. */
  lemma RedemptionLifeInLedger(b: Book, i: nat)
    requires Reachable(b) && i < |b.redemptions|
    ensures var r, t := b.redemptions[i], Trace(b.journal, RedemptionFamily, i);
            var amount := Money(r.amount, r.currency);
            && |t| <= 2
            && (|t| >= 1 ==>
                  Moves(t[0], Source(RedemptionApproved, i), r.programId, ReserveObligation, PendingRedemption, amount))
            && (|t| == 2 ==>
                  Moves(t[1], Source(RedemptionPayout, i), r.programId, PendingRedemption, TrusteeBankCash, amount))
            && (|t| == 2 <==> r.status == COMPLETED)
            && (|t| == 2 ==> r.burnTxHash.Some?)
            && (r.burnTxHash.Some? ==> |t| >= 1)
  {
    ReachableInv(b);
    assert RedemptionLife(b.redemptions[i], i, b.programs, Trace(b.journal, RedemptionFamily, i));
  }

  /** Cash leaves for a redemption only in a state where its burn is confirmed and its obligation booked. */
  lemma PayoutFollowsBurn(b: Book, call: Command, i: nat)
    requires Inv(b)
    requires |Trace(Step(b, call).book.journal, RedemptionFamily, i)| == 2
    requires |Trace(b.journal, RedemptionFamily, i)| < 2
    ensures call.ConfirmPayout? && call.id == i
    ensures i < |b.redemptions| && b.redemptions[i].burnTxHash.Some?
    ensures |Trace(b.journal, RedemptionFamily, i)| == 1
  {
    var after := Step(b, call).book;
    StepKeeps(b, call);
    assert if i < |after.redemptions|
           then RedemptionLife(after.redemptions[i], i, after.programs, Trace(after.journal, RedemptionFamily, i))
           else Trace(after.journal, RedemptionFamily, i) == [];
    assert after.redemptions[i].status == COMPLETED;
    if i < |b.redemptions| {
      assert RedemptionLife(b.redemptions[i], i, b.programs, Trace(b.journal, RedemptionFamily, i));
    }
    CompletedOnlyByPayout(b, call, i);
  }

  lemma CompletedOnlyByPayout(b: Book, call: Command, i: nat)
    requires i < |Step(b, call).book.redemptions| && Step(b, call).book.redemptions[i].status == COMPLETED
    requires i < |b.redemptions| ==> b.redemptions[i].status != COMPLETED
    ensures call.ConfirmPayout? && call.id == i && i < |b.redemptions| && b.redemptions[i].status == PAYOUT_SUBMITTED
  {
    hide GuardVerdict, HighestSequence, Transfer;
  }

  // ----- Rejecting an issued authorization strands its earmark

  /** Rejected while it still holds its earmark. */
  predicate Stranded(a: Auth) {
    a.status == REJECTED && a.hold == Held
  }

  /** The pending-mint account is the total of the issued authorizations exactly while none is stranded. */
  lemma PendingMintIsIssuedExactlyWhen(b: Book, p: string, c: Currency)
    requires Inv(b)
    ensures Balance(b.journal, p, PendingMint, c) == IssuedMints(b, p, c)
       <==> forall i :: 0 <= i < |b.auths| && b.auths[i].programId == p && b.auths[i].currency == c
                        ==> !Stranded(b.auths[i])
  {
    PendingMintIsHeld(b, p, c);
    forall i | 0 <= i < |b.auths|
      ensures IssuedWeight(p, c)(b.auths[i]) <= HeldWeight(p, c)(b.auths[i])
      ensures IssuedWeight(p, c)(b.auths[i]) == HeldWeight(p, c)(b.auths[i])
         <==> (b.auths[i].programId == p && b.auths[i].currency == c ==> !Stranded(b.auths[i]))
    {
      IssuedOrStranded(b, i, p, c);
    }
    RowSumMonotone(b.auths, IssuedWeight(p, c), HeldWeight(p, c));
  }

  lemma PendingMintIsHeld(b: Book, p: string, c: Currency)
    requires Inv(b)
    ensures Balance(b.journal, p, PendingMint, c) == RowSum(b.auths, HeldWeight(p, c))
  {
    LedgerMeansRecords(b, p, c);
  }

  lemma IssuedOrStranded(b: Book, i: nat, p: string, c: Currency)
    requires Inv(b) && i < |b.auths|
    ensures IssuedWeight(p, c)(b.auths[i]) <= HeldWeight(p, c)(b.auths[i])
    ensures IssuedWeight(p, c)(b.auths[i]) == HeldWeight(p, c)(b.auths[i])
       <==> (b.auths[i].programId == p && b.auths[i].currency == c ==> !Stranded(b.auths[i]))
  {
    assert AuthLife(b.auths[i], i, b.programs, Trace(b.journal, MintFamily, i));
  }

  /** Reject looks at no status: on an issued authorization it strands the earmark and frees nothing. */
  lemma RejectStrandsIssued(b: Book, call: Command)
    requires Inv(b) && call.Reject? && call.id < |b.auths| && call.checkerKnown
    requires b.auths[call.id].status == ISSUED
    requires b.auths[call.id].approval.Some? && b.auths[call.id].approval.value.makerId != call.checkerId
    ensures Step(b, call).fault.None?
    ensures Stranded(Step(b, call).book.auths[call.id])
    ensures Step(b, call).book.journal == b.journal
  {
    IssuedIsHeld(b, call.id);
  }

  lemma StepKeepsStranded(b: Book, call: Command, i: nat)
    requires i < |b.auths| && Stranded(b.auths[i])
    ensures i < |Step(b, call).book.auths|
    ensures Stranded(Step(b, call).book.auths[i])
    ensures Step(b, call).book.auths[i].amount == b.auths[i].amount
  {
    match call
    case RequestMint(_, _, _, _) =>
    case Review(_, _, _) =>
    case Reject(_, _, _) =>
    case Approve(_, _, _, _) => ApproveKeepsStranded(b, call, i);
    case Revoke(_, _) =>
    case Confirm(_, _, _, _) => ConfirmKeepsStranded(b, call, i);
    case Expire(_, _) =>
    case _ => OtherCallKeepsAuths(b, call);
  }

  lemma ApproveKeepsStranded(b: Book, call: Command, i: nat)
    requires call.Approve? && i < |b.auths| && Stranded(b.auths[i])
    ensures |ApproveSpec(b, call).book.auths| == |b.auths|
    ensures ApproveSpec(b, call).book.auths[i] == b.auths[i]
  {
    hide GuardVerdict, Transfer;
  }

  lemma ConfirmKeepsStranded(b: Book, call: Command, i: nat)
    requires call.Confirm? && i < |b.auths| && Stranded(b.auths[i])
    ensures |ConfirmSpec(b, call).book.auths| == |b.auths|
    ensures ConfirmSpec(b, call).book.auths[i] == b.auths[i]
  {
    hide Transfer;
  }

  lemma OtherCallKeepsAuths(b: Book, call: Command)
    requires !call.RequestMint? && !call.Review? && !call.Reject? && !call.Approve?
    requires !call.Revoke? && !call.Confirm? && !call.Expire?
    ensures Step(b, call).book.auths == b.auths
  {
  }

  /** No later call, of any service, ever gives a stranded earmark back. */
  lemma {:induction false} StrandedForever(b: Book, calls: seq<Command>, i: nat)
    requires i < |b.auths| && Stranded(b.auths[i])
    ensures i < |Run(b, calls).auths|
    ensures Stranded(Run(b, calls).auths[i])
    ensures Run(b, calls).auths[i].amount == b.auths[i].amount
  {
    if calls != [] {
      StrandedForever(b, calls[..|calls| - 1], i);
      StepKeepsStranded(Run(b, calls[..|calls| - 1]), calls[|calls| - 1], i);
    }
  }

  /** A rejection, by another than the maker, of an authorization that is issued. */
  predicate Strands(b: Book, call: Command) {
    && call.Reject? && call.id < |b.auths|
    && b.auths[call.id].status == ISSUED
    && b.auths[call.id].approval.Some? && b.auths[call.id].approval.value.makerId != call.checkerId
  }

  ghost predicate NoneStranded(b: Book) {
    forall i :: 0 <= i < |b.auths| ==> !Stranded(b.auths[i])
  }

  /** No row but the one a call names becomes stranded, and that one only when it is rejected while issued. */
  lemma StrandedOnlyByReject(b: Book, call: Command, i: nat)
    requires Inv(b) && !Strands(b, call)
    requires i < |Step(b, call).book.auths|
    requires i < |b.auths| ==> !Stranded(b.auths[i])
    ensures !Stranded(Step(b, call).book.auths[i])
  {
    if call.Reject? {
      if call.id < |b.auths| { RejectableLife(b, call.id); }
      hide Inv;
    } else {
      RefusedIsNotHeld(b, call, i);
    }
  }

  /** An earmark is only ever held by an issued or an already rejected authorization. */
  lemma RejectableLife(b: Book, i: nat)
    requires Inv(b) && i < |b.auths|
    ensures b.auths[i].hold == Held ==> b.auths[i].status == ISSUED || b.auths[i].status == REJECTED
  {
    assert AuthLife(b.auths[i], i, b.programs, Trace(b.journal, MintFamily, i));
  }

  /** Apart from `reject`, a call that ends in REJECTED finds no earmark. */
  lemma RefusedIsNotHeld(b: Book, call: Command, i: nat)
    requires Inv(b) && !call.Reject?
    requires i < |Step(b, call).book.auths|
    requires i < |b.auths| ==> !Stranded(b.auths[i])
    ensures !Stranded(Step(b, call).book.auths[i])
  {
    if call.Approve? {
      if call.id < |b.auths| && b.auths[call.id].status == PENDING_CHECKER { CheckedIsNotHeld(b, call.id); }
      hide Inv, GuardVerdict, Transfer;
      ApproveStrandsNone(b, call, i);
    } else if call.RequestMint? || call.Review? || call.Revoke? || call.Confirm? || call.Expire? {
      NeverRejects(b, call, i);
    } else {
      OtherCallKeepsAuths(b, call);
    }
  }

  lemma ApproveStrandsNone(b: Book, call: Command, i: nat)
    requires call.Approve? && i < |ApproveSpec(b, call).book.auths|
    requires call.id < |b.auths| && b.auths[call.id].status == PENDING_CHECKER ==> b.auths[call.id].hold == NotHeld
    requires i < |b.auths| ==> !Stranded(b.auths[i])
    ensures !Stranded(ApproveSpec(b, call).book.auths[i])
  {
    hide GuardVerdict, Transfer;
  }

  lemma NeverRejects(b: Book, call: Command, i: nat)
    requires call.RequestMint? || call.Review? || call.Revoke? || call.Confirm? || call.Expire?
    requires i < |Step(b, call).book.auths|
    requires i < |b.auths| ==> !Stranded(b.auths[i])
    ensures !Stranded(Step(b, call).book.auths[i])
  {
    hide Transfer;
  }

  /** One call strands an earmark exactly when it rejects an issued authorization. */
  lemma StepStrandsExactlyWhen(b: Book, call: Command)
    requires Inv(b) && NoneStranded(b)
    ensures NoneStranded(Step(b, call).book) <==> !Strands(b, call)
  {
    if Strands(b, call) {
      IssuedIsHeld(b, call.id);
      hide Inv;
      assert Stranded(Step(b, call).book.auths[call.id]);
    } else {
      hide Inv, Step;
      forall i | 0 <= i < |Step(b, call).book.auths| ensures !Stranded(Step(b, call).book.auths[i]) {
        StrandedOnlyByReject(b, call, i);
      }
    }
  }

  /** Some call of the run rejects an authorization that is issued at that moment. */
  ghost predicate RejectsIssued(b: Book, calls: seq<Command>) {
    exists k :: 0 <= k < |calls| && Strands(Run(b, calls[..k]), calls[k])
  }

  lemma RejectsIssuedStep(b: Book, calls: seq<Command>)
    requires calls != []
    ensures var n := |calls| - 1;
            RejectsIssued(b, calls) <==> RejectsIssued(b, calls[..n]) || Strands(Run(b, calls[..n]), calls[n])
  {
    hide Run, Strands;
    var n := |calls| - 1;
    var front := calls[..n];
    assert forall k :: 0 <= k < n ==> front[k] == calls[k] && front[..k] == calls[..k];
    if RejectsIssued(b, front) {
      var k :| 0 <= k < n && Strands(Run(b, front[..k]), front[k]);
      assert Strands(Run(b, calls[..k]), calls[k]);
    }
    if RejectsIssued(b, calls) {
      var k :| 0 <= k < |calls| && Strands(Run(b, calls[..k]), calls[k]);
      assert k < n ==> Strands(Run(b, front[..k]), front[k]);
    }
  }

  lemma {:induction false} RunStrandsExactlyWhen(b: Book, calls: seq<Command>)
    requires Inv(b) && NoneStranded(b)
    ensures NoneStranded(Run(b, calls)) <==> !RejectsIssued(b, calls)
  {
    if calls != [] {
      var n := |calls| - 1;
      var before := Run(b, calls[..n]);
      assert Run(b, calls) == Step(before, calls[n]).book;
      hide Inv, Step, Run, RejectsIssued, Strands;
      RunStrandsExactlyWhen(b, calls[..n]);
      RejectsIssuedStep(b, calls);
      RunKeeps(b, calls[..n]);
      if NoneStranded(before) { StepStrandsExactlyWhen(before, calls[n]); } else { StillStranded(before, calls[n]); }
    }
  }

  lemma StillStranded(b: Book, call: Command)
    requires !NoneStranded(b)
    ensures !NoneStranded(Step(b, call).book)
  {
    hide Step;
    var i :| 0 <= i < |b.auths| && Stranded(b.auths[i]);
    StepKeepsStranded(b, call, i);
  }

  /** The pending-mint account of every program is the total of its issued authorizations. */
  ghost predicate PendingMintIsIssued(b: Book) {
    forall p, c :: Balance(b.journal, p, PendingMint, c) == IssuedMints(b, p, c)
  }

  lemma PendingMintIsIssuedUnlessStranded(b: Book)
    requires Inv(b)
    ensures PendingMintIsIssued(b) <==> NoneStranded(b)
  {
    forall p, c
      ensures Balance(b.journal, p, PendingMint, c) == IssuedMints(b, p, c)
         <==> forall i :: 0 <= i < |b.auths| && b.auths[i].programId == p && b.auths[i].currency == c
                          ==> !Stranded(b.auths[i])
    {
      PendingMintIsIssuedExactlyWhen(b, p, c);
    }
    hide Inv, Balance, IssuedMints, Stranded;
    if PendingMintIsIssued(b) {
      forall i | 0 <= i < |b.auths| ensures !Stranded(b.auths[i]) {
        var p, c := b.auths[i].programId, b.auths[i].currency;
        assert Balance(b.journal, p, PendingMint, c) == IssuedMints(b, p, c);
      }
    }
  }

  /**
   * Over every run, the pending-mint account of every program is the total of its issued authorizations exactly
   * when no call of the run rejected an authorization that was issued when it came.
   */
  lemma PendingMintIsIssuedUnlessRejected(programs: map<string, Program>, config: Config, calls: seq<Command>)
    ensures PendingMintIsIssued(Run(EmptyBook(programs, config), calls))
       <==> !RejectsIssued(EmptyBook(programs, config), calls)
  {
    var b0 := EmptyBook(programs, config);
    EmptyInv(programs, config);
    assert NoneStranded(b0);
    hide *;
    RunKeeps(b0, calls);
    RunStrandsExactlyWhen(b0, calls);
    PendingMintIsIssuedUnlessStranded(Run(b0, calls));
  }

  // ----- Snapshot status

  /** A snapshot says OK exactly when the reserve covers the obligation at the required ratio. */
  lemma SnapshotStatusIsCoverage(b: Book, p: string)
    requires p in b.programs && PositionOf(b, p).Ok?
    ensures var pos := PositionOf(b, p).value;
            pos.surplus.minor >= 0 <==>
            IsFullyReserved(pos.eligibleReserve, pos.reserveObligation, b.programs[p].requiredRatioBps) == Ok(true)
  {
    PositionOverBalances(b, p);
  }
}
