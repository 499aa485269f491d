/** What holds of the reserve book after every run: the ledger refines the status machines. */
module ReserveInvariants {
  import opened Results
  import opened Moneys
  import opened Sums
  import opened Journal
  import opened Entries
  import opened Ledger
  import opened Traces
  import opened ReserveBook

  // ----- What one record contributes to the balance of an account

  predicate EverApproved(s: RedemptionStatus) {
    s == APPROVED || Burned(s)
  }

  predicate Burned(s: RedemptionStatus) {
    s == BURN_CONFIRMED || s == PAYOUT_SUBMITTED || s == COMPLETED
  }

  /** A booked deposit is cash, owed as unmatched until it is cleared and as reserve obligation from then on. */
  function DepositShare(p: string, a: Account, c: Currency): Deposit -> int {
    (d: Deposit) =>
      if d.programId != p || d.currency != c || d.amount <= 0 then 0
      else match a
        case TrusteeBankCash => d.amount
        case UnmatchedDeposit => if d.status == CLEARED then 0 else d.amount
        case ReserveObligation => if d.status == CLEARED then d.amount else 0
        case _ => 0
  }

  /** A held authorization keeps its amount out of the general obligation. */
  function AuthShare(p: string, a: Account, c: Currency): Auth -> int {
    (x: Auth) =>
      if x.programId != p || x.currency != c || x.hold != Held then 0
      else match a
        case PendingMint => x.amount
        case ReserveObligation => -x.amount
        case _ => 0
  }

  /** An approved redemption leaves the obligation for the pending account until it is paid in cash. */
  function RedemptionShare(p: string, a: Account, c: Currency): Redemption -> int {
    (r: Redemption) =>
      if r.programId != p || r.currency != c || !EverApproved(r.status) then 0
      else match a
        case TrusteeBankCash => if r.status == COMPLETED then -r.amount else 0
        case PendingRedemption => if r.status == COMPLETED then 0 else r.amount
        case ReserveObligation => -r.amount
        case _ => 0
  }

  /** What the records say an account holds. */
  function Recorded(b: Book, p: string, a: Account, c: Currency): int {
    RowSum(b.deposits, DepositShare(p, a, c)) + RowSum(b.auths, AuthShare(p, a, c))
    + RowSum(b.redemptions, RedemptionShare(p, a, c))
  }

  // ----- Life of one record: its row and the entries that concern it

  predicate DepositLife(d: Deposit, i: nat, t: JournalLog) {
    var amount := Money(d.amount, d.currency);
    && (d.status == DETECTED || d.status == MATCHED || d.status == CLEARED)
    && (d.status == CLEARED ==> d.amount > 0)
    && |t| == (if d.amount <= 0 then 0 else if d.status == CLEARED then 2 else 1)
    && (|t| >= 1 ==>
          Moves(t[0], Source(DepositDetected, i), d.programId, TrusteeBankCash, UnmatchedDeposit, amount))
    && (|t| == 2 ==>
          Moves(t[1], Source(DepositClear, i), d.programId, UnmatchedDeposit, ReserveObligation, amount))
  }

  /** The approval of an authorization is never by its maker. */
  predicate TwoPairsOfEyes(a: Auth) {
    a.approval.Some? ==> a.approval.value.checkerId != Some(a.approval.value.makerId)
  }

  /** Which release an authorization in a given state has had, and what came with it. */
  predicate ReleasedThrough(a: Auth, kind: SourceKind) {
    match kind
    case MintRevoke => (a.status == REVOKED || a.status == REJECTED) && a.confirmation.None?
    case MintExpire => (a.status == EXPIRED || a.status == REJECTED) && a.confirmation.None?
    case MintConfirm =>
      && (a.status == CONSUMED || a.status == REJECTED)
      && a.confirmation.Some?
      && a.confirmation.value.amount == a.amount
      && a.expiresAt.Some?
      && a.confirmation.value.recordedAt <= a.expiresAt.value
    case _ => false
  }

  predicate AuthLife(a: Auth, i: nat, programs: map<string, Program>, t: JournalLog) {
    var amount := Money(a.amount, a.currency);
    && a.amount > 0
    && a.programId in programs && a.currency == programs[a.programId].currency
    && TwoPairsOfEyes(a)
    && (a.status == PENDING_CHECKER ==> a.approval.Some?)
    && (a.hold != NotHeld ==> a.approval.Some? && a.expiresAt.Some?)
    && |t| == (match a.hold case NotHeld => 0 case Held => 1 case Freed(_) => 2)
    && (|t| >= 1 ==>
          && Moves(t[0], Source(MintAuth, i), a.programId, ReserveObligation, PendingMint, amount)
          && t[0].references.actor != a.approval.value.makerId)
    && match a.hold
       case NotHeld =>
         (a.status == PENDING_MAKER || a.status == PENDING_CHECKER || a.status == REJECTED) && a.confirmation.None?
       case Held => (a.status == ISSUED || a.status == REJECTED) && a.confirmation.None?
       case Freed(kind) =>
         && ReleasedThrough(a, kind)
         && Moves(t[1], Source(kind, i), a.programId, PendingMint, ReserveObligation, amount)
  }

  predicate RedemptionLife(r: Redemption, i: nat, programs: map<string, Program>, t: JournalLog) {
    var amount := Money(r.amount, r.currency);
    && r.amount > 0
    && r.programId in programs && r.currency == programs[r.programId].currency
    && (r.status == AWAITING_APPROVAL || EverApproved(r.status))
    && (r.burnTxHash.Some? <==> Burned(r.status))
    && |t| == (if r.status == COMPLETED then 2 else if EverApproved(r.status) then 1 else 0)
    && (|t| >= 1 ==>
          Moves(t[0], Source(RedemptionApproved, i), r.programId, ReserveObligation, PendingRedemption, amount))
    && (|t| == 2 ==>
          Moves(t[1], Source(RedemptionPayout, i), r.programId, PendingRedemption, TrusteeBankCash, amount))
  }

  ghost predicate DepositsLive(b: Book) {
    forall i: nat :: if i < |b.deposits| then DepositLife(b.deposits[i], i, Trace(b.journal, DepositFamily, i))
                     else Trace(b.journal, DepositFamily, i) == []
  }

  ghost predicate AuthsLive(b: Book) {
    forall i: nat :: if i < |b.auths| then AuthLife(b.auths[i], i, b.programs, Trace(b.journal, MintFamily, i))
                     else Trace(b.journal, MintFamily, i) == []
  }

  ghost predicate RedemptionsLive(b: Book) {
    forall i: nat ::
      if i < |b.redemptions| then
        RedemptionLife(b.redemptions[i], i, b.programs, Trace(b.journal, RedemptionFamily, i))
      else Trace(b.journal, RedemptionFamily, i) == []
  }

  ghost predicate LedgerRefines(b: Book) {
    forall p, a, c :: Balance(b.journal, p, a, c) == Recorded(b, p, a, c)
  }

  ghost predicate Inv(b: Book) {
    && AllPosted(b.journal)
    && DepositsLive(b)
    && AuthsLive(b)
    && RedemptionsLive(b)
    && LedgerRefines(b)
  }

  // ----- One record changes, at most one entry is posted for it

  lemma AllPostedExtend(log: JournalLog, es: JournalLog)
    requires AllPosted(log) && AllPosted(es)
    ensures AllPosted(log + es)
  {
  }

  /** No entry of the family is added. */
  ghost predicate Untouched(b: Book, after: Book, family: Family) {
    forall k: nat :: Trace(after.journal, family, k) == Trace(b.journal, family, k)
  }

  lemma DepositsCarry(b: Book, after: Book)
    requires DepositsLive(b) && after.deposits == b.deposits && Untouched(b, after, DepositFamily)
    ensures DepositsLive(after)
  {
    hide DepositLife;
  }

  lemma AuthsCarry(b: Book, after: Book)
    requires AuthsLive(b) && after.auths == b.auths && Untouched(b, after, MintFamily)
    requires after.programs == b.programs
    ensures AuthsLive(after)
  {
    hide AuthLife;
  }

  lemma RedemptionsCarry(b: Book, after: Book)
    requires RedemptionsLive(b) && after.redemptions == b.redemptions && Untouched(b, after, RedemptionFamily)
    requires after.programs == b.programs
    ensures RedemptionsLive(after)
  {
    hide RedemptionLife;
  }

  lemma DepositChange(b: Book, i: nat, row: Deposit, es: JournalLog, after: Book)
    requires Inv(b) && i <= |b.deposits|
    requires EntriesFor(es, DepositFamily, i)
    requires after == b.(journal := b.journal + es, deposits := Put(b.deposits, i, row))
    requires DepositLife(row, i, Trace(b.journal, DepositFamily, i) + es)
    requires LedgerRefines(after)
    ensures Inv(after)
  {
    hide DepositLife, AuthLife, RedemptionLife, LedgerRefines, Trace, Posted;
    TraceExtend(b.journal, es, DepositFamily, i);
    AllPostedExtend(b.journal, es);
    AuthsCarry(b, after);
    RedemptionsCarry(b, after);
    forall k: nat
      ensures if k < |after.deposits| then DepositLife(after.deposits[k], k, Trace(after.journal, DepositFamily, k))
              else Trace(after.journal, DepositFamily, k) == []
    {
      if k != i {
        assert Trace(after.journal, DepositFamily, k) == Trace(b.journal, DepositFamily, k);
      }
    }
  }

  lemma AuthChange(b: Book, i: nat, row: Auth, es: JournalLog, after: Book)
    requires Inv(b) && i <= |b.auths|
    requires EntriesFor(es, MintFamily, i)
    requires after == b.(journal := b.journal + es, auths := Put(b.auths, i, row))
    requires AuthLife(row, i, b.programs, Trace(b.journal, MintFamily, i) + es)
    requires LedgerRefines(after)
    ensures Inv(after)
  {
    hide DepositLife, AuthLife, RedemptionLife, LedgerRefines, Trace, Posted;
    TraceExtend(b.journal, es, MintFamily, i);
    AllPostedExtend(b.journal, es);
    DepositsCarry(b, after);
    RedemptionsCarry(b, after);
    forall k: nat
      ensures if k < |after.auths| then AuthLife(after.auths[k], k, after.programs, Trace(after.journal, MintFamily, k))
              else Trace(after.journal, MintFamily, k) == []
    {
      if k != i {
        assert Trace(after.journal, MintFamily, k) == Trace(b.journal, MintFamily, k);
      }
    }
  }

  lemma RedemptionChange(b: Book, i: nat, row: Redemption, es: JournalLog, after: Book)
    requires Inv(b) && i <= |b.redemptions|
    requires EntriesFor(es, RedemptionFamily, i)
    requires after == b.(journal := b.journal + es, redemptions := Put(b.redemptions, i, row))
    requires RedemptionLife(row, i, b.programs, Trace(b.journal, RedemptionFamily, i) + es)
    requires LedgerRefines(after)
    ensures Inv(after)
  {
    hide DepositLife, AuthLife, RedemptionLife, LedgerRefines, Trace, Posted;
    TraceExtend(b.journal, es, RedemptionFamily, i);
    AllPostedExtend(b.journal, es);
    DepositsCarry(b, after);
    AuthsCarry(b, after);
    forall k: nat
      ensures if k < |after.redemptions| then
                RedemptionLife(after.redemptions[k], k, after.programs, Trace(after.journal, RedemptionFamily, k))
              else Trace(after.journal, RedemptionFamily, k) == []
    {
      if k != i {
        assert Trace(after.journal, RedemptionFamily, k) == Trace(b.journal, RedemptionFamily, k);
      }
    }
  }

  // ----- The ledger side of a change

  /** The shift of a balance when a transfer is posted in a scope. */
  function Shift(
    debit: Account, credit: Account, m: Money, programId: string, p: string, a: Account, c: Currency): int
  {
    if programId == p && m.currency == c then TransferEffect(debit, credit, m.minor, a) else 0
  }

  lemma DepositPosting(b: Book, i: nat, row: Deposit, e: Entry, debit: Account, credit: Account, after: Book)
    requires LedgerRefines(b) && i <= |b.deposits|
    requires TypeOf(debit).Some? && TypeOf(credit).Some?
    requires Transfer(debit, credit, Money(row.amount, row.currency), e.references) == Ok(e)
    requires e.references.programId == row.programId
    requires after == b.(journal := b.journal + [e], deposits := Put(b.deposits, i, row))
    requires forall p, a, c :: DepositShare(p, a, c)(row) - Before(b.deposits, i, DepositShare(p, a, c))
                            == Shift(debit, credit, Money(row.amount, row.currency), row.programId, p, a, c)
    ensures LedgerRefines(after)
  {
    forall p, a, c ensures Balance(after.journal, p, a, c) == Recorded(after, p, a, c) {
      PutSum(b.deposits, i, row, DepositShare(p, a, c));
      BalanceAppendTransfer(b.journal, e, debit, credit, Money(row.amount, row.currency), e.references, p, a, c);
    }
  }

  lemma AuthPosting(b: Book, i: nat, row: Auth, e: Entry, debit: Account, credit: Account, after: Book)
    requires LedgerRefines(b) && i <= |b.auths|
    requires TypeOf(debit).Some? && TypeOf(credit).Some?
    requires Transfer(debit, credit, Money(row.amount, row.currency), e.references) == Ok(e)
    requires e.references.programId == row.programId
    requires after == b.(journal := b.journal + [e], auths := Put(b.auths, i, row))
    requires forall p, a, c :: AuthShare(p, a, c)(row) - Before(b.auths, i, AuthShare(p, a, c))
                            == Shift(debit, credit, Money(row.amount, row.currency), row.programId, p, a, c)
    ensures LedgerRefines(after)
  {
    forall p, a, c ensures Balance(after.journal, p, a, c) == Recorded(after, p, a, c) {
      PutSum(b.auths, i, row, AuthShare(p, a, c));
      BalanceAppendTransfer(b.journal, e, debit, credit, Money(row.amount, row.currency), e.references, p, a, c);
    }
  }

  lemma RedemptionPosting(b: Book, i: nat, row: Redemption, e: Entry, debit: Account, credit: Account, after: Book)
    requires LedgerRefines(b) && i <= |b.redemptions|
    requires TypeOf(debit).Some? && TypeOf(credit).Some?
    requires Transfer(debit, credit, Money(row.amount, row.currency), e.references) == Ok(e)
    requires e.references.programId == row.programId
    requires after == b.(journal := b.journal + [e], redemptions := Put(b.redemptions, i, row))
    requires forall p, a, c :: RedemptionShare(p, a, c)(row) - Before(b.redemptions, i, RedemptionShare(p, a, c))
                            == Shift(debit, credit, Money(row.amount, row.currency), row.programId, p, a, c)
    ensures LedgerRefines(after)
  {
    forall p, a, c ensures Balance(after.journal, p, a, c) == Recorded(after, p, a, c) {
      PutSum(b.redemptions, i, row, RedemptionShare(p, a, c));
      BalanceAppendTransfer(b.journal, e, debit, credit, Money(row.amount, row.currency), e.references, p, a, c);
    }
  }

  /** A change that posts nothing and moves no share leaves the ledger refined. */
  lemma SilentChange(b: Book, after: Book)
    requires LedgerRefines(b)
    requires after.journal == b.journal
    requires forall p, a, c :: Recorded(after, p, a, c) == Recorded(b, p, a, c)
    ensures LedgerRefines(after)
  {
    forall p, a, c ensures Balance(after.journal, p, a, c) == Recorded(after, p, a, c) {
    }
  }

  // ----- Every call keeps the invariant

  lemma BookedRegisterKeeps(b: Book, row: Deposit, refs: References, after: Book)
    requires Inv(b) && row.status == DETECTED && row.amount > 0
    requires refs.source == Source(DepositDetected, |b.deposits|) && refs.programId == row.programId
    requires var e := DetectedDepositEntry(Money(row.amount, row.currency), refs);
             e.Ok? && after == b.(journal := b.journal + [e.value], deposits := b.deposits + [row])
    ensures Inv(after)
  {
    var id, money := |b.deposits|, Money(row.amount, row.currency);
    TransferSpec(TrusteeBankCash, UnmatchedDeposit, money, refs);
    var e := DetectedDepositEntry(money, refs).value;
    DepositPosting(b, id, row, e, TrusteeBankCash, UnmatchedDeposit, after);
    DepositChange(b, id, row, [e], after);
  }

  /** The engine refuses to book an amount that is not positive, but the row stays. */
  lemma UnbookedRegisterKeeps(b: Book, row: Deposit, after: Book)
    requires Inv(b) && row.status == DETECTED && row.amount <= 0
    requires after == b.(deposits := b.deposits + [row])
    ensures Inv(after)
  {
    hide AuthLife, RedemptionLife, Balance, Posted, Trace, Build;
    var id := |b.deposits|;
    forall p, a, k ensures Recorded(after, p, a, k) == Recorded(b, p, a, k) {
      PutSum(b.deposits, id, row, DepositShare(p, a, k));
    }
    SilentChange(b, after);
    assert b.journal + [] == b.journal;
    DepositChange(b, id, row, [], after);
  }

  lemma RegisterKeeps(b: Book, c: Command)
    requires Inv(b) && c.Register?
    ensures Inv(RegisterSpec(b, c).book)
  {
    var after := RegisterSpec(b, c).book;
    if after != b {
      var refs := References(Source(DepositDetected, |b.deposits|), c.programId, c.actor);
      var row := Deposit(c.programId, c.bankTransactionId, c.amount, c.currency, DETECTED);
      TransferSpec(TrusteeBankCash, UnmatchedDeposit, Money(c.amount, c.currency), refs);
      if c.amount > 0 {
        BookedRegisterKeeps(b, row, refs, after);
      } else {
        UnbookedRegisterKeeps(b, row, after);
      }
    }
  }

  lemma MatchKeeps(b: Book, c: Command)
    requires Inv(b) && c.MatchDeposit?
    ensures Inv(MatchSpec(b, c).book)
  {
    hide RedemptionLife, AuthLife, Balance, Posted, Build;
    var after := MatchSpec(b, c).book;
    if after != b {
      var row := after.deposits[c.id];
      forall p, a, k ensures Recorded(after, p, a, k) == Recorded(b, p, a, k) {
        PutSum(b.deposits, c.id, row, DepositShare(p, a, k));
      }
      SilentChange(b, after);
      assert b.journal + [] == b.journal;
      assert Trace(b.journal, DepositFamily, c.id) + [] == Trace(b.journal, DepositFamily, c.id);
      DepositChange(b, c.id, row, [], after);
    }
  }

  lemma ClearKeeps(b: Book, c: Command)
    requires Inv(b) && c.Clear?
    ensures Inv(ClearSpec(b, c).book)
  {
    hide RedemptionLife, AuthLife, Build, Balance, Posted, Trace;
    var after := ClearSpec(b, c).book;
    if after != b {
      var d, row := b.deposits[c.id], after.deposits[c.id];
      var money := Money(d.amount, d.currency);
      var refs := References(Source(DepositClear, c.id), d.programId, c.actor);
      TransferSpec(UnmatchedDeposit, ReserveObligation, money, refs);
      var e := ClearedReclassEntry(money, refs).value;
      DepositPosting(b, c.id, row, e, UnmatchedDeposit, ReserveObligation, after);
      DepositChange(b, c.id, row, [e], after);
    }
  }

  lemma RequestMintKeeps(b: Book, c: Command)
    requires Inv(b) && c.RequestMint?
    ensures Inv(RequestMintSpec(b, c).book)
  {
    var after := RequestMintSpec(b, c).book;
    if after != b {
      QuietAuthChange(b, |b.auths|, after.auths[|b.auths|], after);
    }
  }

  /** A change of an authorization that neither takes nor gives up an earmark. */
  lemma QuietAuthChange(b: Book, i: nat, row: Auth, after: Book)
    requires Inv(b) && i <= |b.auths|
    requires after == b.(auths := Put(b.auths, i, row))
    requires AuthLife(row, i, b.programs, Trace(b.journal, MintFamily, i))
    requires if i < |b.auths| then
               row == b.auths[i].(status := row.status, approval := row.approval)
             else row.hold == NotHeld
    ensures Inv(after)
  {
    hide RedemptionLife, DepositLife, Balance, Posted, Trace, Build;
    forall p, a, k ensures Recorded(after, p, a, k) == Recorded(b, p, a, k) {
      PutSum(b.auths, i, row, AuthShare(p, a, k));
    }
    SilentChange(b, after);
    assert b.journal + [] == b.journal;
    assert Trace(b.journal, MintFamily, i) + [] == Trace(b.journal, MintFamily, i);
    AuthChange(b, i, row, [], after);
  }

  lemma ReviewKeeps(b: Book, c: Command)
    requires Inv(b) && c.Review?
    ensures Inv(ReviewSpec(b, c).book)
  {
    hide RedemptionLife, DepositLife, Balance, Posted, Build, LedgerRefines;
    var after := ReviewSpec(b, c).book;
    if after != b {
      QuietAuthChange(b, c.id, after.auths[c.id], after);
    }
  }

  lemma RejectKeeps(b: Book, c: Command)
    requires Inv(b) && c.Reject?
    ensures Inv(RejectSpec(b, c).book)
  {
    hide RedemptionLife, DepositLife, Balance, Posted, Trace, Build, LedgerRefines;
    var after := RejectSpec(b, c).book;
    if after != b {
      assert AuthLife(b.auths[c.id], c.id, b.programs, Trace(b.journal, MintFamily, c.id));
      QuietAuthChange(b, c.id, after.auths[c.id], after);
    }
  }

  lemma EarmarkKeeps(b: Book, i: nat, row: Auth, refs: References, after: Book)
    requires Inv(b) && i < |b.auths|
    requires var a := b.auths[i];
             && a.status == PENDING_CHECKER
             && a.approval.Some?
             && row == a.(status := ISSUED, approval := row.approval, expiresAt := row.expiresAt, hold := Held)
             && row.approval.Some? && row.expiresAt.Some? && TwoPairsOfEyes(row)
             && row.approval.value.makerId == a.approval.value.makerId != refs.actor
    requires refs.source == Source(MintAuth, i) && refs.programId == row.programId
    requires var e := MintReservationEntry(Money(row.amount, row.currency), refs);
             e.Ok? && after == b.(journal := b.journal + [e.value], auths := b.auths[i := row])
    ensures Inv(after)
  {
    hide DepositLife, RedemptionLife, Balance, Build, Posted, Trace;
    var money := Money(row.amount, row.currency);
    TransferSpec(ReserveObligation, PendingMint, money, refs);
    var e := MintReservationEntry(money, refs).value;
    AuthPosting(b, i, row, e, ReserveObligation, PendingMint, after);
    AuthChange(b, i, row, [e], after);
  }

  lemma IssueKeeps(b: Book, i: nat, checkerId: string, nowMs: int)
    requires Inv(b) && i < |b.auths|
    requires b.auths[i].status == PENDING_CHECKER && b.auths[i].approval.Some?
    requires b.auths[i].approval.value.makerId != checkerId
    ensures Inv(Issue(b, i, checkerId, nowMs).book)
    ensures Issue(b, i, checkerId, nowMs).fault.None?
  {
    var a := b.auths[i];
    assert AuthLife(a, i, b.programs, Trace(b.journal, MintFamily, i));
    var refs := References(Source(MintAuth, i), a.programId, checkerId);
    TransferSpec(ReserveObligation, PendingMint, Money(a.amount, a.currency), refs);
    var after := Issue(b, i, checkerId, nowMs).book;
    EarmarkKeeps(b, i, after.auths[i], refs, after);
  }

  lemma RefuseKeeps(b: Book, i: nat, checkerId: string)
    requires Inv(b) && i < |b.auths|
    requires b.auths[i].status == PENDING_CHECKER && b.auths[i].approval.Some?
    requires b.auths[i].approval.value.makerId != checkerId
    ensures Inv(Refuse(b, i, checkerId).book)
  {
    assert AuthLife(b.auths[i], i, b.programs, Trace(b.journal, MintFamily, i));
    var after := Refuse(b, i, checkerId).book;
    QuietAuthChange(b, i, after.auths[i], after);
  }

  lemma ApproveKeeps(b: Book, c: Command)
    requires Inv(b) && c.Approve?
    ensures Inv(ApproveSpec(b, c).book)
  {
    hide GuardVerdict, Issue, Refuse;
    if c.id < |b.auths| && b.auths[c.id].status == PENDING_CHECKER && b.auths[c.id].approval.Some?
       && b.auths[c.id].approval.value.makerId != c.checkerId
    {
      IssueKeeps(b, c.id, c.checkerId, c.env.nowMs);
      RefuseKeeps(b, c.id, c.checkerId);
    }
  }

  lemma ReleaseKeeps(b: Book, i: nat, kind: SourceKind, row: Auth, actor: string)
    requires Inv(b) && i < |b.auths| && b.auths[i].status == ISSUED
    requires FamilyOf(kind) == MintFamily
    requires row == b.auths[i].(status := row.status, confirmation := row.confirmation, hold := Freed(kind))
    requires row.status != PENDING_CHECKER && ReleasedThrough(row, kind)
    ensures Inv(ReleaseAuth(b, i, kind, row, actor).book)
    ensures ReleaseAuth(b, i, kind, row, actor).fault.None?
  {
    hide RedemptionLife, DepositLife, Build, Balance, Posted, Trace;
    var a := b.auths[i];
    assert AuthLife(a, i, b.programs, Trace(b.journal, MintFamily, i));
    var money, refs := Money(a.amount, a.currency), References(Source(kind, i), a.programId, actor);
    TransferSpec(PendingMint, ReserveObligation, money, refs);
    var e := MintReleaseEntry(money, refs).value;
    var after := ReleaseAuth(b, i, kind, row, actor).book;
    AuthPosting(b, i, row, e, PendingMint, ReserveObligation, after);
    AuthChange(b, i, row, [e], after);
  }

  lemma RevokeKeeps(b: Book, c: Command)
    requires Inv(b) && c.Revoke?
    ensures Inv(RevokeSpec(b, c).book)
  {
    if c.id < |b.auths| && b.auths[c.id].status == ISSUED {
      var a := b.auths[c.id];
      assert AuthLife(a, c.id, b.programs, Trace(b.journal, MintFamily, c.id));
      ReleaseKeeps(b, c.id, MintRevoke, a.(status := REVOKED, hold := Freed(MintRevoke)), c.actor);
    }
  }

  lemma ExpireAuthKeeps(b: Book, i: nat, actor: string)
    requires Inv(b) && i < |b.auths|
    ensures Inv(ExpireAuth(b, i, actor).book)
  {
    var a := b.auths[i];
    assert AuthLife(a, i, b.programs, Trace(b.journal, MintFamily, i));
    if a.status == ISSUED {
      ReleaseKeeps(b, i, MintExpire, a.(status := EXPIRED, hold := Freed(MintExpire)), actor);
    }
  }

  lemma ExpireKeeps(b: Book, c: Command)
    requires Inv(b) && c.Expire?
    ensures Inv(ExpireSpec(b, c).book)
  {
    if c.id < |b.auths| { ExpireAuthKeeps(b, c.id, c.actor); }
  }

  lemma ConfirmKeeps(b: Book, c: Command)
    requires Inv(b) && c.Confirm?
    ensures Inv(ConfirmSpec(b, c).book)
  {
    hide RedemptionLife, DepositLife, Balance, Posted, Trace, Build, LedgerRefines, ReleaseAuth;
    if c.id < |b.auths| && b.auths[c.id].status == ISSUED {
      var a := b.auths[c.id];
      assert AuthLife(a, c.id, b.programs, Trace(b.journal, MintFamily, c.id));
      ExpireAuthKeeps(b, c.id, c.actor);
      if a.expiresAt.value >= c.nowMs && c.amount == a.amount {
        var row := a.(status := CONSUMED, confirmation := Some(Confirmation(c.amount, c.nowMs)),
                      hold := Freed(MintConfirm));
        ReleaseKeeps(b, c.id, MintConfirm, row, c.actor);
      }
    }
  }

  /** A change of a redemption that posts nothing. */
  lemma QuietRedemptionChange(b: Book, i: nat, row: Redemption, after: Book)
    requires Inv(b) && i <= |b.redemptions|
    requires after == b.(redemptions := Put(b.redemptions, i, row))
    requires RedemptionLife(row, i, b.programs, Trace(b.journal, RedemptionFamily, i))
    requires if i < |b.redemptions| then
               var r := b.redemptions[i];
               && row == r.(status := row.status, burnTxHash := row.burnTxHash)
               && EverApproved(r.status) && EverApproved(row.status)
               && r.status != COMPLETED && row.status != COMPLETED
             else !EverApproved(row.status)
    ensures Inv(after)
  {
    hide AuthLife, DepositLife, Balance, Posted, Trace, Build;
    forall p, a, k ensures Recorded(after, p, a, k) == Recorded(b, p, a, k) {
      PutSum(b.redemptions, i, row, RedemptionShare(p, a, k));
    }
    SilentChange(b, after);
    assert b.journal + [] == b.journal;
    assert Trace(b.journal, RedemptionFamily, i) + [] == Trace(b.journal, RedemptionFamily, i);
    RedemptionChange(b, i, row, [], after);
  }

  lemma RequestRedemptionKeeps(b: Book, c: Command)
    requires Inv(b) && c.RequestRedemption?
    ensures Inv(RequestRedemptionSpec(b, c).book)
  {
    var after := RequestRedemptionSpec(b, c).book;
    if after != b {
      QuietRedemptionChange(b, |b.redemptions|, after.redemptions[|b.redemptions|], after);
    }
  }

  lemma ConfirmBurnKeeps(b: Book, c: Command)
    requires Inv(b) && c.ConfirmBurn?
    ensures Inv(ConfirmBurnSpec(b, c).book)
  {
    var after := ConfirmBurnSpec(b, c).book;
    if after != b {
      assert RedemptionLife(b.redemptions[c.id], c.id, b.programs, Trace(b.journal, RedemptionFamily, c.id));
      QuietRedemptionChange(b, c.id, after.redemptions[c.id], after);
    }
  }

  lemma SubmitPayoutKeeps(b: Book, c: Command)
    requires Inv(b) && c.SubmitPayout?
    ensures Inv(SubmitPayoutSpec(b, c).book)
  {
    var after := SubmitPayoutSpec(b, c).book;
    if after != b {
      assert RedemptionLife(b.redemptions[c.id], c.id, b.programs, Trace(b.journal, RedemptionFamily, c.id));
      QuietRedemptionChange(b, c.id, after.redemptions[c.id], after);
    }
  }

  lemma ApproveRedemptionKeeps(b: Book, c: Command)
    requires Inv(b) && c.ApproveRedemption?
    ensures Inv(ApproveRedemptionSpec(b, c).book)
  {
    hide DepositLife, AuthLife, Build, Balance, Posted, Trace;
    var after := ApproveRedemptionSpec(b, c).book;
    if after != b {
      var r, row := b.redemptions[c.id], after.redemptions[c.id];
      assert RedemptionLife(r, c.id, b.programs, Trace(b.journal, RedemptionFamily, c.id));
      var money := Money(r.amount, r.currency);
      var refs := References(Source(RedemptionApproved, c.id), r.programId, c.approverId);
      TransferSpec(ReserveObligation, PendingRedemption, money, refs);
      var e := RedemptionObligationEntry(money, refs).value;
      RedemptionPosting(b, c.id, row, e, ReserveObligation, PendingRedemption, after);
      RedemptionChange(b, c.id, row, [e], after);
    }
  }

  lemma ConfirmPayoutKeeps(b: Book, c: Command)
    requires Inv(b) && c.ConfirmPayout?
    ensures Inv(ConfirmPayoutSpec(b, c).book)
  {
    hide DepositLife, AuthLife, Build, Balance, Posted, Trace;
    var after := ConfirmPayoutSpec(b, c).book;
    if after != b {
      var r, row := b.redemptions[c.id], after.redemptions[c.id];
      assert RedemptionLife(r, c.id, b.programs, Trace(b.journal, RedemptionFamily, c.id));
      var money := Money(r.amount, r.currency);
      var refs := References(Source(RedemptionPayout, c.id), r.programId, c.actor);
      TransferSpec(PendingRedemption, TrusteeBankCash, money, refs);
      var e := PayoutConfirmedEntry(money, refs).value;
      RedemptionPosting(b, c.id, row, e, PendingRedemption, TrusteeBankCash, after);
      RedemptionChange(b, c.id, row, [e], after);
    }
  }

  /** Adjustments and liability snapshots are no part of the ledger. */
  lemma SideTablesKeep(b: Book, after: Book)
    requires Inv(b)
    requires after == b.(adjustments := after.adjustments, snapshots := after.snapshots)
    ensures Inv(after)
  {
    SilentChange(b, after);
  }

  lemma StepKeeps(b: Book, c: Command)
    requires Inv(b)
    ensures Inv(Step(b, c).book)
  {
    match c
    case Register(_, _, _, _, _, _) => RegisterKeeps(b, c);
    case MatchDeposit(_, _) => MatchKeeps(b, c);
    case Clear(_, _, _) => ClearKeeps(b, c);
    case RequestMint(_, _, _, _) => RequestMintKeeps(b, c);
    case Review(_, _, _) => ReviewKeeps(b, c);
    case Approve(_, _, _, _) => ApproveKeeps(b, c);
    case Reject(_, _, _) => RejectKeeps(b, c);
    case Revoke(_, _) => RevokeKeeps(b, c);
    case Confirm(_, _, _, _) => ConfirmKeeps(b, c);
    case Expire(_, _) => ExpireKeeps(b, c);
    case RequestRedemption(_, _, _, _) => RequestRedemptionKeeps(b, c);
    case ApproveRedemption(_, _, _) => ApproveRedemptionKeeps(b, c);
    case ConfirmBurn(_, _) => ConfirmBurnKeeps(b, c);
    case SubmitPayout(_, _) => SubmitPayoutKeeps(b, c);
    case ConfirmPayout(_, _) => ConfirmPayoutKeeps(b, c);
    case AddAdjustment(_, _, _) => SideTablesKeep(b, AddAdjustmentSpec(b, c).book);
    case LiftAdjustment(_) => SideTablesKeep(b, LiftAdjustmentSpec(b, c).book);
    case Ingest(_, _, _, _, _, _, _) => SideTablesKeep(b, IngestSpec(b, c).book);
  }

  /** The same for a caller that need not know whether the invariant held. */
  lemma StepKeepsInv(b: Book, c: Command)
    ensures Inv(b) ==> Inv(Step(b, c).book)
  {
    hide *;
    if Inv(b) { StepKeeps(b, c); }
  }

  lemma {:induction false} RunKeeps(b: Book, calls: seq<Command>)
    requires Inv(b)
    ensures Inv(Run(b, calls))
  {
    if calls != [] {
      RunKeeps(b, calls[..|calls| - 1]);
      StepKeeps(Run(b, calls[..|calls| - 1]), calls[|calls| - 1]);
    }
  }

  lemma EmptyInv(programs: map<string, Program>, config: Config)
    ensures Inv(EmptyBook(programs, config))
  {
  }

  /** Over every run from the empty book, the ledger refines the records. */
  lemma ReachableInv(b: Book)
    requires Reachable(b)
    ensures Inv(b)
  {
    var programs, config, calls :| b == Run(EmptyBook(programs, config), calls);
    EmptyInv(programs, config);
    RunKeeps(EmptyBook(programs, config), calls);
  }
}
