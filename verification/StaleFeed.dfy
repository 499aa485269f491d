/** Why full reserve needs a covering feed: a run in which every check passes and the reserve is spent twice. */
module StaleFeed {
  import opened Results
  import opened Moneys
  import opened Sums
  import opened Journal
  import opened Ledger
  import opened Entries
  import opened ReserveCalculation
  import opened MintGuard
  import opened ReserveBook
  import opened ReserveInvariants
  import opened FullReserve

  const P: string := "program"
  const USD: Currency := "USD"
  const PROGRAMS: map<string, Program> := map[P := Program(USD, 0, 10000)]
  const CONFIG: Config := Config(900, 300, 900, None, 900000)
  const ENV: GuardEnv := GuardEnv(0, 0, None, false, false, false, false, false, true)

  const FUNDING: seq<Command> := [
    Register(P, true, "bank-1", 100, USD, "bank"),
    MatchDeposit(0, Some(FundingInstruction(100, USD))),
    Clear(0, true, "bank"),
    Ingest(P, 1, 0, 0, true, true, true)]

  /** Request, review and approve authorization `i` for 100. */
  function Mint(i: nat, reference: string): seq<Command> {
    [RequestMint(P, reference, 100, [0]), Review(i, "maker", true), Approve(i, "checker", true, ENV)]
  }

  /** Deposit 100, mint 100, confirm; the feed still says 0, so another 100 is approved. */
  const STALE_RUN: seq<Command> := FUNDING + Mint(0, "first") + [Confirm(0, 100, 0, "paychain")] + Mint(1, "second")

  const D0: Deposit := Deposit(P, "bank-1", 100, USD, CLEARED)
  const S0: Snapshot := Snapshot(P, 1, 0, 0, true)
  const A0: Auth := Auth(P, "first", 100, USD, [0], CONSUMED,
    Some(Approval("maker", Some("checker"), DECISION_APPROVED)), Some(900000), Some(Confirmation(100, 0)),
    Freed(MintConfirm))

  function Requested(reference: string): Auth {
    Auth(P, reference, 100, USD, [0], PENDING_MAKER, None, None, None, NotHeld)
  }

  function Reviewed(reference: string): Auth {
    Requested(reference).(status := PENDING_CHECKER, approval := Some(Approval("maker", None, DECISION_PENDING)))
  }

  function Issued(reference: string): Auth {
    Requested(reference).(status := ISSUED, approval := Some(Approval("maker", Some("checker"), DECISION_APPROVED)),
                          expiresAt := Some(900000), hold := Held)
  }

  /** The records of a book with the one cleared deposit and the one stale snapshot. */
  ghost predicate Stands(b: Book, auths: seq<Auth>) {
    && Inv(b)
    && b.programs == PROGRAMS && b.config == CONFIG
    && b.deposits == [D0] && b.auths == auths && b.redemptions == [] && b.adjustments == [] && b.snapshots == [S0]
  }

  lemma RunConcat(b: Book, first: seq<Command>, second: seq<Command>)
    ensures Run(b, first + second) == Run(Run(b, first), second)
  {
    if second == [] {
      assert first + second == first;
    } else {
      assert (first + second)[..|first + second| - 1] == first + second[..|second| - 1];
      RunConcat(b, first, second[..|second| - 1]);
    }
  }

  lemma RunLast(b: Book, front: seq<Command>, last: Command)
    ensures Run(b, front + [last]) == Step(Run(b, front), last).book
  {
    assert (front + [last])[..|front|] == front;
  }

  lemma RunThree(b: Book, c1: Command, c2: Command, c3: Command)
    ensures Run(b, [c1, c2, c3]) == Step(Step(Step(b, c1).book, c2).book, c3).book
  {
    RunLast(b, [], c1);
    RunLast(b, [c1], c2);
    RunLast(b, [c1, c2], c3);
    assert [] + [c1] == [c1] && [c1] + [c2] == [c1, c2] && [c1, c2] + [c3] == [c1, c2, c3];
  }

  lemma RunFour(b: Book, c1: Command, c2: Command, c3: Command, c4: Command)
    ensures Run(b, [c1, c2, c3, c4]) == Step(Step(Step(Step(b, c1).book, c2).book, c3).book, c4).book
  {
    RunThree(b, c1, c2, c3);
    RunLast(b, [c1, c2, c3], c4);
    assert [c1, c2, c3] + [c4] == [c1, c2, c3, c4];
  }

  lemma FundingStands()
    ensures Stands(Run(EmptyBook(PROGRAMS, CONFIG), FUNDING), [])
  {
    hide Inv, Balance, Transfer;
    var b0 := EmptyBook(PROGRAMS, CONFIG);
    EmptyInv(PROGRAMS, CONFIG);
    RunKeeps(b0, FUNDING);
    RunFour(b0, FUNDING[0], FUNDING[1], FUNDING[2], FUNDING[3]);
    var b1 := Step(b0, FUNDING[0]).book;
    TransferSpec(TrusteeBankCash, UnmatchedDeposit, Money(100, USD), References(Source(DepositDetected, 0), P, "bank"));
    assert b1 == b0.(journal := b1.journal, deposits := [D0.(status := DETECTED)]);
    var b2 := Step(b1, FUNDING[1]).book;
    assert b2 == b1.(deposits := [D0.(status := MATCHED)]);
    var b3 := Step(b2, FUNDING[2]).book;
    TransferSpec(UnmatchedDeposit, ReserveObligation, Money(100, USD), References(Source(DepositClear, 0), P, "bank"));
    assert b3 == b2.(journal := b3.journal, deposits := [D0]);
    var b4 := Step(b3, FUNDING[3]).book;
    assert b4 == b3.(snapshots := [S0]);
  }

  lemma StandingTotals(b: Book, auths: seq<Auth>)
    requires Stands(b, auths)
    ensures ClearedDeposits(b, P, USD) == 100
    ensures forall counted :: Redemptions(b, P, USD, counted) == 0
    ensures AdjustmentsActive(b, P, USD) == 0
    ensures Circulating(b, P) == 0
  {
    assert [D0][..0] == [];
    assert [S0][..0] == [];
    assert RowSum([D0], ClearedWeight(P, USD)) == RowSum([], ClearedWeight(P, USD)) + ClearedWeight(P, USD)(D0);
    assert LatestSnapshot([S0], P) == Some(S0);
  }

  /** Capacity is 100 while nothing is held, whatever has been minted: the feed reports no supply. */
  lemma CapacityUnderStaleFeed(b: Book, auths: seq<Auth>)
    requires Stands(b, auths) && HeldMints(b, P, USD) == 0
    ensures PositionOf(b, P).Ok? && PositionOf(b, P).value.mintCapacity == Money(100, USD)
    ensures PositionOf(b, P).value.currency == USD
  {
    hide Inv, Balance, PositionOf, ClearedDeposits, HeldMints, Redemptions, AdjustmentsActive, Circulating;
    StandingTotals(b, auths);
    PositionOverBalances(b, P);
    PositionMeansRecords(b, P);
  }

  lemma GuardPasses(b: Book, a: Auth)
    requires PositionOf(b, P).Ok? && PositionOf(b, P).value.mintCapacity == Money(100, USD)
    requires PositionOf(b, P).value.currency == USD
    requires a.programId == P && a.amount == 100 && a.currency == USD && a.fundingDepositIds == [0]
    requires b.config == CONFIG && b.deposits == [D0] && b.snapshots == [S0]
    ensures GuardVerdict(b, a, ENV) == Ok(true)
  {
    hide PositionOf, Decide, MintCapacity;
    var found := set i | i in a.fundingDepositIds && i < |b.deposits|;
    assert found == {0};
    assert FundingCleared(b.deposits, a.fundingDepositIds);
    assert [S0][..0] == [];
    assert LatestSnapshot([S0], P) == Some(S0);
    var facts := GuardFacts(b, a, ENV).value;
    MintCapacitySpec(facts.capacityInput);
    GuardFailsSafe(facts);
    forall r ensures !Blocks(facts, Money(100, USD), r) {
    }
  }

  lemma MakerIsNotChecker()
    ensures "maker" != "checker"
  {
    assert |"maker"| != |"checker"|;
  }

  lemma ApprovedIsIssued(b: Book, i: nat, a: Auth, checkerId: string, env: GuardEnv)
    requires i < |b.auths| && b.auths[i] == a
    requires a.status == PENDING_CHECKER && a.approval.Some? && a.approval.value.makerId != checkerId
    requires GuardVerdict(b, a, env) == Ok(true)
    ensures Step(b, Approve(i, checkerId, true, env)) == Issue(b, i, checkerId, env.nowMs)
  {
    hide GuardVerdict, Issue;
  }

  lemma VerdictPasses(b: Book, auths: seq<Auth>, reference: string)
    requires Stands(b, auths) && HeldMints(b, P, USD) == 0
    ensures GuardVerdict(b, Reviewed(reference), ENV) == Ok(true)
  {
    CapacityUnderStaleFeed(b, auths);
    GuardPasses(b, Reviewed(reference));
  }

  lemma ApprovalIssues(b: Book, auths: seq<Auth>, reference: string)
    requires Stands(b, auths + [Reviewed(reference)]) && HeldMints(b, P, USD) == 0
    ensures Step(b, Approve(|auths|, "checker", true, ENV)) == Issue(b, |auths|, "checker", 0)
  {
    assert b.auths[|auths|] == Reviewed(reference);
    MakerIsNotChecker();
    VerdictPasses(b, b.auths, reference);
    ApprovedIsIssued(b, |auths|, Reviewed(reference), "checker", ENV);
  }

  lemma IssueReviewed(b: Book, auths: seq<Auth>, reference: string)
    requires b.auths == auths + [Reviewed(reference)] && b.config == CONFIG
    ensures var after := Issue(b, |auths|, "checker", 0).book;
            after == b.(journal := after.journal, auths := auths + [Issued(reference)])
  {
    TransferSpec(ReserveObligation, PendingMint, Money(100, USD),
                 References(Source(MintAuth, |auths|), P, "checker"));
    var after := Issue(b, |auths|, "checker", 0).book;
    assert after.auths == auths + [Issued(reference)];
  }

  /** One more mint of 100 is requested, reviewed and approved while nothing is held. */
  lemma MintPasses(b: Book, auths: seq<Auth>, reference: string)
    requires Stands(b, auths) && HeldMints(b, P, USD) == 0
    requires forall a :: a in auths ==> a.paychainRequestId != reference
    ensures Stands(Run(b, Mint(|auths|, reference)), auths + [Issued(reference)])
  {
    var calls := Mint(|auths|, reference);
    RunThree(b, calls[0], calls[1], calls[2]);
    PaperworkPasses(b, auths, reference);
    ApprovalPasses(Step(Step(b, calls[0]).book, calls[1]).book, auths, reference);
  }

  lemma PaperworkPasses(b: Book, auths: seq<Auth>, reference: string)
    requires Stands(b, auths) && HeldMints(b, P, USD) == 0
    requires forall a :: a in auths ==> a.paychainRequestId != reference
    ensures var after := Step(Step(b, Mint(|auths|, reference)[0]).book, Mint(|auths|, reference)[1]).book;
            Stands(after, auths + [Reviewed(reference)]) && HeldMints(after, P, USD) == 0
  {
    hide Inv, Build;
    var calls := Mint(|auths|, reference);
    var b1 := Step(b, calls[0]).book;
    assert b1 == b.(auths := auths + [Requested(reference)]);
    StepKeeps(b, calls[0]);
    var b2 := Step(b1, calls[1]).book;
    assert b2 == b1.(auths := auths + [Reviewed(reference)]);
    StepKeeps(b1, calls[1]);
    RowSumAppend(auths, Reviewed(reference), HeldWeight(P, USD));
  }

  lemma ApprovalPasses(b: Book, auths: seq<Auth>, reference: string)
    requires Stands(b, auths + [Reviewed(reference)]) && HeldMints(b, P, USD) == 0
    ensures Stands(Step(b, Approve(|auths|, "checker", true, ENV)).book, auths + [Issued(reference)])
  {
    ApprovalIssues(b, auths, reference);
    MakerIsNotChecker();
    assert b.auths[|auths|] == Reviewed(reference);
    IssueKeeps(b, |auths|, "checker", 0);
    IssueReviewed(b, auths, reference);
  }

  lemma ConfirmFirst(b: Book)
    requires Stands(b, [Issued("first")])
    ensures Stands(Step(b, Confirm(0, 100, 0, "paychain")).book, [A0])
  {
    TransferSpec(PendingMint, ReserveObligation, Money(100, USD), References(Source(MintConfirm, 0), P, "paychain"));
    StepKeeps(b, Confirm(0, 100, 0, "paychain"));
  }

  /**
   * Without the assumption on the feed full reserve fails: after this run 100 is deposited, 100 is minted and
   * another 100 is earmarked.
   */
  lemma StaleFeedSpendsTheReserveTwice()
    ensures var end := Run(EmptyBook(PROGRAMS, CONFIG), STALE_RUN);
            && Stands(end, [A0, Issued("second")])
            && Headroom(end, P, USD) == -100
            && !FullyReserved(end, P, USD)
  {
    var b0 := EmptyBook(PROGRAMS, CONFIG);
    var funded := Run(b0, FUNDING);
    FundingStands();
    assert [] + [Issued("first")] == [Issued("first")];
    MintPasses(funded, [], "first");
    var minted := Run(funded, Mint(0, "first"));
    ConfirmFirst(minted);
    var confirmed := Step(minted, Confirm(0, 100, 0, "paychain")).book;
    assert [A0][..0] == [];
    assert RowSum([A0], HeldWeight(P, USD)) == RowSum([], HeldWeight(P, USD)) + HeldWeight(P, USD)(A0);
    MintPasses(confirmed, [A0], "second");
    assert [A0] + [Issued("second")] == [A0, Issued("second")];
    RunConcat(b0, FUNDING, Mint(0, "first"));
    RunLast(b0, FUNDING + Mint(0, "first"), Confirm(0, 100, 0, "paychain"));
    RunConcat(b0, FUNDING + Mint(0, "first") + [Confirm(0, 100, 0, "paychain")], Mint(1, "second"));
    var end := Run(b0, STALE_RUN);
    EndTotals(end);
    FullReserveIsHeadroom(end, P, USD);
  }

  lemma EndTotals(b: Book)
    requires Stands(b, [A0, Issued("second")])
    ensures Headroom(b, P, USD) == -100
  {
    StandingTotals(b, b.auths);
    assert b.auths[..1] == [A0] && [A0][..0] == [];
    assert RowSum([A0], HeldWeight(P, USD)) == HeldWeight(P, USD)(A0);
    assert RowSum([A0], MintedWeight(P, USD)) == MintedWeight(P, USD)(A0);
    assert RowSum(b.auths, HeldWeight(P, USD)) == 0 + HeldWeight(P, USD)(Issued("second"));
    assert RowSum(b.auths, MintedWeight(P, USD)) == 100 + MintedWeight(P, USD)(Issued("second"));
  }
}
