/** When outstanding loyalty is backed by its program fund, over whole runs, and how a release breaks it. */
module PaykhBacking {
  import opened Results
  import opened Moneys
  import opened Sums
  import opened Journal
  import opened Entries
  import opened Ledger
  import opened PaykhBook
  import opened PaykhInvariants
  import opened PaykhTotals

  /** The fund earmarks at least what was issued on it, and no more than was funded. */
  ghost predicate FundCovers(b: Book, f: nat)
    requires f < |b.funds|
  {
    && 0 <= b.funds[f].reserved <= b.funds[f].funded
    && forall i :: 0 <= i < |b.liabilities| && b.liabilities[i].fundId == f ==>
                     b.liabilities[i].issuedTotal <= b.funds[f].reserved
  }

  ghost predicate Backed(b: Book) {
    forall f: nat :: f < |b.funds| ==> FundCovers(b, f)
  }

  /** A reserved amount would still cover what was issued on the fund. */
  ghost predicate LeavesCover(b: Book, f: nat, reserved: int)
    requires f < |b.funds|
  {
    && 0 <= reserved <= b.funds[f].funded
    && forall i :: 0 <= i < |b.liabilities| && b.liabilities[i].fundId == f ==>
                     b.liabilities[i].issuedTotal <= reserved
  }

  /** What a caller must see to before reserving or releasing, if the call is to be accepted at all. */
  ghost predicate KeepsEarmark(b: Book, call: Command) {
    match call
    case ReserveFund(f, x) =>
      f < |b.funds| && x <= b.funds[f].funded - b.funds[f].reserved ==> LeavesCover(b, f, b.funds[f].reserved + x)
    case ReleaseFund(f, x) =>
      f < |b.funds| && x <= b.funds[f].reserved ==> LeavesCover(b, f, b.funds[f].reserved - x)
    case _ => true
  }

  lemma ReserveBacked(b: Book, call: Command)
    requires Backed(b) && (call.ReserveFund? || call.ReleaseFund?)
    ensures Backed(Step(b, call).book) <==> KeepsEarmark(b, call)
  {
    var after := Step(b, call).book;
    if after != b {
      assert after.liabilities == b.liabilities && |after.funds| == |b.funds|;
      assert after.funds[call.id].funded == b.funds[call.id].funded;
      assert FundCovers(after, call.id) <==> LeavesCover(b, call.id, after.funds[call.id].reserved);
      forall f: nat | f < |after.funds| && f != call.id ensures FundCovers(after, f) {
        assert FundCovers(b, f);
        assert after.funds[f] == b.funds[f];
      }
    } else if call.id < |b.funds| {
      assert FundCovers(b, call.id);
      assert b.funds[call.id := b.funds[call.id]] == b.funds;
      if call.ReserveFund? && call.amount <= b.funds[call.id].funded - b.funds[call.id].reserved {
        assert b.funds[call.id].reserved + call.amount == b.funds[call.id].reserved;
      }
      if call.ReleaseFund? && call.amount <= b.funds[call.id].reserved {
        assert b.funds[call.id].reserved - call.amount == b.funds[call.id].reserved;
      }
    }
  }

  lemma CreateFundBacked(b: Book, call: Command)
    requires Inv(b) && Backed(b) && (call.CreateFund? || call.FundProgram?)
    ensures Backed(Step(b, call).book)
  {
    hide Balance, Transfer, LedgerRefines, Posted;
    var after := Step(b, call).book;
    assert after.liabilities == b.liabilities;
    forall f: nat | f < |after.funds| ensures FundCovers(after, f) {
      if f < |b.funds| {
        assert FundCovers(b, f);
      } else {
        assert forall i :: 0 <= i < |b.liabilities| ==> LiabilityLife(b.liabilities[i], b.funds);
      }
    }
  }

  lemma IssueBacked(b: Book, id: nat, amount: Money, issuerAnswers: bool, actor: string)
    requires Inv(b) && Backed(b) && id < |b.liabilities| && b.liabilities[id].fundId < |b.funds|
    ensures Backed(IssueResolved(b, id, amount, issuerAnswers, actor).book)
  {
    hide Balance, Transfer, LedgerRefines, Posted, OrdersLive, SettlementsLive;
    var after := IssueResolved(b, id, amount, issuerAnswers, actor).book;
    forall f: nat | f < |after.funds| ensures FundCovers(after, f) {
      assert FundCovers(b, f);
    }
  }

  lemma RedeemBacked(b: Book, id: nat, amount: Money, issuerAnswers: bool, actor: string)
    requires Backed(b) && id < |b.liabilities|
    ensures Backed(RedeemResolved(b, id, amount, issuerAnswers, actor).book)
  {
    hide Balance, Transfer;
    var after := RedeemResolved(b, id, amount, issuerAnswers, actor).book;
    forall f: nat | f < |after.funds| ensures FundCovers(after, f) {
      assert FundCovers(b, f);
    }
  }

  lemma QuietBacked(b: Book, call: Command)
    requires Backed(b) && (call.Bind? || call.Reconcile?)
    ensures Backed(Step(b, call).book)
  {
    hide Balance;
    var after := Step(b, call).book;
    forall f: nat | f < |after.funds| ensures FundCovers(after, f) {
      assert FundCovers(b, f);
    }
  }

  /** One step keeps every fund covering its loyalty exactly when a reserve or release leaves the earmark. */
  lemma StepKeepsBackedExactlyWhen(b: Book, call: Command)
    requires Inv(b) && Backed(b)
    ensures Backed(Step(b, call).book) <==> KeepsEarmark(b, call)
  {
    hide Backed, IssueResolved, RedeemResolved, Inv, LeavesCover;
    match call
    case ReserveFund(_, _) => ReserveBacked(b, call);
    case ReleaseFund(_, _) => ReserveBacked(b, call);
    case CreateFund(_, _, _, _) => CreateFundBacked(b, call);
    case FundProgram(_, _, _) => CreateFundBacked(b, call);
    case Bind(_, _, _, _, _) => QuietBacked(b, call);
    case Reconcile(_, _) => QuietBacked(b, call);
    case IssueLoyalty(id, _, minor, units, issuerAnswers, actor) =>
      if id < |b.liabilities| && b.liabilities[id].fundId < |b.funds| {
        var amount := ResolveAmount(b.liabilities[id], minor, units);
        if amount.Ok? { IssueBacked(b, id, amount.value, issuerAnswers, actor); }
      }
    case RedeemLoyalty(id, _, _, minor, units, issuerAnswers, actor) =>
      if id < |b.liabilities| {
        var amount := ResolveAmount(b.liabilities[id], minor, units);
        if amount.Ok? { RedeemBacked(b, id, amount.value, issuerAnswers, actor); }
      }
    case _ =>
      OtherCallsKeepCounters(b, call);
      SameCover(b, Step(b, call).book);
  }

  lemma SameCover(b: Book, after: Book)
    requires Backed(b) && after.funds == b.funds && after.liabilities == b.liabilities
    ensures Backed(after)
  {
    forall f: nat | f < |after.funds| ensures FundCovers(after, f) {
      assert FundCovers(b, f);
    }
  }

  // ----- Runs

  ghost predicate EarmarksKept(calls: seq<Command>) {
    forall k :: 0 <= k < |calls| ==> KeepsEarmark(Run(EMPTY, calls[..k]), calls[k])
  }

  lemma {:induction false} RunBacked(calls: seq<Command>)
    requires EarmarksKept(calls)
    ensures Inv(Run(EMPTY, calls)) && Backed(Run(EMPTY, calls))
  {
    hide Inv, Backed, KeepsEarmark, Step;
    if calls == [] {
      EmptyInv();
      EmptyBacked();
    } else {
      var n := |calls| - 1;
      var front := calls[..n];
      assert forall k :: 0 <= k < n ==> front[k] == calls[k] && front[..k] == calls[..k];
      assert EarmarksKept(front);
      RunBacked(front);
      assert KeepsEarmark(Run(EMPTY, calls[..n]), calls[n]);
      StepKeeps(Run(EMPTY, front), calls[n]);
      StepKeepsBackedExactlyWhen(Run(EMPTY, front), calls[n]);
    }
  }

  lemma EmptyBacked()
    ensures Backed(EMPTY)
  {
  }

  /**
   * Loyalty is always backed: after any run in which every reserve and release leaves the earmark, each liability
   * has redeemed no more than it issued and issued no more than its fund reserves and holds; and the program-fund
   * account of every tenant is short by no more than the issues whose answer was lost, so never without these.
   */
  lemma LoyaltyAlwaysBacked(calls: seq<Command>, t: string, c: Currency)
    requires EarmarksKept(calls)
    ensures var b := Run(EMPTY, calls);
            forall i :: 0 <= i < |b.liabilities| ==>
              var l := b.liabilities[i];
              && l.fundId < |b.funds|
              && 0 <= l.outstanding == l.issuedTotal - l.redeemedTotal
              && l.outstanding <= l.issuedTotal <= b.funds[l.fundId].reserved <= b.funds[l.fundId].funded
    ensures var b := Run(EMPTY, calls);
            && Balance(b.journal, t, ProgramFund, c) + Counted(b, t, c, LOST_ISSUES) >= 0
            && (Counted(b, t, c, LOST_ISSUES) == 0 ==> Balance(b.journal, t, ProgramFund, c) >= 0)
  {
    var b := Run(EMPTY, calls);
    RunBacked(calls);
    forall i | 0 <= i < |b.liabilities|
      ensures var l := b.liabilities[i];
              && l.fundId < |b.funds|
              && 0 <= l.outstanding == l.issuedTotal - l.redeemedTotal
              && l.outstanding <= l.issuedTotal <= b.funds[l.fundId].reserved <= b.funds[l.fundId].funded
    {
      assert LiabilityLife(b.liabilities[i], b.funds);
      assert FundCovers(b, b.liabilities[i].fundId);
    }
    TenantLedgerMeansRecords(b, t, c);
    IssuedWithinFunded(b.liabilities, b.funds, t, c);
  }

  /** Liabilities on different funds, each within its fund, are together within the funds. */
  lemma {:induction false} IssuedWithinFunded(rows: seq<Liability>, funds: seq<Fund>, t: string, c: Currency)
    requires forall i :: 0 <= i < |funds| ==> funds[i].funded >= 0
    requires forall i, j :: 0 <= i < j < |rows| ==> rows[i].fundId != rows[j].fundId
    requires forall i :: 0 <= i < |rows| ==>
               var l := rows[i];
               && l.fundId < |funds|
               && l.tenantId == funds[l.fundId].tenantId && l.currency == funds[l.fundId].currency
               && FiatBacked(funds[l.fundId].classification)
               && l.issuedTotal <= funds[l.fundId].funded
    ensures RowSum(rows, CounterWeight(t, c, ISSUED)) <= RowSum(funds, FundedWeight(t, c))
  {
    if rows == [] {
      RowSumNonNegative(funds, FundedWeight(t, c));
    } else {
      var n := |rows| - 1;
      var f := rows[n].fundId;
      var rest := funds[f := funds[f].(funded := 0)];
      RowSumUpdate(funds, f, rest[f], FundedWeight(t, c));
      assert forall i :: 0 <= i < n ==> rows[..n][i] == rows[i];
      IssuedWithinFunded(rows[..n], rest, t, c);
    }
  }

  // ----- When an accepted issue stays backed

  /** After an issue of the amount, the fund would hold less than is outstanding. */
  predicate IssueBreaksBacking(b: Book, id: nat, amount: int)
    requires id < |b.liabilities| && b.liabilities[id].fundId < |b.funds|
  {
    var stepped := IssueResolved(b, id, Money(amount, b.liabilities[id].currency), true, "");
    var l := stepped.book.liabilities[id];
    stepped.fault.None? && l.outstanding > b.funds[l.fundId].funded
  }

  /** Every issue the guard accepts is fully backed exactly when it accepts none or all outstanding is reserved. */
  lemma IssueIsBackedExactlyWhen(b: Book, id: nat)
    requires Inv(b) && id < |b.liabilities|
    ensures b.liabilities[id].fundId < |b.funds|
    ensures var l := b.liabilities[id];
            var f := b.funds[l.fundId];
            (forall amount :: !IssueBreaksBacking(b, id, amount))
            <==> f.funded - f.reserved <= 0 || l.outstanding <= f.reserved
  {
    assert LiabilityLife(b.liabilities[id], b.funds);
    var l := b.liabilities[id];
    var f := b.funds[l.fundId];
    forall amount
      ensures IssueBreaksBacking(b, id, amount)
         <==> 0 < amount <= f.funded - f.reserved && l.outstanding + amount > f.funded
    {
      TransferSpec(ProgramFund, LoyaltyStablecoin, Money(amount, l.currency),
                   References(Source(LoyaltyIssue, id), l.tenantId, ""));
    }
    if f.funded - f.reserved > 0 && l.outstanding > f.reserved {
      assert IssueBreaksBacking(b, id, f.funded - f.reserved);
    }
  }

  // ----- A run that breaks it: the release does not look at what is issued

  const TENANT: string := "tenant"
  const KHR: Currency := "KHR"
  const ISSUE: Command := IssueLoyalty(0, true, Some(100), None, true, "bank")

  const RELEASED_RUN: seq<Command> := [
    CreateFund(TENANT, "points", BACKED_LOYALTY_STABLECOIN, KHR),
    FundProgram(0, 100, "bank"),
    Bind(0, None, None, None, None),
    ISSUE,
    ReleaseFund(0, 100),
    ISSUE]

  function FundOf(funded: int, reserved: int): Fund {
    Fund(TENANT, "points", BACKED_LOYALTY_STABLECOIN, KHR, funded, reserved)
  }

  function PointsOf(issued: int): Liability {
    Liability.Liability(0, TENANT, KHR, 1, None, None, None, issued, issued, 0, 0, PENDING, 0, 0)
  }

  /** The state of the run but for its journal. */
  predicate Stands(b: Book, funds: seq<Fund>, liabilities: seq<Liability>) {
    b.orders == [] && b.funds == funds && b.liabilities == liabilities && b.settlements == []
  }

  lemma IssueStands(b: Book, issued: int)
    requires Stands(b, [FundOf(100, 0)], [PointsOf(issued)])
    ensures Stands(Step(b, ISSUE).book, [FundOf(100, 100)], [PointsOf(issued + 100)])
    ensures Step(b, ISSUE).fault.None?
  {
    hide Balance;
    TransferSpec(ProgramFund, LoyaltyStablecoin, Money(100, KHR), References(Source(LoyaltyIssue, 0), TENANT, "bank"));
  }

  lemma FundedStands()
    ensures Stands(Run(EMPTY, RELEASED_RUN[..3]), [FundOf(100, 0)], [PointsOf(0)])
  {
    hide Balance;
    var r := RELEASED_RUN;
    TransferSpec(TrusteeBankCash, ProgramFund, Money(100, KHR), References(Source(PaykhFund, 0), TENANT, "bank"));
    RunLast(r[..0], r[0]);
    RunLast(r[..1], r[1]);
    RunLast(r[..2], r[2]);
    assert r[..0] == [] && r[..0] + [r[0]] == r[..1] && r[..1] + [r[1]] == r[..2] && r[..2] + [r[2]] == r[..3];
    assert Stands(Run(EMPTY, r[..1]), [FundOf(0, 0)], []);
    assert Stands(Run(EMPTY, r[..2]), [FundOf(100, 0)], []);
  }

  lemma ReleaseStands(b: Book)
    requires Stands(b, [FundOf(100, 100)], [PointsOf(100)])
    ensures Stands(Step(b, ReleaseFund(0, 100)).book, [FundOf(100, 0)], [PointsOf(100)])
  {
  }

  /** Fund 100, issue 100, release 100, issue 100: twice as much is outstanding as the fund holds. */
  lemma ReleaseBelowIssuedBreaksBacking()
    ensures var end := Run(EMPTY, RELEASED_RUN);
            && Stands(end, [FundOf(100, 100)], [PointsOf(200)])
            && end.funds[0].funded < end.liabilities[0].outstanding
            && Balance(end.journal, TENANT, ProgramFund, KHR) == -100
            && Balance(end.journal, TENANT, LoyaltyStablecoin, KHR) == 200
  {
    hide Balance, Step;
    var r := RELEASED_RUN;
    FundedStands();
    RunLast(r[..3], r[3]);
    RunLast(r[..4], r[4]);
    RunLast(r[..5], r[5]);
    assert r[..3] + [r[3]] == r[..4] && r[..4] + [r[4]] == r[..5] && r[..5] + [r[5]] == r;
    IssueStands(Run(EMPTY, r[..3]), 0);
    ReleaseStands(Run(EMPTY, r[..4]));
    IssueStands(Run(EMPTY, r[..5]), 100);
    var end := Run(EMPTY, r);
    EmptyInv();
    RunKeeps(EMPTY, r);
    EndTotals(end);
  }

  lemma OnlyRow(rows: seq<Liability>, counter: Liability -> int)
    requires |rows| == 1 && rows[0].tenantId == TENANT && rows[0].currency == KHR
    ensures RowSum(rows, CounterWeight(TENANT, KHR, counter)) == counter(rows[0])
  {
    assert RowSum(rows[..0], CounterWeight(TENANT, KHR, counter)) == 0;
  }

  lemma OnlyFund(rows: seq<Fund>)
    requires rows == [FundOf(100, 100)]
    ensures RowSum(rows, FundedWeight(TENANT, KHR)) == 100
  {
    assert RowSum(rows[..0], FundedWeight(TENANT, KHR)) == 0;
  }

  lemma EndTotals(b: Book)
    requires Inv(b) && Stands(b, [FundOf(100, 100)], [PointsOf(200)])
    ensures Balance(b.journal, TENANT, ProgramFund, KHR) == -100
    ensures Balance(b.journal, TENANT, LoyaltyStablecoin, KHR) == 200
  {
    hide Balance, RowSum, Inv;
    TenantLedgerMeansRecords(b, TENANT, KHR);
    OnlyFund(b.funds);
    OnlyRow(b.liabilities, ISSUED);
    OnlyRow(b.liabilities, OUTSTANDING);
    OnlyRow(b.liabilities, LOST_ISSUES);
    OnlyRow(b.liabilities, LOST_REDEMPTIONS);
  }
}
