/** The append-only ledger: balances recomputed from postings, and the trial balance. */
module Ledger {
  import opened Results
  import opened Moneys
  import opened Journal
  import opened Entries

  type JournalLog = seq<Entry>

  predicate InScope(e: Entry, programId: string, c: Currency) {
    e.references.programId == programId && e.currency == c
  }

  /** The balance of an account as the sum of the effects of the entries in scope. */
  function Balance(log: JournalLog, programId: string, a: Account, c: Currency): int {
    if log == [] then 0
    else
      var e := log[|log| - 1];
      Balance(log[..|log| - 1], programId, a, c) + (if InScope(e, programId, c) then Effect(e.postings, a) else 0)
  }

  lemma BalanceAppend(log: JournalLog, e: Entry, programId: string, a: Account, c: Currency)
    ensures Balance(log + [e], programId, a, c)
         == Balance(log, programId, a, c) + (if InScope(e, programId, c) then Effect(e.postings, a) else 0)
  {
    assert (log + [e])[..|log|] == log;
  }

  /** Appending one accepted template shifts every balance in its scope by the transfer. */
  lemma BalanceAppendTransfer(
    log: JournalLog, e: Entry, debit: Account, credit: Account, m: Money, references: References,
    programId: string, a: Account, c: Currency)
    requires TypeOf(debit).Some? && TypeOf(credit).Some?
    requires Transfer(debit, credit, m, references) == Ok(e)
    ensures Balance(log + [e], programId, a, c)
         == Balance(log, programId, a, c) +
            (if references.programId == programId && m.currency == c
             then TransferEffect(debit, credit, m.minor, a) else 0)
  {
    TransferSpec(debit, credit, m, references);
    BalanceAppend(log, e, programId, a, c);
  }

  // ----- accountBalance: the query returns posting rows, the loop nets them

  function RowsOf(ps: seq<Posting>, a: Account): seq<Posting> {
    if ps == [] then []
    else RowsOf(ps[..|ps| - 1], a) + (if ps[|ps| - 1].account == a then [ps[|ps| - 1]] else [])
  }

  /** The posting rows of one account over the entries of a program in a currency. */
  function Rows(log: JournalLog, programId: string, a: Account, c: Currency): seq<Posting> {
    if log == [] then []
    else
      var e := log[|log| - 1];
      Rows(log[..|log| - 1], programId, a, c) + (if InScope(e, programId, c) then RowsOf(e.postings, a) else [])
  }

  lemma {:induction false} RowsOfEffect(ps: seq<Posting>, a: Account)
    ensures Effect(RowsOf(ps, a), a) == Effect(ps, a)
  {
    if ps != [] {
      var n := |ps| - 1;
      RowsOfEffect(ps[..n], a);
      EffectConcat(RowsOf(ps[..n], a), if ps[n].account == a then [ps[n]] else [], a);
    }
  }

  lemma {:induction false} RowsEffect(log: JournalLog, programId: string, a: Account, c: Currency)
    ensures Effect(Rows(log, programId, a, c), a) == Balance(log, programId, a, c)
  {
    if log != [] {
      var n := |log| - 1;
      var last := if InScope(log[n], programId, c) then RowsOf(log[n].postings, a) else [];
      RowsEffect(log[..n], programId, a, c);
      RowsOfEffect(log[n].postings, a);
      EffectConcat(Rows(log[..n], programId, a, c), last, a);
    }
  }

  lemma {:induction false} RowsOfAccount(ps: seq<Posting>, a: Account)
    ensures forall i :: 0 <= i < |RowsOf(ps, a)| ==> RowsOf(ps, a)[i].account == a
  {
    if ps != [] { RowsOfAccount(ps[..|ps| - 1], a); }
  }

  lemma {:induction false} RowsAccount(log: JournalLog, programId: string, a: Account, c: Currency)
    ensures forall i :: 0 <= i < |Rows(log, programId, a, c)| ==> Rows(log, programId, a, c)[i].account == a
  {
    if log != [] {
      RowsAccount(log[..|log| - 1], programId, a, c);
      RowsOfAccount(log[|log| - 1].postings, a);
    }
  }

  /** The loop over posting rows computes the sum of the entries' account effects. */
  method AccountBalance(log: JournalLog, programId: string, a: Account, c: Currency) returns (r: Result<Money>)
    ensures r == if TypeOf(a).None? then Err(UnknownAccount) else Ok(Money(Balance(log, programId, a, c), c))
  {
    var rows := Rows(log, programId, a, c);
    if TypeOf(a).None? {
      return Err(UnknownAccount);
    }
    var debitPositive := DebitNormal(a);
    var net := 0;
    RowsAccount(log, programId, a, c);
    for i := 0 to |rows|
      invariant net == Effect(rows[..i], a)
    {
      assert rows[..i + 1][..i] == rows[..i];
      net := net + if debitPositive then rows[i].debit.minor - rows[i].credit.minor
                   else rows[i].credit.minor - rows[i].debit.minor;
    }
    assert rows[..|rows|] == rows;
    RowsEffect(log, programId, a, c);
    r := Ok(Money(net, c));
  }

  // ----- Whole-subledger checks

  /** All posting rows of a program, in every currency. */
  function ProgramPostings(log: JournalLog, programId: string): seq<Posting> {
    if log == [] then []
    else
      var e := log[|log| - 1];
      ProgramPostings(log[..|log| - 1], programId) + (if e.references.programId == programId then e.postings else [])
  }

  ghost predicate AllPosted(log: JournalLog) {
    forall i :: 0 <= i < |log| ==> Posted(log[i])
  }

  lemma {:induction false} TotalsConcat(p: seq<Posting>, q: seq<Posting>)
    ensures Debits(p + q) == Debits(p) + Debits(q)
    ensures Credits(p + q) == Credits(p) + Credits(q)
  {
    if q == [] {
      assert p + q == p;
    } else {
      assert (p + q)[..|p + q| - 1] == p + q[..|q| - 1];
      TotalsConcat(p, q[..|q| - 1]);
    }
  }

  /** The books of every program balance: each posted entry does. */
  lemma {:induction false} ProgramBalanced(log: JournalLog, programId: string)
    requires AllPosted(log)
    ensures Debits(ProgramPostings(log, programId)) == Credits(ProgramPostings(log, programId))
  {
    if log != [] {
      var n := |log| - 1;
      ProgramBalanced(log[..n], programId);
      TotalsConcat(ProgramPostings(log[..n], programId),
                   if log[n].references.programId == programId then log[n].postings else []);
    }
  }

  method SubledgerBalances(log: JournalLog, programId: string) returns (balanced: bool, net: int)
    requires AllPosted(log)
    ensures balanced && net == 0
  {
    var rows := ProgramPostings(log, programId);
    net := 0;
    for i := 0 to |rows|
      invariant net == Debits(rows[..i]) - Credits(rows[..i])
    {
      assert rows[..i + 1][..i] == rows[..i];
      net := net + rows[i].debit.minor - rows[i].credit.minor;
    }
    assert rows[..|rows|] == rows;
    ProgramBalanced(log, programId);
    balanced := net == 0;
  }

  // ----- Trial balance

  datatype TrialRow = TrialRow(account: Account, debit: int, credit: int, balance: int)

  /** A grouping by account: each account that has a posting stands in it once. */
  ghost predicate Groups(accounts: seq<Account>, ps: seq<Posting>) {
    && (forall i, j :: 0 <= i < j < |accounts| ==> accounts[i] != accounts[j])
    && (forall k :: 0 <= k < |ps| ==> ps[k].account in accounts)
  }

  function DebitsOn(ps: seq<Posting>, a: Account): int {
    Debits(RowsOf(ps, a))
  }

  function CreditsOn(ps: seq<Posting>, a: Account): int {
    Credits(RowsOf(ps, a))
  }

  function TotalOn(accounts: seq<Account>, of: Account -> int): int {
    if accounts == [] then 0 else TotalOn(accounts[..|accounts| - 1], of) + of(accounts[|accounts| - 1])
  }

  function DebitGroup(ps: seq<Posting>): Account -> int { a => DebitsOn(ps, a) }
  function CreditGroup(ps: seq<Posting>): Account -> int { a => CreditsOn(ps, a) }

  lemma {:induction false} TotalOnNothing(accounts: seq<Account>)
    ensures TotalOn(accounts, DebitGroup([])) == 0 && TotalOn(accounts, CreditGroup([])) == 0
  {
    if accounts != [] { TotalOnNothing(accounts[..|accounts| - 1]); }
  }

  lemma GroupStep(rest: seq<Posting>, p: Posting, a: Account)
    ensures DebitsOn(rest + [p], a) == DebitsOn(rest, a) + (if p.account == a then p.debit.minor else 0)
    ensures CreditsOn(rest + [p], a) == CreditsOn(rest, a) + (if p.account == a then p.credit.minor else 0)
  {
    assert (rest + [p])[..|rest|] == rest;
    TotalsConcat(RowsOf(rest, a), [p]);
    assert [p][..0] == [];
    assert RowsOf(rest, a) + [] == RowsOf(rest, a);
  }

  /** One more posting changes the total of a grouping by its amount if its account is there, else not. */
  lemma {:induction false} TotalOnStep(accounts: seq<Account>, rest: seq<Posting>, p: Posting)
    requires forall i, j :: 0 <= i < j < |accounts| ==> accounts[i] != accounts[j]
    ensures TotalOn(accounts, DebitGroup(rest + [p]))
         == TotalOn(accounts, DebitGroup(rest)) + (if p.account in accounts then p.debit.minor else 0)
    ensures TotalOn(accounts, CreditGroup(rest + [p]))
         == TotalOn(accounts, CreditGroup(rest)) + (if p.account in accounts then p.credit.minor else 0)
  {
    if accounts != [] {
      var n := |accounts| - 1;
      TotalOnStep(accounts[..n], rest, p);
      GroupStep(rest, p, accounts[n]);
      assert p.account in accounts <==> p.account in accounts[..n] || p.account == accounts[n];
      assert p.account == accounts[n] ==> p.account !in accounts[..n];
    }
  }

  /** Grouping loses nothing: summed over the groups, debits and credits are those of the postings. */
  lemma {:induction false} GroupingTotals(accounts: seq<Account>, ps: seq<Posting>)
    requires Groups(accounts, ps)
    ensures TotalOn(accounts, DebitGroup(ps)) == Debits(ps)
    ensures TotalOn(accounts, CreditGroup(ps)) == Credits(ps)
  {
    if ps == [] {
      TotalOnNothing(accounts);
    } else {
      assert forall k :: 0 <= k < |ps| - 1 ==> ps[..|ps| - 1][k] == ps[k];
      GroupingTotals(accounts, ps[..|ps| - 1]);
      TotalOnStep(accounts, ps[..|ps| - 1], ps[|ps| - 1]);
      assert ps[..|ps| - 1] + [ps[|ps| - 1]] == ps;
    }
  }

  /** Sum of the balances of the debit-normal (or of the other) rows. */
  function SideTotal(rows: seq<TrialRow>, debitSide: bool): int {
    if rows == [] then 0
    else SideTotal(rows[..|rows| - 1], debitSide) +
         (if DebitNormal(rows[|rows| - 1].account) == debitSide then rows[|rows| - 1].balance else 0)
  }

  /**
   * The trial balance of a program over any grouping the database returns: the totals are
   * those of the postings, they balance, and debit-normal balances total the credit-normal ones.
   */
  method TrialBalance(log: JournalLog, programId: string, accounts: seq<Account>)
    returns (rows: seq<TrialRow>, totalDebit: int, totalCredit: int, balanced: bool)
    requires AllPosted(log)
    requires Groups(accounts, ProgramPostings(log, programId))
    ensures |rows| == |accounts|
    ensures forall i :: 0 <= i < |rows| ==>
              && rows[i].account == accounts[i]
              && rows[i].balance == Effect(ProgramPostings(log, programId), accounts[i])
    ensures totalDebit == Debits(ProgramPostings(log, programId)) == totalCredit
    ensures balanced
    ensures SideTotal(rows, true) == SideTotal(rows, false)
  {
    ghost var ps := ProgramPostings(log, programId);
    rows, totalDebit, totalCredit := [], 0, 0;
    for k := 0 to |accounts|
      invariant |rows| == k
      invariant forall i :: 0 <= i < k ==> rows[i].account == accounts[i] && rows[i].balance == Effect(ps, accounts[i])
      invariant totalDebit == TotalOn(accounts[..k], DebitGroup(ps))
      invariant totalCredit == TotalOn(accounts[..k], CreditGroup(ps))
      invariant SideTotal(rows, true) - SideTotal(rows, false) == totalDebit - totalCredit
    {
      var postings := ProgramPostings(log, programId);
      var a := accounts[k];
      var debit, credit := DebitsOn(postings, a), CreditsOn(postings, a);
      totalDebit, totalCredit := totalDebit + debit, totalCredit + credit;
      var balance := if DebitNormal(a) then debit - credit else credit - debit;
      GroupBalance(postings, a);
      var row := TrialRow(a, debit, credit, balance);
      assert accounts[..k + 1][..k] == accounts[..k];
      assert (rows + [row])[..|rows|] == rows;
      rows := rows + [row];
    }
    assert accounts[..|accounts|] == accounts;
    GroupingTotals(accounts, ps);
    ProgramBalanced(log, programId);
    balanced := totalDebit == totalCredit;
  }

  lemma {:induction false} GroupBalance(ps: seq<Posting>, a: Account)
    ensures DebitNormal(a) ==> Effect(ps, a) == DebitsOn(ps, a) - CreditsOn(ps, a)
    ensures !DebitNormal(a) ==> Effect(ps, a) == CreditsOn(ps, a) - DebitsOn(ps, a)
  {
    if ps != [] {
      var n := |ps| - 1;
      GroupBalance(ps[..n], a);
      TotalsConcat(RowsOf(ps[..n], a), if ps[n].account == a then [ps[n]] else []);
      assert [ps[n]][..0] == [];
    }
  }
}
