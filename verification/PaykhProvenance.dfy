/** What must have happened before a PayKH order counts as paid, and what never changes on a PayKH row. */
module PaykhProvenance {
  import opened Results
  import opened Entries
  import opened Ledger
  import opened Traces
  import opened PaykhBook
  import opened PaykhInvariants

  predicate OrderKept(before: Order, after: Order) {
    after == before.(status := after.status, matchedTxn := after.matchedTxn)
  }

  lemma OrdersKept(b: Book, call: Command)
    ensures var rows, after := b.orders, Step(b, call).book.orders;
            && |rows| <= |after| <= |rows| + 1
            && (forall i :: 0 <= i < |rows| ==> OrderKept(rows[i], after[i]))
            && (|after| > |rows| ==>
                  && after[|rows|].matchedTxn.None?
                  && forall i :: 0 <= i < |rows| ==> rows[i].paymentReference != after[|rows|].paymentReference)
  {
    hide Balance, Transfer, RefundEntry;
    if SubjectFamily(call) != OrderFamily { OtherCallsKeepOrders(b, call); }
  }

  /** Call `k` created the order: an active profile of its currency, and its term from that moment. */
  ghost predicate CreatedAt(calls: seq<Command>, k: nat, o: Order) {
    && k < |calls| && calls[k].CreateOrder?
    && calls[k].profile.Some? && calls[k].profile.value.active && calls[k].profile.value.currency == o.currency
    && o.tenantId == calls[k].tenantId && o.amount == calls[k].amount && o.currency == calls[k].currency
    && o.paymentReference == calls[k].reference
    && o.expiresAt == calls[k].nowMs + calls[k].ttlSeconds.GetOr(900) * 1000
  }

  lemma NewOrder(b: Book, call: Command)
    requires |Step(b, call).book.orders| > |b.orders|
    ensures CreatedAt([call], 0, Step(b, call).book.orders[|b.orders|])
  {
    hide Balance, Transfer, RefundEntry;
  }

  /** After every run each order stands as some call created it. */
  lemma {:induction false} OrderComesFromCreate(calls: seq<Command>, i: nat) returns (k: nat)
    requires i < |Run(EMPTY, calls).orders|
    ensures CreatedAt(calls, k, Run(EMPTY, calls).orders[i])
  {
    hide Step;
    var n := |calls| - 1;
    var before := Run(EMPTY, calls[..n]);
    OrdersKept(before, calls[n]);
    if i < |before.orders| {
      k := OrderComesFromCreate(calls[..n], i);
      assert OrderKept(before.orders[i], Run(EMPTY, calls).orders[i]);
    } else {
      NewOrder(before, calls[n]);
      k := n;
    }
  }

  /** Call `k` confirmed order `i` by transaction `txn`: everything agreed, and it was in time. */
  ghost predicate PaidAt(calls: seq<Command>, k: nat, i: nat, o: Order, txn: string) {
    && k < |calls| && calls[k].CheckPayment? && calls[k].id == i
    && calls[k].bankTransactionId == txn
    && calls[k].amount == o.amount && calls[k].currency == o.currency && calls[k].reference == o.paymentReference
    && (calls[k].profile.Some? ==> calls[k].recipient == calls[k].profile.value.recipient)
    && calls[k].nowMs <= o.expiresAt
  }

  lemma MatchedOnlyByPayment(b: Book, call: Command, i: nat)
    requires OrdersLive(b)
    requires i < |b.orders|
    requires Step(b, call).book.orders[i].matchedTxn != b.orders[i].matchedTxn
    ensures call.CheckPayment? && call.id == i
    ensures Step(b, call).book.orders[i].matchedTxn == Some(call.bankTransactionId)
    ensures PaymentMatches(b.orders[i], call) && call.nowMs <= b.orders[i].expiresAt
  {
    hide Balance, Transfer, RefundEntry;
    if SubjectFamily(call) != OrderFamily { OtherCallsKeepOrders(b, call); }
  }

  lemma PaidAtKept(calls: seq<Command>, k: nat, i: nat, before: Order, after: Order, txn: string)
    requires |calls| > 0 && PaidAt(calls[..|calls| - 1], k, i, before, txn) && OrderKept(before, after)
    ensures PaidAt(calls, k, i, after, txn)
  {
  }

  lemma ReachedOrdersLive(calls: seq<Command>)
    ensures OrdersLive(Run(EMPTY, calls))
  {
    EmptyInv();
    RunKeeps(EMPTY, calls);
  }

  /**
   * After every run, an order carries a bank transaction only if an earlier check of that transaction agreed with
   * it in amount, currency, reference and recipient before it expired.
   */
  lemma {:induction false} PaidMeansChecked(calls: seq<Command>, i: nat) returns (k: nat)
    requires i < |Run(EMPTY, calls).orders| && Run(EMPTY, calls).orders[i].matchedTxn.Some?
    ensures PaidAt(calls, k, i, Run(EMPTY, calls).orders[i], Run(EMPTY, calls).orders[i].matchedTxn.value)
  {
    var n := |calls| - 1;
    var before, after := Run(EMPTY, calls[..n]), Step(Run(EMPTY, calls[..n]), calls[n]).book;
    assert Run(EMPTY, calls) == after;
    ReachedOrdersLive(calls[..n]);
    OrderRowKept(before, calls[n], i);
    hide Step, Run, PaidAt, OrdersLive, OrderKept;
    if after.orders[i].matchedTxn == before.orders[i].matchedTxn {
      k := PaidMeansChecked(calls[..n], i);
      PaidAtKept(calls, k, i, before.orders[i], after.orders[i], after.orders[i].matchedTxn.value);
    } else {
      Matched(before, calls, i);
      k := n;
    }
  }

  /** A new order carries no transaction. */
  lemma OrderRowKept(b: Book, call: Command, i: nat)
    requires i < |Step(b, call).book.orders| && Step(b, call).book.orders[i].matchedTxn.Some?
    ensures i < |b.orders| && OrderKept(b.orders[i], Step(b, call).book.orders[i])
  {
    OrdersKept(b, call);
    hide Step, OrderKept;
  }

  lemma Matched(before: Book, calls: seq<Command>, i: nat)
    requires calls != [] && OrdersLive(before) && i < |before.orders|
    requires var call := calls[|calls| - 1];
             && Step(before, call).book.orders[i].matchedTxn.Some?
             && Step(before, call).book.orders[i].matchedTxn != before.orders[i].matchedTxn
    ensures var after := Step(before, calls[|calls| - 1]).book;
            PaidAt(calls, |calls| - 1, i, after.orders[i], after.orders[i].matchedTxn.value)
  {
    MatchedOnlyByPayment(before, calls[|calls| - 1], i);
    OrdersKept(before, calls[|calls| - 1]);
  }

  ghost predicate ReferencesUnique(b: Book) {
    && (forall i, j :: 0 <= i < j < |b.orders| ==> b.orders[i].paymentReference != b.orders[j].paymentReference)
    && (forall i, j :: 0 <= i < j < |b.funds| ==>
          b.funds[i].tenantId != b.funds[j].tenantId || b.funds[i].programRef != b.funds[j].programRef)
  }

  lemma FundsKept(b: Book, call: Command)
    ensures var rows, after := b.funds, Step(b, call).book.funds;
            && |rows| <= |after| <= |rows| + 1
            && (forall i :: 0 <= i < |rows| ==>
                  after[i] == rows[i].(funded := after[i].funded, reserved := after[i].reserved))
            && (|after| > |rows| ==>
                  forall i :: 0 <= i < |rows| ==>
                    rows[i].tenantId != after[|rows|].tenantId || rows[i].programRef != after[|rows|].programRef)
  {
    hide Balance, Transfer, RefundEntry;
  }

  /** No reference is used by two orders, and no program of a tenant has two funds. */
  lemma {:induction false} RunKeepsReferences(calls: seq<Command>)
    ensures ReferencesUnique(Run(EMPTY, calls))
  {
    if calls != [] {
      var before := Run(EMPTY, calls[..|calls| - 1]);
      RunKeepsReferences(calls[..|calls| - 1]);
      OrdersKept(before, calls[|calls| - 1]);
      FundsKept(before, calls[|calls| - 1]);
      hide Step, ReferencesUnique;
      ReferencesStay(before, Step(before, calls[|calls| - 1]).book);
    }
  }

  lemma ReferencesStay(b: Book, after: Book)
    requires ReferencesUnique(b)
    requires |b.orders| <= |after.orders| <= |b.orders| + 1 && |b.funds| <= |after.funds| <= |b.funds| + 1
    requires forall i :: 0 <= i < |b.orders| ==> OrderKept(b.orders[i], after.orders[i])
    requires forall i :: 0 <= i < |b.funds| ==>
               after.funds[i] == b.funds[i].(funded := after.funds[i].funded, reserved := after.funds[i].reserved)
    requires |after.orders| > |b.orders| ==>
               forall i :: 0 <= i < |b.orders| ==>
                             b.orders[i].paymentReference != after.orders[|b.orders|].paymentReference
    requires |after.funds| > |b.funds| ==>
               forall i :: 0 <= i < |b.funds| ==>
                             b.funds[i].tenantId != after.funds[|b.funds|].tenantId
                             || b.funds[i].programRef != after.funds[|b.funds|].programRef
    ensures ReferencesUnique(after)
  {
    forall i, j | 0 <= i < j < |after.orders|
      ensures after.orders[i].paymentReference != after.orders[j].paymentReference
    {
      assert OrderKept(b.orders[i], after.orders[i]);
      if j < |b.orders| { assert OrderKept(b.orders[j], after.orders[j]); }
    }
  }
}
