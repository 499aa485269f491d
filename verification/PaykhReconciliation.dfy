/** The payment-order reconciliation: which anomalies it reports, on any data and on reachable data. */
module PaykhReconciliation {
  import opened Results
  import opened Ledger
  import opened Traces
  import opened PaykhBook
  import opened PaykhInvariants

  /** An order as the query returns it. */
  datatype OrderRow = OrderRow(id: nat, order: Order)

  datatype Anomaly =
    | ConfirmedWithoutBankTxn(orderId: nat)
    | DuplicateBankTxn(bankTransactionId: string, orderIds: seq<nat>)

  /** The transactions rows carry; the empty string counts as none. */
  predicate Carries(r: OrderRow, txn: string) {
    txn != "" && r.order.matchedTxn == Some(txn)
  }

  predicate Unpaid(r: OrderRow) {
    r.order.status == CONFIRMED && !Given(r.order.matchedTxn)
  }

  /** The orders a transaction is used by. */
  function UsesOf(rows: seq<OrderRow>, txn: string): seq<nat> {
    if rows == [] then []
    else UsesOf(rows[..|rows| - 1], txn) + (if Carries(rows[|rows| - 1], txn) then [rows[|rows| - 1].id] else [])
  }

  /** The confirmed orders without a transaction. */
  function UnpaidOf(rows: seq<OrderRow>): seq<Anomaly> {
    if rows == [] then []
    else UnpaidOf(rows[..|rows| - 1])
         + (if Unpaid(rows[|rows| - 1]) then [ConfirmedWithoutBankTxn(rows[|rows| - 1].id)] else [])
  }

  /** Exactly the transactions used more than once, each once, with all the orders that use it. */
  ghost predicate ReportsDuplicates(rows: seq<OrderRow>, found: seq<Anomaly>) {
    && (forall k :: 0 <= k < |found| ==>
          && found[k].DuplicateBankTxn?
          && found[k].orderIds == UsesOf(rows, found[k].bankTransactionId)
          && |found[k].orderIds| > 1)
    && (forall j, k :: 0 <= j < k < |found| && found[j].DuplicateBankTxn? && found[k].DuplicateBankTxn? ==>
          found[j].bankTransactionId != found[k].bankTransactionId)
    && (forall txn :: |UsesOf(rows, txn)| > 1 ==> DuplicateBankTxn(txn, UsesOf(rows, txn)) in found)
  }

  /** `byTxn` maps the transactions used to the orders that use them; `keys` lists them once each. */
  ghost predicate Grouped(rows: seq<OrderRow>, byTxn: map<string, seq<nat>>, keys: seq<string>) {
    && (forall txn :: UsesOf(rows, txn) == (if txn in byTxn then byTxn[txn] else []))
    && (forall txn :: txn in byTxn <==> txn in keys)
    && NoRepeats(keys)
  }

  ghost predicate NoRepeats(keys: seq<string>) {
    forall j, k :: 0 <= j < k < |keys| ==> keys[j] != keys[k]
  }

  lemma UsesStep(rows: seq<OrderRow>, r: OrderRow, txn: string)
    ensures UsesOf(rows + [r], txn) == UsesOf(rows, txn) + (if Carries(r, txn) then [r.id] else [])
  {
    assert (rows + [r])[..|rows|] == rows;
  }

  lemma GroupRow(rows: seq<OrderRow>, r: OrderRow, byTxn: map<string, seq<nat>>, keys: seq<string>)
    requires Grouped(rows, byTxn, keys)
    ensures Given(r.order.matchedTxn) ==>
              var txn := r.order.matchedTxn.value;
              var list := if txn in byTxn then byTxn[txn] else [];
              Grouped(rows + [r], byTxn[txn := list + [r.id]], if txn in byTxn then keys else keys + [txn])
    ensures !Given(r.order.matchedTxn) ==> Grouped(rows + [r], byTxn, keys)
  {
    hide UsesOf;
    var all := rows + [r];
    if Given(r.order.matchedTxn) {
      var key := r.order.matchedTxn.value;
      var list := if key in byTxn then byTxn[key] else [];
      var grown := byTxn[key := list + [r.id]];
      forall txn ensures UsesOf(all, txn) == (if txn in grown then grown[txn] else []) {
        UsesStep(rows, r, txn);
      }
    } else {
      forall txn ensures UsesOf(all, txn) == (if txn in byTxn then byTxn[txn] else []) {
        UsesStep(rows, r, txn);
      }
    }
  }

  /** Two passes over the orders and one over the groups. */
  method ReconcilePaymentOrders(rows: seq<OrderRow>) returns (exceptions: seq<Anomaly>)
    ensures |exceptions| >= |UnpaidOf(rows)|
    ensures exceptions[..|UnpaidOf(rows)|] == UnpaidOf(rows)
    ensures ReportsDuplicates(rows, exceptions[|UnpaidOf(rows)|..])
  {
    exceptions := [];
    for i := 0 to |rows|
      invariant exceptions == UnpaidOf(rows[..i])
    {
      assert rows[..i + 1][..i] == rows[..i];
      if rows[i].order.status == CONFIRMED && !Given(rows[i].order.matchedTxn) {
        exceptions := exceptions + [ConfirmedWithoutBankTxn(rows[i].id)];
      }
    }
    assert rows[..|rows|] == rows;
    var byTxn, keys := Group(rows);
    var duplicates := FlagGroups(rows, byTxn, keys);
    exceptions := exceptions + duplicates;
  }

  /** The groups of more than one order. */
  method FlagGroups(ghost rows: seq<OrderRow>, byTxn: map<string, seq<nat>>, keys: seq<string>)
    returns (found: seq<Anomaly>)
    requires Grouped(rows, byTxn, keys)
    ensures ReportsDuplicates(rows, found)
  {
    hide UsesOf;
    found := [];
    for k := 0 to |keys|
      invariant forall j :: 0 <= j < |found| ==>
                  && found[j].DuplicateBankTxn?
                  && found[j].bankTransactionId in keys[..k]
                  && found[j].orderIds == UsesOf(rows, found[j].bankTransactionId)
                  && |found[j].orderIds| > 1
      invariant forall i, j :: 0 <= i < j < |found| ==> found[i].bankTransactionId != found[j].bankTransactionId
      invariant forall txn :: txn in keys[..k] && |UsesOf(rows, txn)| > 1 ==>
                  DuplicateBankTxn(txn, UsesOf(rows, txn)) in found
    {
      assert keys[..k + 1] == keys[..k] + [keys[k]];
      assert keys[k] !in keys[..k];
      assert keys[k] in byTxn;
      var ids := byTxn[keys[k]];
      if |ids| > 1 {
        found := found + [DuplicateBankTxn(keys[k], ids)];
      }
    }
    assert keys[..|keys|] == keys;
  }

  method Group(rows: seq<OrderRow>) returns (byTxn: map<string, seq<nat>>, keys: seq<string>)
    ensures Grouped(rows, byTxn, keys)
  {
    byTxn, keys := map[], [];
    for i := 0 to |rows|
      invariant Grouped(rows[..i], byTxn, keys)
    {
      assert rows[..i + 1] == rows[..i] + [rows[i]];
      GroupRow(rows[..i], rows[i], byTxn, keys);
      var matched := rows[i].order.matchedTxn;
      if Given(matched) {
        var txn := matched.value;
        var list := if txn in byTxn then byTxn[txn] else [];
        if txn !in byTxn {
          keys := keys + [txn];
        }
        byTxn := byTxn[txn := list + [rows[i].id]];
      }
    }
    assert rows[..|rows|] == rows;
  }

  // ----- On reachable data

  /** The orders of a tenant. */
  function TenantRows(orders: seq<Order>, tenantId: string): seq<OrderRow> {
    if orders == [] then []
    else
      var n := |orders| - 1;
      TenantRows(orders[..n], tenantId) + (if orders[n].tenantId == tenantId then [OrderRow(n, orders[n])] else [])
  }

  ghost predicate Ascending(rows: seq<OrderRow>, bound: int) {
    && (forall k :: 0 <= k < |rows| ==> rows[k].id < bound)
    && (forall j, k :: 0 <= j < k < |rows| ==> rows[j].id < rows[k].id)
  }

  lemma {:induction false} TenantRowsAscend(orders: seq<Order>, tenantId: string)
    ensures Ascending(TenantRows(orders, tenantId), |orders|)
  {
    if orders != [] {
      TenantRowsAscend(orders[..|orders| - 1], tenantId);
    }
  }

  lemma {:induction false} TenantRowsAre(orders: seq<Order>, tenantId: string)
    ensures forall r :: r in TenantRows(orders, tenantId) <==>
                        r.id < |orders| && orders[r.id] == r.order && r.order.tenantId == tenantId
  {
    if orders != [] {
      var n := |orders| - 1;
      TenantRowsAre(orders[..n], tenantId);
      assert forall i :: 0 <= i < n ==> orders[..n][i] == orders[i];
    }
  }

  ghost predicate DistinctTransactions(rows: seq<OrderRow>) {
    forall j, k :: 0 <= j < k < |rows| && rows[j].order.matchedTxn.Some? ==>
                     rows[j].order.matchedTxn != rows[k].order.matchedTxn
  }

  lemma {:induction false} DistinctUsedOnce(rows: seq<OrderRow>, txn: string)
    requires DistinctTransactions(rows)
    ensures |UsesOf(rows, txn)| <= 1
    ensures UsesOf(rows, txn) != [] ==> exists k :: 0 <= k < |rows| && rows[k].order.matchedTxn == Some(txn)
  {
    if rows != [] {
      var n := |rows| - 1;
      assert forall i :: 0 <= i < n ==> rows[..n][i] == rows[i];
      DistinctUsedOnce(rows[..n], txn);
    }
  }

  lemma {:induction false} NothingUnpaid(rows: seq<OrderRow>)
    ensures UnpaidOf(rows) == [] <==> forall k :: 0 <= k < |rows| ==> !Unpaid(rows[k])
  {
    if rows != [] {
      var n := |rows| - 1;
      assert forall i :: 0 <= i < n ==> rows[..n][i] == rows[i];
      NothingUnpaid(rows[..n]);
    }
  }

  /**
   * In a reachable state no transaction is ever reported as used twice, and nothing at all is reported exactly when
   * no confirmed order of the tenant was paid by a transaction with the empty name.
   */
  lemma ReachableOrdersReconcile(b: Book, tenantId: string, found: seq<Anomaly>)
    requires Reachable(b)
    requires var rows := TenantRows(b.orders, tenantId);
             && |found| >= |UnpaidOf(rows)|
             && found[..|UnpaidOf(rows)|] == UnpaidOf(rows)
             && ReportsDuplicates(rows, found[|UnpaidOf(rows)|..])
    ensures found == UnpaidOf(TenantRows(b.orders, tenantId))
    ensures found == [] <==>
            forall i :: 0 <= i < |b.orders| && b.orders[i].tenantId == tenantId && b.orders[i].status == CONFIRMED ==>
                          b.orders[i].matchedTxn != Some("")
  {
    ReachableInv(b);
    var rows := TenantRows(b.orders, tenantId);
    TenantRowsAre(b.orders, tenantId);
    TenantRowsAscend(b.orders, tenantId);
    ReachableRowsDistinct(b, rows);
    var duplicates := found[|UnpaidOf(rows)|..];
    if duplicates != [] {
      DistinctUsedOnce(rows, duplicates[0].bankTransactionId);
    }
    NothingUnpaid(rows);
    UnpaidIsEmptyName(b, tenantId, rows);
  }

  lemma ReachableRowsDistinct(b: Book, rows: seq<OrderRow>)
    requires Inv(b)
    requires forall r :: r in rows ==> r.id < |b.orders| && b.orders[r.id] == r.order
    requires Ascending(rows, |b.orders|)
    ensures DistinctTransactions(rows)
  {
    hide LedgerRefines, OrdersLive, SettlementsLive, CountersLive, AllPosted;
    forall j, k | 0 <= j < k < |rows| && rows[j].order.matchedTxn.Some?
      ensures rows[j].order.matchedTxn != rows[k].order.matchedTxn
    {
      assert rows[j] in rows && rows[k] in rows;
    }
  }

  lemma UnpaidIsEmptyName(b: Book, tenantId: string, rows: seq<OrderRow>)
    requires Inv(b)
    requires forall r :: r in rows <==>
                         r.id < |b.orders| && b.orders[r.id] == r.order && r.order.tenantId == tenantId
    ensures (forall k :: 0 <= k < |rows| ==> !Unpaid(rows[k])) <==>
            forall i :: 0 <= i < |b.orders| && b.orders[i].tenantId == tenantId && b.orders[i].status == CONFIRMED ==>
                          b.orders[i].matchedTxn != Some("")
  {
    hide LedgerRefines, SettlementsLive, CountersLive, AllPosted, TransactionsUnique;
    forall i: nat | i < |b.orders| && b.orders[i].status == CONFIRMED
      ensures b.orders[i].matchedTxn.Some?
    {
      assert OrderLife(b.orders[i], i, Trace(b.journal, OrderFamily, i));
    }
    if forall k :: 0 <= k < |rows| ==> !Unpaid(rows[k]) {
      forall i: nat | i < |b.orders| && b.orders[i].tenantId == tenantId && b.orders[i].status == CONFIRMED
        ensures b.orders[i].matchedTxn != Some("")
      {
        assert OrderRow(i, b.orders[i]) in rows;
      }
    } else {
      var k :| 0 <= k < |rows| && Unpaid(rows[k]);
      assert rows[k] in rows;
    }
  }
}
