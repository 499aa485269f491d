/** Currency-checked integer money. */
module Moneys {
  import opened Results

  /** A normalised (upper-case) currency code. */
  type Currency = string

  datatype Money = Money(minor: int, currency: Currency)

  function Zero(c: Currency): Money {
    Money(0, c)
  }

  function Add(a: Money, b: Money): Result<Money> {
    if a.currency != b.currency then Err(CurrencyMismatch)
    else Ok(Money(a.minor + b.minor, a.currency))
  }

  function Subtract(a: Money, b: Money): Result<Money> {
    if a.currency != b.currency then Err(CurrencyMismatch)
    else Ok(Money(a.minor - b.minor, a.currency))
  }

  /** The reduce over amounts: fold `Add` from the first value. */
  function Sum(values: seq<Money>): Result<Money> {
    if values == [] then Err(EmptySum) else SumFrom(values[0], values[1..])
  }

  function SumFrom(acc: Money, rest: seq<Money>): Result<Money>
    decreases |rest|
  {
    if rest == [] then Ok(acc)
    else
      var next :- Add(acc, rest[0]);
      SumFrom(next, rest[1..])
  }

  function Compare(a: Money, b: Money): Result<int> {
    if a.currency != b.currency then Err(CurrencyMismatch)
    else Ok(if a.minor < b.minor then -1 else if a.minor > b.minor then 1 else 0)
  }

  function Gte(a: Money, b: Money): Result<bool> {
    var order :- Compare(a, b);
    Ok(order >= 0)
  }

  function Max(a: Money, b: Money): Result<Money> {
    var first :- Gte(a, b);
    Ok(if first then a else b)
  }

  /** The plain total of the minor units, whatever the currencies. */
  function MinorTotal(values: seq<Money>): int {
    if values == [] then 0 else MinorTotal(values[..|values| - 1]) + values[|values| - 1].minor
  }

  ghost predicate OneCurrency(values: seq<Money>) {
    forall i, j :: 0 <= i < |values| && 0 <= j < |values| ==> values[i].currency == values[j].currency
  }

  lemma {:induction false} MinorTotalFront(first: Money, rest: seq<Money>)
    ensures MinorTotal([first] + rest) == first.minor + MinorTotal(rest)
  {
    var all := [first] + rest;
    if rest == [] {
      assert all[..0] == [];
    } else {
      assert all[..|all| - 1] == [first] + rest[..|rest| - 1];
      MinorTotalFront(first, rest[..|rest| - 1]);
    }
  }

  /** The fold fails on the first foreign currency and otherwise loses nothing. */
  lemma {:induction false} SumFromSpec(acc: Money, rest: seq<Money>)
    ensures SumFrom(acc, rest).Ok? <==> forall i :: 0 <= i < |rest| ==> rest[i].currency == acc.currency
    ensures SumFrom(acc, rest).Ok? ==>
              SumFrom(acc, rest).value == Money(acc.minor + MinorTotal(rest), acc.currency)
    decreases |rest|
  {
    if rest != [] {
      MinorTotalFront(rest[0], rest[1..]);
      assert [rest[0]] + rest[1..] == rest;
      if acc.currency == rest[0].currency {
        var next := Money(acc.minor + rest[0].minor, acc.currency);
        SumFromSpec(next, rest[1..]);
        assert forall i :: 1 <= i < |rest| ==> rest[i] == rest[1..][i - 1];
        if forall i :: 0 <= i < |rest[1..]| ==> rest[1..][i].currency == next.currency {
          forall i | 0 <= i < |rest| ensures rest[i].currency == acc.currency {
            if i > 0 { assert rest[1..][i - 1].currency == next.currency; }
          }
        }
      }
    }
  }

  /** `sum` succeeds exactly on a non-empty list in one currency, and is then the plain total. */
  lemma SumSpec(values: seq<Money>)
    ensures Sum(values).Ok? <==> values != [] && OneCurrency(values)
    ensures Sum(values).Ok? ==> Sum(values).value == Money(MinorTotal(values), values[0].currency)
  {
    if values != [] {
      SumFromSpec(values[0], values[1..]);
      MinorTotalFront(values[0], values[1..]);
      assert [values[0]] + values[1..] == values;
      if Sum(values).Ok? {
        forall i | 0 <= i < |values| ensures values[i].currency == values[0].currency {
          if i > 0 { assert values[i] == values[1..][i - 1]; }
        }
      }
    }
  }

  /** BigInt division truncates towards zero. */
  function TruncDiv(a: int, b: int): int
    requires b > 0
  {
    if a >= 0 then a / b else -((-a) / b)
  }
}
