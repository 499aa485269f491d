/** Attribute-based approval policies: filter, stable sort by priority, find; and what that decides. */
module Abac {
  import opened Results

  datatype Transaction = Transaction(
    transactionType: string,
    amount: Option<int>,
    currency: Option<string>,
    riskLevel: Option<string>,
    programId: Option<string>,
    assetId: Option<string>,
    jurisdiction: Option<string>)

  datatype Rule = Rule(
    id: string,
    transactionType: string,
    minAmount: Option<int>,
    maxAmount: Option<int>,
    currency: Option<string>,
    riskLevel: Option<string>,
    programId: Option<string>,
    assetId: Option<string>,
    jurisdiction: Option<string>,
    requiredApprovals: int,
    requiredRoles: seq<string>,
    effect: string,
    priority: int,
    enabled: bool)

  datatype Decision = Decision(
    denied: bool,
    requiredApprovals: int,
    requiredRoles: seq<string>,
    matchedPolicyId: Option<string>)

  const DENY: string := "DENY"
  const REQUIRE: string := "REQUIRE"

  // ----- Matching

  /** An attribute a policy leaves out, or leaves empty, matches anything. */
  predicate AttributeMatches(wanted: Option<string>, given: Option<string>) {
    wanted.None? || wanted.value == "" || wanted == given
  }

  predicate Matches(p: Rule, tx: Transaction) {
    && p.enabled
    && p.transactionType == tx.transactionType
    && AttributeMatches(p.currency, tx.currency)
    && AttributeMatches(p.riskLevel, tx.riskLevel)
    && AttributeMatches(p.programId, tx.programId)
    && AttributeMatches(p.assetId, tx.assetId)
    && AttributeMatches(p.jurisdiction, tx.jurisdiction)
    && (p.minAmount.Some? ==> tx.amount.Some? && tx.amount.value >= p.minAmount.value)
    && (p.maxAmount.Some? ==> tx.amount.Some? && tx.amount.value <= p.maxAmount.value)
  }

  /** A policy without conditions applies to every transaction of its type while it is enabled. */
  lemma UnconditionalMatches(p: Rule, tx: Transaction)
    requires p.currency.None? && p.riskLevel.None? && p.programId.None? && p.assetId.None? && p.jurisdiction.None?
    requires p.minAmount.None? && p.maxAmount.None?
    ensures Matches(p, tx) <==> p.enabled && p.transactionType == tx.transactionType
  {
  }

  /** A condition on an attribute narrows a policy to the transactions that have it; an empty one to none fewer. */
  lemma AttributeNarrows(p: Rule, tx: Transaction, v: string)
    ensures Matches(p.(currency := Some(v)), tx)
       <==> Matches(p.(currency := None), tx) && (v == "" || tx.currency == Some(v))
    ensures Matches(p.(riskLevel := Some(v)), tx)
       <==> Matches(p.(riskLevel := None), tx) && (v == "" || tx.riskLevel == Some(v))
    ensures Matches(p.(programId := Some(v)), tx)
       <==> Matches(p.(programId := None), tx) && (v == "" || tx.programId == Some(v))
    ensures Matches(p.(assetId := Some(v)), tx)
       <==> Matches(p.(assetId := None), tx) && (v == "" || tx.assetId == Some(v))
    ensures Matches(p.(jurisdiction := Some(v)), tx)
       <==> Matches(p.(jurisdiction := None), tx) && (v == "" || tx.jurisdiction == Some(v))
  {
  }

  /** A bound on the amount narrows a policy to the transactions with an amount on its side, the bound included. */
  lemma BoundNarrows(p: Rule, tx: Transaction, m: int)
    ensures Matches(p.(minAmount := Some(m)), tx)
       <==> Matches(p.(minAmount := None), tx) && tx.amount.Some? && m <= tx.amount.value
    ensures Matches(p.(maxAmount := Some(m)), tx)
       <==> Matches(p.(maxAmount := None), tx) && tx.amount.Some? && tx.amount.value <= m
  {
  }

  // ----- Evaluation as the engine does it

  function Filtered(rules: seq<Rule>, keep: Rule -> bool): seq<Rule> {
    if rules == [] then []
    else Filtered(rules[..|rules| - 1], keep) + (if keep(rules[|rules| - 1]) then [rules[|rules| - 1]] else [])
  }

  /** Insert behind all rules of the same or a higher priority. */
  function Insert(sorted: seq<Rule>, p: Rule): seq<Rule> {
    if sorted == [] || sorted[|sorted| - 1].priority >= p.priority then sorted + [p]
    else Insert(sorted[..|sorted| - 1], p) + [sorted[|sorted| - 1]]
  }

  /** The stable sort by falling priority. */
  function StableSort(rules: seq<Rule>): seq<Rule> {
    if rules == [] then [] else Insert(StableSort(rules[..|rules| - 1]), rules[|rules| - 1])
  }

  function Find(rules: seq<Rule>, effect: string): Option<Rule> {
    if rules == [] then None
    else if rules[0].effect == effect then Some(rules[0]) else Find(rules[1..], effect)
  }

  function Decided(deny: Option<Rule>, require: Option<Rule>): Decision {
    if deny.Some? then Decision(true, 0, [], Some(deny.value.id))
    else if require.Some? then
      Decision(false, require.value.requiredApprovals, require.value.requiredRoles, Some(require.value.id))
    else Decision(false, 2, [], None)
  }

  function Applies(tx: Transaction): Rule -> bool {
    (p: Rule) => Matches(p, tx)
  }

  function Evaluate(rules: seq<Rule>, tx: Transaction): Decision {
    var matched := StableSort(Filtered(rules, Applies(tx)));
    Decided(Find(matched, DENY), Find(matched, REQUIRE))
  }

  // ----- One pass

  function Better(earlier: Option<Rule>, p: Rule, effect: string): Option<Rule> {
    if p.effect == effect && (earlier.None? || earlier.value.priority < p.priority) then Some(p) else earlier
  }

  /** The first rule of an effect with the highest priority, kept up to date from left to right. */
  function Best(rules: seq<Rule>, effect: string): Option<Rule> {
    if rules == [] then None
    else
      var p, earlier := rules[|rules| - 1], Best(rules[..|rules| - 1], effect);
      Better(earlier, p, effect)
  }

  function OnePass(rules: seq<Rule>, tx: Transaction): Decision {
    var matching := Filtered(rules, Applies(tx));
    Decided(Best(matching, DENY), Best(matching, REQUIRE))
  }

  ghost predicate Descending(rules: seq<Rule>) {
    forall i, j :: 0 <= i < j < |rules| ==> rules[i].priority >= rules[j].priority
  }

  lemma {:induction false} InsertMembers(sorted: seq<Rule>, p: Rule)
    ensures multiset(Insert(sorted, p)) == multiset(sorted) + multiset{p}
  {
    if sorted != [] && sorted[|sorted| - 1].priority < p.priority {
      var n := |sorted| - 1;
      InsertMembers(sorted[..n], p);
      assert sorted == sorted[..n] + [sorted[n]];
    }
  }

  /** Every rule of a sorted list has at least a priority. */
  ghost predicate AllAtLeast(rules: seq<Rule>, priority: int) {
    forall i :: 0 <= i < |rules| ==> rules[i].priority >= priority
  }

  lemma {:induction false} InsertAtLeast(sorted: seq<Rule>, p: Rule, priority: int)
    requires AllAtLeast(sorted, priority) && p.priority >= priority
    ensures AllAtLeast(Insert(sorted, p), priority)
  {
    if sorted != [] && sorted[|sorted| - 1].priority < p.priority {
      InsertAtLeast(sorted[..|sorted| - 1], p, priority);
    }
  }

  lemma {:induction false} InsertDescends(sorted: seq<Rule>, p: Rule)
    requires Descending(sorted)
    ensures Descending(Insert(sorted, p))
  {
    if sorted != [] && sorted[|sorted| - 1].priority < p.priority {
      var n := |sorted| - 1;
      InsertDescends(sorted[..n], p);
      InsertAtLeast(sorted[..n], p, sorted[n].priority);
    }
  }

  function OfPriority(priority: int): Rule -> bool {
    (p: Rule) => p.priority == priority
  }

  lemma {:induction false} InsertBehindEquals(sorted: seq<Rule>, p: Rule, priority: int)
    ensures Filtered(Insert(sorted, p), OfPriority(priority))
         == Filtered(sorted, OfPriority(priority)) + (if p.priority == priority then [p] else [])
  {
    if sorted == [] || sorted[|sorted| - 1].priority >= p.priority {
      assert (sorted + [p])[..|sorted|] == sorted;
    } else {
      var front, last := sorted[..|sorted| - 1], sorted[|sorted| - 1];
      InsertBehindEquals(front, p, priority);
      assert (Insert(front, p) + [last])[..|Insert(front, p)|] == Insert(front, p);
    }
  }

  lemma {:induction false} SortDescends(rules: seq<Rule>)
    ensures Descending(StableSort(rules))
  {
    hide Descending, Insert;
    if rules != [] {
      SortDescends(rules[..|rules| - 1]);
      InsertDescends(StableSort(rules[..|rules| - 1]), rules[|rules| - 1]);
    } else {
      NothingDescends();
    }
  }

  lemma NothingDescends()
    ensures Descending([])
  {
  }

  lemma {:induction false} SortMembers(rules: seq<Rule>)
    ensures multiset(StableSort(rules)) == multiset(rules)
  {
    hide Insert;
    if rules != [] {
      var n := |rules| - 1;
      SortMembers(rules[..n]);
      InsertMembers(StableSort(rules[..n]), rules[n]);
      assert rules == rules[..n] + [rules[n]];
    }
  }

  /** The sort loses no rule, puts priorities in falling order, and keeps the order of those that are equal. */
  lemma {:induction false} SortIsStable(rules: seq<Rule>, priority: int)
    ensures Descending(StableSort(rules))
    ensures multiset(StableSort(rules)) == multiset(rules)
    ensures Filtered(StableSort(rules), OfPriority(priority)) == Filtered(rules, OfPriority(priority))
  {
    SortDescends(rules);
    SortMembers(rules);
    hide Insert, Descending;
    if rules != [] {
      SortIsStable(rules[..|rules| - 1], priority);
      InsertBehindEquals(StableSort(rules[..|rules| - 1]), rules[|rules| - 1], priority);
    }
  }

  lemma {:induction false} FindAppend(rules: seq<Rule>, p: Rule, effect: string)
    ensures Find(rules + [p], effect)
         == if Find(rules, effect).Some? then Find(rules, effect) else if p.effect == effect then Some(p) else None
  {
    if rules != [] {
      assert (rules + [p])[1..] == rules[1..] + [p];
      FindAppend(rules[1..], p, effect);
    } else {
      assert ([p])[1..] == [];
    }
  }

  lemma {:induction false} FindIn(rules: seq<Rule>, effect: string)
    ensures Find(rules, effect).Some? ==>
              Find(rules, effect).value in rules && Find(rules, effect).value.effect == effect
    ensures Find(rules, effect).None? ==> forall i :: 0 <= i < |rules| ==> rules[i].effect != effect
  {
    if rules != [] {
      FindIn(rules[1..], effect);
      assert rules == [rules[0]] + rules[1..];
    }
  }

  /** Inserting a rule changes what is found first only if it has the effect and a higher priority. */
  lemma {:induction false} FindInserted(sorted: seq<Rule>, p: Rule, effect: string)
    requires Descending(sorted)
    ensures Find(Insert(sorted, p), effect) == Better(Find(sorted, effect), p, effect)
  {
    FindIn(sorted, effect);
    if sorted == [] || sorted[|sorted| - 1].priority >= p.priority {
      FindAppend(sorted, p, effect);
      if Find(sorted, effect).Some? {
        var k :| 0 <= k < |sorted| && sorted[k] == Find(sorted, effect).value;
        assert sorted[k].priority >= sorted[|sorted| - 1].priority;
      }
    } else {
      var n := |sorted| - 1;
      var front, last := sorted[..n], sorted[n];
      assert sorted == front + [last];
      FindInserted(front, p, effect);
      FindAppend(front, last, effect);
      FindAppend(Insert(front, p), last, effect);
    }
  }

  lemma {:induction false} FindSortedIsBest(rules: seq<Rule>, effect: string)
    ensures Find(StableSort(rules), effect) == Best(rules, effect)
  {
    if rules != [] {
      var n := |rules| - 1;
      FindSortedIsBest(rules[..n], effect);
      SortDescends(rules[..n]);
      FindInserted(StableSort(rules[..n]), rules[n], effect);
    }
  }

  /** Filter, stable sort and find decide as one pass does. */
  lemma EvaluateIsOnePass(rules: seq<Rule>, tx: Transaction)
    ensures Evaluate(rules, tx) == OnePass(rules, tx)
  {
    var matching := Filtered(rules, Applies(tx));
    FindSortedIsBest(matching, DENY);
    FindSortedIsBest(matching, REQUIRE);
  }

  // ----- What the decision says of the rules

  predicate Candidate(p: Rule, tx: Transaction, effect: string) {
    Matches(p, tx) && p.effect == effect
  }

  /** Rule `k` matches with the effect, is beaten by none, and none of its priority stands before it. */
  ghost predicate Wins(rules: seq<Rule>, tx: Transaction, effect: string, k: nat) {
    && k < |rules| && Candidate(rules[k], tx, effect)
    && forall i :: 0 <= i < |rules| && Candidate(rules[i], tx, effect) ==>
                     rules[i].priority <= rules[k].priority && (i < k ==> rules[i].priority < rules[k].priority)
  }

  ghost predicate HasMatch(rules: seq<Rule>, tx: Transaction, effect: string) {
    exists i :: 0 <= i < |rules| && Candidate(rules[i], tx, effect)
  }

  lemma WinnerStays(front: seq<Rule>, p: Rule, tx: Transaction, effect: string, k: nat)
    requires Wins(front, tx, effect, k)
    requires Candidate(p, tx, effect) ==> p.priority <= front[k].priority
    ensures Wins(front + [p], tx, effect, k)
  {
    hide Candidate;
  }

  lemma WinnerReplaced(front: seq<Rule>, p: Rule, tx: Transaction, effect: string, k: nat)
    requires Candidate(p, tx, effect)
    requires HasMatch(front, tx, effect) ==> Wins(front, tx, effect, k) && front[k].priority < p.priority
    ensures Wins(front + [p], tx, effect, |front|)
  {
    hide Candidate;
  }

  lemma MatchAppend(front: seq<Rule>, p: Rule, tx: Transaction, effect: string)
    ensures HasMatch(front + [p], tx, effect) <==> HasMatch(front, tx, effect) || Candidate(p, tx, effect)
  {
    hide Candidate;
    var all := front + [p];
    assert all[|front|] == p;
    assert forall i :: 0 <= i < |front| ==> all[i] == front[i];
  }

  /** The rule a one-pass search ends with is the winner, and there is one exactly when some rule matches. */
  lemma {:induction false} BestWins(rules: seq<Rule>, tx: Transaction, effect: string) returns (k: nat)
    ensures Best(Filtered(rules, Applies(tx)), effect).Some? <==> HasMatch(rules, tx, effect)
    ensures HasMatch(rules, tx, effect) ==>
              Wins(rules, tx, effect, k) && Best(Filtered(rules, Applies(tx)), effect) == Some(rules[k])
  {
    k := 0;
    if rules != [] {
      var n := |rules| - 1;
      var front, p := rules[..n], rules[n];
      k := BestWins(front, tx, effect);
      BestStep(front, p, tx, effect);
      MatchAppend(front, p, tx, effect);
      assert front + [p] == rules;
      hide Wins, HasMatch, Best, Filtered, Matches;
      if Candidate(p, tx, effect) && (!HasMatch(front, tx, effect) || front[k].priority < p.priority) {
        WinnerReplaced(front, p, tx, effect, k);
        k := n;
      } else if HasMatch(front, tx, effect) {
        WinnerStays(front, p, tx, effect, k);
      }
    }
  }

  lemma BestStep(front: seq<Rule>, p: Rule, tx: Transaction, effect: string)
    ensures Best(Filtered(front + [p], Applies(tx)), effect)
         == (var earlier := Best(Filtered(front, Applies(tx)), effect);
             if Matches(p, tx) then Better(earlier, p, effect) else earlier)
  {
    var before := Filtered(front, Applies(tx));
    assert (front + [p])[..|front|] == front;
    assert (before + [p])[..|before|] == before;
    assert before + [] == before;
  }

  /** Denied exactly when some matching policy denies; else the winning requirement; else two approvals. */
  lemma DecisionMeaning(rules: seq<Rule>, tx: Transaction)
    ensures var d := Evaluate(rules, tx);
            && (d.denied <==> HasMatch(rules, tx, DENY))
            && (d.denied ==> exists k: nat :: Wins(rules, tx, DENY, k) && d == Decision(true, 0, [], Some(rules[k].id)))
            && (!d.denied && HasMatch(rules, tx, REQUIRE) ==>
                  exists k: nat :: Wins(rules, tx, REQUIRE, k)
                    && d == Decision(false, rules[k].requiredApprovals, rules[k].requiredRoles, Some(rules[k].id)))
            && (!d.denied && !HasMatch(rules, tx, REQUIRE) ==> d == Decision(false, 2, [], None))
  {
    EvaluateIsOnePass(rules, tx);
    var i := BestWins(rules, tx, DENY);
    var j := BestWins(rules, tx, REQUIRE);
  }

  // ----- Order of the policies

  /** No two matching rules of one effect share a priority. */
  ghost predicate DistinctPriorities(rules: seq<Rule>, tx: Transaction) {
    forall i, j ::
      0 <= i < j < |rules| && Matches(rules[i], tx) && Matches(rules[j], tx) && rules[i].effect == rules[j].effect
      ==> rules[i].priority != rules[j].priority
  }

  lemma SameMembers(a: seq<Rule>, b: seq<Rule>)
    requires multiset(a) == multiset(b)
    ensures forall p :: p in a <==> p in b
  {
    forall p ensures p in a <==> p in b {
      assert p in multiset(a) <==> p in multiset(b);
    }
  }

  lemma BestIgnoresOrder(a: seq<Rule>, b: seq<Rule>, tx: Transaction, effect: string)
    requires multiset(a) == multiset(b) && DistinctPriorities(a, tx)
    ensures Best(Filtered(a, Applies(tx)), effect) == Best(Filtered(b, Applies(tx)), effect)
  {
    SameMembers(a, b);
    var i := BestWins(a, tx, effect);
    var j := BestWins(b, tx, effect);
    if HasMatch(a, tx, effect) {
      var m :| 0 <= m < |a| && Candidate(a[m], tx, effect);
      assert a[m] in b;
    }
    if HasMatch(b, tx, effect) {
      var m :| 0 <= m < |b| && Candidate(b[m], tx, effect);
      assert b[m] in a;
      assert a[i] in b && b[j] in a;
      var k :| 0 <= k < |a| && a[k] == b[j];
      var l :| 0 <= l < |b| && b[l] == a[i];
      assert a[k].priority == a[i].priority;
    }
  }

  /** With distinct priorities the decision does not depend on the order of the policies. */
  lemma OrderIrrelevant(a: seq<Rule>, b: seq<Rule>, tx: Transaction)
    requires multiset(a) == multiset(b) && DistinctPriorities(a, tx)
    ensures Evaluate(a, tx) == Evaluate(b, tx)
  {
    EvaluateIsOnePass(a, tx);
    EvaluateIsOnePass(b, tx);
    BestIgnoresOrder(a, b, tx, DENY);
    BestIgnoresOrder(a, b, tx, REQUIRE);
  }

  // ----- The administrator's query

  function Selected(transactionType: string): Rule -> bool {
    (p: Rule) => p.transactionType == transactionType && p.enabled
  }

  /** The rows the query of the admin service returns. */
  function Rows(rules: seq<Rule>, tx: Transaction): seq<Rule> {
    Filtered(rules, Selected(tx.transactionType))
  }

  lemma {:induction false} FilteredTwice(rules: seq<Rule>, tx: Transaction)
    ensures Filtered(Rows(rules, tx), Applies(tx)) == Filtered(rules, Applies(tx))
  {
    if rules != [] {
      var n := |rules| - 1;
      FilteredTwice(rules[..n], tx);
      var rows := Rows(rules[..n], tx);
      if Selected(tx.transactionType)(rules[n]) {
        assert Rows(rules, tx) == rows + [rules[n]];
        assert (rows + [rules[n]])[..|rows|] == rows;
      } else {
        assert Rows(rules, tx) == rows;
        assert !Applies(tx)(rules[n]);
      }
    }
  }

  /** Selecting by type and enabled before evaluating changes no decision. */
  lemma QueryIrrelevant(rules: seq<Rule>, tx: Transaction)
    ensures Evaluate(Rows(rules, tx), tx) == Evaluate(rules, tx)
  {
    FilteredTwice(rules, tx);
  }
}
