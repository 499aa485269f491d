/** The part of a ledger that concerns one record, in posting order. */
module Traces {
  import opened Journal
  import opened Ledger

  datatype Family =
    | DepositFamily | MintFamily | RedemptionFamily | OrderFamily | SettlementFamily | FundFamily | LoyaltyFamily

  function FamilyOf(kind: SourceKind): Family {
    match kind
    case DepositDetected | DepositClear => DepositFamily
    case MintAuth | MintRevoke | MintConfirm | MintExpire => MintFamily
    case RedemptionApproved | RedemptionPayout => RedemptionFamily
    case PaykhOrder | PaykhRefund => OrderFamily
    case PaykhSettlement => SettlementFamily
    case PaykhFund => FundFamily
    case LoyaltyIssue | LoyaltyRedeem => LoyaltyFamily
  }

  predicate Concerns(e: Entry, family: Family, id: nat) {
    FamilyOf(e.references.source.kind) == family && e.references.source.id == id
  }

  function Trace(log: JournalLog, family: Family, id: nat): JournalLog {
    if log == [] then []
    else
      var e := log[|log| - 1];
      Trace(log[..|log| - 1], family, id) + (if Concerns(e, family, id) then [e] else [])
  }

  /** At most one entry, posted on behalf of one record. */
  ghost predicate EntriesFor(es: JournalLog, family: Family, id: nat) {
    |es| <= 1 && forall i :: 0 <= i < |es| ==> Posted(es[i]) && Concerns(es[i], family, id)
  }

  /** Posting for one record extends its trace and no other. */
  lemma TraceExtend(log: JournalLog, es: JournalLog, family: Family, id: nat)
    requires EntriesFor(es, family, id)
    ensures Trace(log + es, family, id) == Trace(log, family, id) + es
    ensures forall f, i: nat :: f != family || i != id ==> Trace(log + es, f, i) == Trace(log, f, i)
  {
    if es == [] {
      assert log + es == log;
    } else {
      assert (log + es)[..|log|] == log;
      assert (log + es)[|log|] == es[0];
      assert es == [es[0]];
      forall f, i: nat | f != family || i != id
        ensures Trace(log + es, f, i) == Trace(log, f, i)
      {
        assert Trace(log, f, i) + [] == Trace(log, f, i);
      }
    }
  }
}
