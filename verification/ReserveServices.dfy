/** The services over the reserve tables: each call does to the store what its specification says. */
module ReserveServices {
  import opened Results
  import opened Moneys
  import opened Journal
  import opened Entries
  import opened Ledger
  import opened ReserveCalculation
  import opened ReserveBook
  import opened ReserveInvariants

  /** The tables of the reserve system. */
  class Store {
    const programs: map<string, Program>
    const config: Config
    var journal: JournalLog
    var deposits: seq<Deposit>
    var auths: seq<Auth>
    var redemptions: seq<Redemption>
    var adjustments: seq<Adjustment>
    var snapshots: seq<Snapshot>

    constructor (programs: map<string, Program>, config: Config)
      ensures Model() == EmptyBook(programs, config)
    {
      this.programs, this.config := programs, config;
      journal, deposits, auths, redemptions, adjustments, snapshots := [], [], [], [], [], [];
    }

    function Model(): Book
      reads this
    {
      Book(programs, config, journal, deposits, auths, redemptions, adjustments, snapshots)
    }
  }

  class ReserveLedgerService {
    const store: Store

    constructor (store: Store)
      ensures this.store == store
    {
      this.store := store;
    }

    /** Persist an entry: earlier entries stay as they are. */
    method Post(entry: Entry)
      modifies store
      ensures store.Model() == old(store.Model()).(journal := old(store.journal) + [entry])
    {
      store.journal := store.journal + [entry];
    }

    method AccountBalance(programId: string, account: Account, c: Currency) returns (r: Result<Money>)
      ensures r == if TypeOf(account).None? then Err(UnknownAccount)
                   else Ok(Money(Balance(store.journal, programId, account, c), c))
    {
      r := Ledger.AccountBalance(store.journal, programId, account, c);
    }
  }

  class DepositsService {
    const store: Store
    const ledger: ReserveLedgerService

    constructor (store: Store, ledger: ReserveLedgerService)
      requires ledger.store == store
      ensures this.store == store && this.ledger == ledger
    {
      this.store, this.ledger := store, ledger;
    }

    /** The row is written before the engine sees the amount, so it stays when the engine refuses. */
    method Register(programId: string, accountKnown: bool, bankTransactionId: string, amount: int,
                    currency: Currency, actor: string)
      returns (fault: Option<Fault>)
      requires ledger.store == store
      modifies store
      ensures Stepped(store.Model(), fault)
           == RegisterSpec(old(store.Model()),
                           Command.Register(programId, accountKnown, bankTransactionId, amount, currency, actor))
      ensures Inv(old(store.Model())) ==> Inv(store.Model())
    {
      hide Inv;
      StepKeepsInv(store.Model(), Command.Register(programId, accountKnown, bankTransactionId, amount,
                                    currency, actor));
      if !accountKnown { return Some(NotFound); }
      if programId !in store.programs { return Some(BadRequest); }
      if exists d :: d in store.deposits && d.bankTransactionId == bankTransactionId { return Some(Conflict); }
      var id := |store.deposits|;
      store.deposits := store.deposits + [Deposit(programId, bankTransactionId, amount, currency, DETECTED)];
      var entry := DetectedDepositEntry(Money(amount, currency),
                                        References(Source(DepositDetected, id), programId, actor));
      if entry.Err? { return Some(entry.fault); }
      ledger.Post(entry.value);
      fault := None;
    }

    method Match(id: nat, instruction: Option<FundingInstruction>) returns (fault: Option<Fault>)
      modifies store
      ensures Stepped(store.Model(), fault) == MatchSpec(old(store.Model()), MatchDeposit(id, instruction))
      ensures Inv(old(store.Model())) ==> Inv(store.Model())
    {
      hide Inv;
      StepKeepsInv(store.Model(), MatchDeposit(id, instruction));
      if id >= |store.deposits| { return Some(NotFound); }
      var d := store.deposits[id];
      if d.status != DETECTED && d.status != UNMATCHED { return Some(BadRequest); }
      if instruction.None? { return Some(NotFound); }
      if instruction.value.currency != d.currency { return Some(BadRequest); }
      if instruction.value.amount != d.amount { return Some(BadRequest); }
      store.deposits := store.deposits[id := d.(status := MATCHED)];
      fault := None;
    }

    method Clear(id: nat, accountKnown: bool, actor: string) returns (fault: Option<Fault>)
      requires ledger.store == store
      modifies store
      ensures Stepped(store.Model(), fault) == ClearSpec(old(store.Model()), Command.Clear(id, accountKnown, actor))
      ensures Inv(old(store.Model())) ==> Inv(store.Model())
    {
      hide Inv;
      StepKeepsInv(store.Model(), Command.Clear(id, accountKnown, actor));
      if id >= |store.deposits| { return Some(NotFound); }
      var d := store.deposits[id];
      if d.status != MATCHED { return Some(BadRequest); }
      if !accountKnown { return Some(NotFound); }
      var entry := ClearedReclassEntry(Money(d.amount, d.currency),
                                       References(Source(DepositClear, id), d.programId, actor));
      if entry.Err? { return Some(entry.fault); }
      ledger.Post(entry.value);
      store.deposits := store.deposits[id := d.(status := CLEARED)];
      fault := None;
    }
  }

  /** What the bank reconciliation reports; nothing is asserted while an account is not covered. */
  datatype BankReport = BankReport(
    ledgerCash: int,
    bankTotal: int,
    reconciled: Option<bool>,
    covered: nat,
    uncovered: nat)

  function KnownTotal(balances: seq<Option<int>>): int {
    if balances == [] then 0
    else KnownTotal(balances[..|balances| - 1]) + balances[|balances| - 1].GetOr(0)
  }

  /** An account that answers adds its balance wherever it stands; one that does not adds nothing. */
  lemma {:induction false} KnownTotalInsert(front: seq<Option<int>>, x: Option<int>, back: seq<Option<int>>)
    ensures KnownTotal([]) == 0
    ensures KnownTotal(front + [x] + back) == KnownTotal(front + back) + (if x.Some? then x.value else 0)
  {
    if back == [] {
      assert front + [x] + back == front + [x] && (front + [x])[..|front|] == front && front + back == front;
    } else {
      var n := |back| - 1;
      assert (front + [x] + back)[..|front| + 1 + n] == front + [x] + back[..n];
      assert (front + back)[..|front| + n] == front + back[..n];
      KnownTotalInsert(front, x, back[..n]);
    }
  }

  class ReserveService {
    const store: Store
    const ledger: ReserveLedgerService

    constructor (store: Store, ledger: ReserveLedgerService)
      requires ledger.store == store
      ensures this.store == store && this.ledger == ledger
    {
      this.store, this.ledger := store, ledger;
    }

    /** The live position, read from the ledger account by account. */
    method Position(programId: string) returns (r: Result<Position>)
      requires ledger.store == store
      ensures r == PositionOf(store.Model(), programId)
    {
      if programId !in store.programs { return Err(NotFound); }
      var program := store.programs[programId];
      var c := program.currency;
      var cash := ledger.AccountBalance(programId, TrusteeBankCash, c);
      var unmatched := ledger.AccountBalance(programId, UnmatchedDeposit, c);
      var pendingMint := ledger.AccountBalance(programId, PendingMint, c);
      var pendingRedemption := ledger.AccountBalance(programId, PendingRedemption, c);
      var eligible := EligibleReserve(EligibleInput(
        c,
        cash.value,
        Money(AdjustmentTotal(store.Model(), programId, c, RESTRICTED), c),
        unmatched.value,
        pendingRedemption.value,
        Money(AdjustmentTotal(store.Model(), programId, c, BANK_CHARGE), c),
        Money(AdjustmentTotal(store.Model(), programId, c, REGULATORY_HOLD), c),
        Money(AdjustmentTotal(store.Model(), programId, c, OPERATIONAL), c),
        Zero(c)));
      if eligible.Err? { return Err(eligible.fault); }
      var circulating := Money(Circulating(store.Model(), programId), c);
      var obligation := ReserveObligationOf(ObligationInput(c, circulating, pendingRedemption.value, Zero(c), Zero(c)));
      if obligation.Err? { return Err(obligation.fault); }
      r := Settle(program, eligible.value, obligation.value, pendingMint.value);
    }

    /** Buffer, capacity, surplus and ratio on top of the eligible reserve and the obligation. */
    method Settle(program: Program, eligible: Money, obligation: Money, pendingMint: Money)
      returns (r: Result<Position>)
      ensures r == PositionFrom(program, eligible, obligation, pendingMint)
    {
      var c := program.currency;
      var buffer := RequiredSafetyBuffer(obligation, program.safetyBufferBps);
      if buffer.Err? { return Err(buffer.fault); }
      var required := RequiredReserve(obligation, program.requiredRatioBps);
      var capacity := MintCapacity(CapacityInput(c, eligible, obligation, buffer.value, pendingMint));
      if capacity.Err? { return Err(capacity.fault); }
      var surplus := Subtract(eligible, required);
      if surplus.Err? { return Err(surplus.fault); }
      var ratio := ReserveRatioBps(eligible, obligation);
      if ratio.Err? { return Err(ratio.fault); }
      r := Ok(ReserveBook.Position(c, eligible, obligation, required, capacity.value, surplus.value, ratio.value));
    }

    method AddAdjustment(programId: string, kind: AdjustmentKind, amount: int) returns (fault: Option<Fault>)
      modifies store
      ensures Stepped(store.Model(), fault)
           == AddAdjustmentSpec(old(store.Model()), Command.AddAdjustment(programId, kind, amount))
      ensures Inv(old(store.Model())) ==> Inv(store.Model())
    {
      hide Inv;
      StepKeepsInv(store.Model(), Command.AddAdjustment(programId, kind, amount));
      if programId !in store.programs { return Some(NotFound); }
      if kind.UNKNOWN_KIND? { return Some(NotFound); }
      store.adjustments :=
        store.adjustments + [Adjustment(programId, store.programs[programId].currency, kind, amount, true)];
      fault := None;
    }

    method LiftAdjustment(id: nat) returns (fault: Option<Fault>)
      modifies store
      ensures Stepped(store.Model(), fault) == LiftAdjustmentSpec(old(store.Model()), Command.LiftAdjustment(id))
      ensures Inv(old(store.Model())) ==> Inv(store.Model())
    {
      hide Inv;
      StepKeepsInv(store.Model(), Command.LiftAdjustment(id));
      if id >= |store.adjustments| { return Some(NotFound); }
      store.adjustments := store.adjustments[id := store.adjustments[id].(active := false)];
      fault := None;
    }

    /** Every account's own bank is asked; the ledger is confirmed only when all answer and the total agrees. */
    method ReconcileBank(programId: string, balances: seq<Option<int>>) returns (r: Result<BankReport>)
      requires ledger.store == store
      ensures r.Ok? <==> programId in store.programs
      ensures r.Ok? ==>
                var report := r.value;
                var cash := Balance(store.journal, programId, TrusteeBankCash, store.programs[programId].currency);
                && report.ledgerCash == cash
                && report.bankTotal == KnownTotal(balances)
                && report.covered + report.uncovered == |balances|
                && report.uncovered == |set i | 0 <= i < |balances| && balances[i] == None|
                && (report.uncovered == 0 <==> forall i :: 0 <= i < |balances| ==> balances[i].Some?)
                && (report.reconciled == Some(true) <==>
                      (forall i :: 0 <= i < |balances| ==> balances[i].Some?) && KnownTotal(balances) == cash)
                && (report.reconciled.None? <==> report.uncovered > 0)
    {
      if programId !in store.programs { return Err(NotFound); }
      var ledgerCash := ledger.AccountBalance(programId, TrusteeBankCash, store.programs[programId].currency);
      var bankTotal, uncovered := 0, 0;
      for k := 0 to |balances|
        invariant bankTotal == KnownTotal(balances[..k])
        invariant 0 <= uncovered <= k
        invariant uncovered == |set i | 0 <= i < k && balances[i] == None|
        invariant uncovered == 0 <==> forall i :: 0 <= i < k ==> balances[i].Some?
      {
        assert balances[..k + 1][..k] == balances[..k];
        assert (set i | 0 <= i < k + 1 && balances[i] == None)
            == (set i | 0 <= i < k && balances[i] == None) + if balances[k] == None then {k} else {};
        match balances[k]
        case Some(minor) => bankTotal := bankTotal + minor;
        case None => uncovered := uncovered + 1;
      }
      assert balances[..|balances|] == balances;
      var drift := bankTotal - ledgerCash.value.minor;
      var reconciled := if uncovered == 0 then Some(drift == 0) else None;
      r := Ok(BankReport(ledgerCash.value.minor, bankTotal, reconciled, |balances| - uncovered, uncovered));
    }
  }

  class LiabilityService {
    const store: Store

    constructor (store: Store)
      ensures this.store == store
    {
      this.store := store;
    }

    method Ingest(programId: string, sequence: int, circulating: int, timestampMs: int,
                  signatureGiven: bool, signatureValid: bool, signatureRequired: bool)
      returns (fault: Option<Fault>)
      modifies store
      ensures Stepped(store.Model(), fault)
           == IngestSpec(old(store.Model()), Command.Ingest(programId, sequence, circulating, timestampMs,
                                                            signatureGiven, signatureValid, signatureRequired))
      ensures Inv(old(store.Model())) ==> Inv(store.Model())
    {
      hide Inv;
      StepKeepsInv(store.Model(), Command.Ingest(programId, sequence, circulating, timestampMs, signatureGiven,
                                    signatureValid, signatureRequired));
      var highest := HighestSequence(store.snapshots, programId);
      if highest.Some? && sequence <= highest.value { return Some(Conflict); }
      if signatureGiven {
        if !signatureValid { return Some(BadRequest); }
      } else {
        if signatureRequired { return Some(BadRequest); }
      }
      if programId !in store.programs { return Some(BadRequest); }
      store.snapshots := store.snapshots + [Snapshot(programId, sequence, circulating, timestampMs, true)];
      fault := None;
    }
  }
}
