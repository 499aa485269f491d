/** What a yes of the mint guard means, told by the stored rows and the facts of the moment alone. */
module MintClearance {
  import opened Results
  import opened Moneys
  import opened Entries
  import opened ReserveCalculation
  import opened MintGuard
  import opened ReserveBook
  import opened ReserveInvariants
  import opened FullReserve

  // ----- The feed

  /** Snapshots of one program come in rising sequence, all verified. */
  ghost predicate FeedOrdered(snapshots: seq<Snapshot>) {
    && (forall i :: 0 <= i < |snapshots| ==> snapshots[i].verified)
    && (forall i, j :: 0 <= i < j < |snapshots| && snapshots[i].programId == snapshots[j].programId ==>
          snapshots[i].sequence < snapshots[j].sequence)
  }

  lemma {:induction false} HighestBounds(snapshots: seq<Snapshot>, p: string)
    ensures HighestSequence(snapshots, p).None? ==>
              forall i :: 0 <= i < |snapshots| ==> snapshots[i].programId != p
    ensures HighestSequence(snapshots, p).Some? ==>
              forall i :: 0 <= i < |snapshots| && snapshots[i].programId == p ==>
                            snapshots[i].sequence <= HighestSequence(snapshots, p).value
  {
    if snapshots != [] {
      HighestBounds(snapshots[..|snapshots| - 1], p);
      assert forall i :: 0 <= i < |snapshots| - 1 ==> snapshots[..|snapshots| - 1][i] == snapshots[i];
    }
  }

  lemma StepKeepsFeed(b: Book, call: Command)
    requires FeedOrdered(b.snapshots)
    ensures FeedOrdered(Step(b, call).book.snapshots)
  {
    hide GuardVerdict, Transfer, HighestSequence;
    if call.Ingest? { HighestBounds(b.snapshots, call.programId); }
  }

  lemma {:induction false} RunKeepsFeed(b0: Book, calls: seq<Command>)
    requires b0.snapshots == []
    ensures FeedOrdered(Run(b0, calls).snapshots)
  {
    if calls != [] {
      hide Step, FeedOrdered;
      RunKeepsFeed(b0, calls[..|calls| - 1]);
      StepKeepsFeed(Run(b0, calls[..|calls| - 1]), calls[|calls| - 1]);
    }
  }

  /** The snapshot last stored for a program. */
  function LastStored(snapshots: seq<Snapshot>, p: string): Option<Snapshot> {
    if snapshots == [] then None
    else if snapshots[|snapshots| - 1].programId == p then Some(snapshots[|snapshots| - 1])
    else LastStored(snapshots[..|snapshots| - 1], p)
  }

  lemma {:induction false} LatestIn(snapshots: seq<Snapshot>, p: string)
    ensures LatestSnapshot(snapshots, p).Some? ==>
              LatestSnapshot(snapshots, p).value in snapshots && LatestSnapshot(snapshots, p).value.programId == p
  {
    if snapshots != [] {
      LatestIn(snapshots[..|snapshots| - 1], p);
    }
  }

  lemma {:induction false} OrderedLatestIsLast(snapshots: seq<Snapshot>, p: string)
    requires FeedOrdered(snapshots)
    ensures LatestSnapshot(snapshots, p) == LastStored(snapshots, p)
  {
    if snapshots != [] {
      var n := |snapshots| - 1;
      assert forall i :: 0 <= i < n ==> snapshots[..n][i] == snapshots[i];
      OrderedLatestIsLast(snapshots[..n], p);
      LatestIn(snapshots[..n], p);
    }
  }

  /** After every run the figure the reserve uses is the one ingested last: an older sequence never replaces it. */
  lemma FeedNeverGoesBack(b0: Book, calls: seq<Command>, p: string)
    requires b0.snapshots == []
    ensures LatestSnapshot(Run(b0, calls).snapshots, p) == LastStored(Run(b0, calls).snapshots, p)
  {
    RunKeepsFeed(b0, calls);
    OrderedLatestIsLast(Run(b0, calls).snapshots, p);
  }

  // ----- How old the feed is

  /** The verified snapshot of the program that no other outranks. */
  ghost predicate NewestFeed(snapshots: seq<Snapshot>, p: string, s: Snapshot) {
    && s in snapshots && s.programId == p && s.verified
    && forall t :: t in snapshots && t.programId == p && t.verified ==> t.sequence <= s.sequence
  }

  /**
   * The newest verified snapshot is not older than the maximum, in whole seconds. A program without one counts as
   * 2^53 - 1 seconds old, and no maximum below zero is ever met.
   */
  ghost predicate FeedInTime(snapshots: seq<Snapshot>, p: string, nowMs: int, maxAge: int) {
    && maxAge >= 0
    && ((exists s :: NewestFeed(snapshots, p, s) && nowMs - s.timestampMs < 1000 * (maxAge + 1))
        || ((forall s :: s in snapshots && s.programId == p ==> !s.verified) && maxAge >= 0x1F_FFFF_FFFF_FFFF))
  }

  /** On any data the snapshot in use is a verified one that no other verified one outranks. */
  lemma {:induction false} LatestIsNewest(snapshots: seq<Snapshot>, p: string)
    ensures LatestSnapshot(snapshots, p).None? <==>
            forall s :: s in snapshots && s.programId == p ==> !s.verified
    ensures LatestSnapshot(snapshots, p).Some? ==> NewestFeed(snapshots, p, LatestSnapshot(snapshots, p).value)
  {
    if snapshots != [] {
      var n := |snapshots| - 1;
      LatestIsNewest(snapshots[..n], p);
      assert snapshots == snapshots[..n] + [snapshots[n]];
    }
  }

  lemma NewestIsOne(snapshots: seq<Snapshot>, p: string, s: Snapshot, t: Snapshot)
    requires FeedOrdered(snapshots) && NewestFeed(snapshots, p, s) && NewestFeed(snapshots, p, t)
    ensures s == t
  {
    var i :| 0 <= i < |snapshots| && snapshots[i] == s;
    var j :| 0 <= j < |snapshots| && snapshots[j] == t;
  }

  lemma AgeWithin(nowMs: int, timestampMs: int, maxAge: int)
    ensures Max0((nowMs - timestampMs) / 1000) <= maxAge
       <==> maxAge >= 0 && nowMs - timestampMs < 1000 * (maxAge + 1)
  {
  }

  /** The age the guard compares stays within the maximum exactly when the feed is in time. */
  lemma FeedAgeMeans(b: Book, p: string, nowMs: int, maxAge: int)
    requires FeedOrdered(b.snapshots)
    ensures LiabilityFeedAge(b, p, nowMs) <= maxAge <==> FeedInTime(b.snapshots, p, nowMs, maxAge)
  {
    LatestIsNewest(b.snapshots, p);
    hide FeedOrdered;
    match LatestSnapshot(b.snapshots, p)
    case Some(s) =>
      AgeWithin(nowMs, s.timestampMs, maxAge);
      if exists t :: NewestFeed(b.snapshots, p, t) && nowMs - t.timestampMs < 1000 * (maxAge + 1) {
        var t :| NewestFeed(b.snapshots, p, t) && nowMs - t.timestampMs < 1000 * (maxAge + 1);
        NewestIsOne(b.snapshots, p, s, t);
      }
    case None =>
  }

  // ----- Funding

  /** Each named deposit exists, is named once, and is cleared; at least one is named. */
  ghost predicate FundedByCleared(deposits: seq<Deposit>, ids: seq<nat>) {
    && ids != []
    && (forall j, k :: 0 <= j < k < |ids| ==> ids[j] != ids[k])
    && (forall j :: 0 <= j < |ids| ==> ids[j] < |deposits|)
    && (forall j :: 0 <= j < |ids| ==>
          deposits[ids[j]].status in {CLEARED, ALLOCATED_TO_RESERVE, AVAILABLE_FOR_MINT})
  }

  function FoundIds(ids: seq<nat>, n: nat): set<nat> {
    set i | i in ids && i < n
  }

  lemma {:induction false} FoundAll(ids: seq<nat>, n: nat)
    ensures |FoundIds(ids, n)| <= |ids|
    ensures |FoundIds(ids, n)| == |ids|
       <==> (forall j, k :: 0 <= j < k < |ids| ==> ids[j] != ids[k]) && (forall j :: 0 <= j < |ids| ==> ids[j] < n)
  {
    if ids == [] {
      assert FoundIds(ids, n) == {};
    } else {
      var m := |ids| - 1;
      var front, last := ids[..m], ids[m];
      FoundAll(front, n);
      assert ids == front + [last];
      assert FoundIds(ids, n) == FoundIds(front, n) + (if last < n then {last} else {});
      assert last in FoundIds(front, n) <==> last < n && last in front;
    }
  }

  lemma FundingClearedMeans(deposits: seq<Deposit>, ids: seq<nat>)
    ensures FundingCleared(deposits, ids) <==> FundedByCleared(deposits, ids)
  {
    FoundAll(ids, |deposits|);
    var found := set i | i in ids && i < |deposits|;
    assert found == FoundIds(ids, |deposits|);
    if FundingCleared(deposits, ids) {
      forall j | 0 <= j < |ids| ensures MintEligible(deposits[ids[j]].status) {
        assert ids[j] in found;
      }
    }
  }

  // ----- The guard

  /** Nothing stands against the mint: capacity, funding, a feed in time, and none of the facts that block. */
  ghost predicate MintClear(b: Book, a: Auth, env: GuardEnv) {
    && a.programId in b.programs && a.currency == b.programs[a.programId].currency
    && PositionOf(b, a.programId).Ok?
    && 0 < a.amount <= PositionOf(b, a.programId).value.mintCapacity.minor
    && FundedByCleared(b.deposits, a.fundingDepositIds)
    && FeedInTime(b.snapshots, a.programId, env.nowMs, b.config.maxLiabilityFeedAge)
    && b.config.maxReserveSnapshotAge >= 0
    && env.bankConnectivityAge <= b.config.maxBankConnectivityAge
    && (b.config.maxProofOfReserveAge.Some? ==>
          env.proofOfReserveAge.Some? && env.proofOfReserveAge.value <= b.config.maxProofOfReserveAge.value)
    && env.mintFeatureEnabled
    && !env.unresolvedReconciliation && !env.complianceHold && !env.assetSuspended && !env.programSuspended
    && !env.accountRestricted
  }

  /** The amount is within the capacity of the program, in its currency. */
  lemma GuardSawCapacity(b: Book, a: Auth, env: GuardEnv)
    requires GuardVerdict(b, a, env) == Result.Ok(true)
    ensures a.programId in b.programs && PositionOf(b, a.programId).Ok?
    ensures a.currency == b.programs[a.programId].currency
    ensures 0 < a.amount <= PositionOf(b, a.programId).value.mintCapacity.minor
  {
    VerdictMeansNoBlock(b, a, env);
    ProgramKnown(b, a.programId);
    PositionOverBalances(b, a.programId);
    hide PositionOf, GuardVerdict, MintCapacity, FundingCleared, LiabilityFeedAge;
    MintCapacitySpec(GuardFacts(b, a, env).value.capacityInput);
  }

  lemma ProgramKnown(b: Book, p: string)
    ensures PositionOf(b, p).Ok? ==> p in b.programs
  {
  }

  /** The guard answers exactly when the program has a position. */
  lemma VerdictIsGiven(b: Book, a: Auth, env: GuardEnv)
    ensures GuardVerdict(b, a, env).Ok? <==> PositionOf(b, a.programId).Ok?
  {
    hide PositionOf, Decide, MintCapacity, FundingCleared, LiabilityFeedAge;
    if PositionOf(b, a.programId).Ok? {
      var facts := GuardFacts(b, a, env).value;
      ProgramKnown(b, a.programId);
      PositionOverBalances(b, a.programId);
      MintCapacitySpec(facts.capacityInput);
      GuardFailsSafe(facts);
    }
  }

  lemma VerdictMeansNoBlock(b: Book, a: Auth, env: GuardEnv)
    requires GuardVerdict(b, a, env) == Result.Ok(true)
    ensures PositionOf(b, a.programId).Ok? && GuardFacts(b, a, env).Ok?
    ensures var facts := GuardFacts(b, a, env).value;
            && MintCapacity(facts.capacityInput).Ok?
            && (forall r :: !Blocks(facts, MintCapacity(facts.capacityInput).value, r))
            && 0 < a.amount <= MintCapacity(facts.capacityInput).value.minor
            && a.currency == MintCapacity(facts.capacityInput).value.currency
  {
    hide PositionOf, Decide, MintCapacity, FundingCleared, LiabilityFeedAge;
    GuardFailsSafe(GuardFacts(b, a, env).value);
  }

  lemma NoBlockMeans(f: Facts, capacity: Money)
    requires forall r :: !Blocks(f, capacity, r)
    ensures f.fundingDepositsCleared && f.mintFeatureEnabled && f.reserveSnapshotAge <= f.maxReserveSnapshotAge
    ensures f.liabilityFeedAge <= f.maxLiabilityFeedAge && f.bankConnectivityAge <= f.maxBankConnectivityAge
    ensures !f.complianceHoldActive && !f.assetMintingSuspended && !f.programSuspended
    ensures !f.accountRestricted && !f.hasUnresolvedReconciliation
    ensures f.maxProofOfReserveAge.Some? ==>
              f.proofOfReserveAge.Some? && f.proofOfReserveAge.value <= f.maxProofOfReserveAge.value
  {
    assert !Blocks(f, capacity, ReserveDataStale);
    assert !Blocks(f, capacity, MintFeatureDisabled) && !Blocks(f, capacity, LiabilityFeedStale);
    assert !Blocks(f, capacity, BankConnectivityUnavailable) && !Blocks(f, capacity, ProofOfReserveExpired);
    assert !Blocks(f, capacity, ReconciliationUnresolved) && !Blocks(f, capacity, ComplianceHold);
    assert !Blocks(f, capacity, AssetMintingSuspended) && !Blocks(f, capacity, ProgramSuspended);
    assert !Blocks(f, capacity, MintGuard.AccountRestricted) && !Blocks(f, capacity, DepositNotCleared);
  }

  /** And the other way round: with all facts in order nothing blocks. */
  lemma MeansNoBlock(f: Facts, capacity: Money)
    requires f.fundingDepositsCleared && f.mintFeatureEnabled && f.makerCheckerComplete
    requires f.reserveSnapshotAge <= f.maxReserveSnapshotAge
    requires f.liabilityFeedAge <= f.maxLiabilityFeedAge && f.bankConnectivityAge <= f.maxBankConnectivityAge
    requires !f.complianceHoldActive && !f.assetMintingSuspended && !f.programSuspended
    requires !f.accountRestricted && !f.hasUnresolvedReconciliation
    requires f.maxProofOfReserveAge.Some? ==>
               f.proofOfReserveAge.Some? && f.proofOfReserveAge.value <= f.maxProofOfReserveAge.value
    requires 0 < f.requested.minor <= capacity.minor && f.requested.currency == capacity.currency
    ensures forall r :: !Blocks(f, capacity, r)
  {
  }

  lemma YesMeansClear(b: Book, a: Auth, env: GuardEnv)
    requires FeedOrdered(b.snapshots) && GuardVerdict(b, a, env) == Result.Ok(true)
    ensures MintClear(b, a, env)
  {
    VerdictMeansNoBlock(b, a, env);
    GuardSawCapacity(b, a, env);
    FundingClearedMeans(b.deposits, a.fundingDepositIds);
    FeedAgeMeans(b, a.programId, env.nowMs, b.config.maxLiabilityFeedAge);
    hide GuardVerdict, Blocks, MintCapacity, PositionOf, FundingCleared, LiabilityFeedAge, FundedByCleared, FeedInTime;
    var facts := GuardFacts(b, a, env).value;
    NoBlockMeans(facts, MintCapacity(facts.capacityInput).value);
  }

  lemma ClearMeansYes(b: Book, a: Auth, env: GuardEnv)
    requires FeedOrdered(b.snapshots) && MintClear(b, a, env)
    ensures GuardVerdict(b, a, env) == Result.Ok(true)
  {
    FundingClearedMeans(b.deposits, a.fundingDepositIds);
    FeedAgeMeans(b, a.programId, env.nowMs, b.config.maxLiabilityFeedAge);
    PositionOverBalances(b, a.programId);
    hide PositionOf, Decide, MintCapacity, FundingCleared, LiabilityFeedAge, FundedByCleared, FeedInTime, Blocks;
    var facts := GuardFacts(b, a, env).value;
    MintCapacitySpec(facts.capacityInput);
    MeansNoBlock(facts, MintCapacity(facts.capacityInput).value);
    GuardFailsSafe(facts);
  }

  /** The guard says yes exactly when nothing stands against the mint. */
  lemma GuardSaysYesExactlyWhen(b: Book, a: Auth, env: GuardEnv)
    requires FeedOrdered(b.snapshots)
    ensures GuardVerdict(b, a, env) == Result.Ok(true) <==> MintClear(b, a, env)
  {
    if GuardVerdict(b, a, env) == Result.Ok(true) { YesMeansClear(b, a, env); }
    hide GuardVerdict;
    if MintClear(b, a, env) { ClearMeansYes(b, a, env); }
  }
}
