/** The webhook outbox: delivery in batches with retries, a dead-letter threshold, and replay. */
module Outbox {
  import opened Results

  // ----- Rows and state

  /** An event; its sequence number is its position. */
  datatype Event = Event(attempts: int, deliveredAt: Option<int>, deadLettered: bool)

  predicate Pending(e: Event) {
    e.deliveredAt.None? && !e.deadLettered
  }

  /** What the attempt on one event comes to: no active webhook, an accepted or a failed delivery. */
  datatype Answer = NoClient | Accepted | Failed

  /** One pass: its clock, and what each event it attempts comes to. */
  datatype Pass = Pass(now: int, answers: nat -> Answer)

  /** The threshold may be any whole number; a batch holds at least one event. */
  datatype Config = Config(maxAttempts: int, batchSize: int)

  /** The attempts after which an event cannot be pending any more. */
  function Threshold(c: Config): int {
    if c.maxAttempts < 1 then 1 else c.maxAttempts
  }

  /** `log` is history: the events attempted, in order. */
  datatype State = State(events: seq<Event>, log: seq<nat>)

  // ----- One pass

  /** How many of the first `i` events are pending. */
  function PendingBefore(events: seq<Event>, i: nat): (n: nat)
    requires i <= |events|
    ensures n <= i
  {
    if i == 0 then 0 else PendingBefore(events, i - 1) + (if Pending(events[i - 1]) then 1 else 0)
  }

  function PendingCount(events: seq<Event>): nat {
    PendingBefore(events, |events|)
  }

  /** Among the pending events with the lowest sequence numbers that make up one batch. */
  predicate InBatch(events: seq<Event>, c: Config, i: nat) {
    i < |events| && Pending(events[i]) && PendingBefore(events, i) < c.batchSize
  }

  /** The batch among the first `i` events, in sequence order. */
  function BatchBefore(events: seq<Event>, c: Config, i: nat): seq<nat>
    requires i <= |events|
  {
    if i == 0 then []
    else BatchBefore(events, c, i - 1) + (if InBatch(events, c, i - 1) then [i - 1] else [])
  }

  function Batch(events: seq<Event>, c: Config): seq<nat> {
    BatchBefore(events, c, |events|)
  }

  function Marked(e: Event, c: Config): Event {
    Event(e.attempts + 1, e.deliveredAt, e.attempts + 1 >= c.maxAttempts)
  }

  function Attempted(e: Event, c: Config, a: Answer, now: int): Event {
    if a == Accepted then Event(e.attempts + 1, Some(now), e.deadLettered) else Marked(e, c)
  }

  function Passed(events: seq<Event>, c: Config, pass: Pass): seq<Event> {
    seq(|events|, i requires 0 <= i < |events| =>
      if InBatch(events, c, i) then Attempted(events[i], c, pass.answers(i), pass.now) else events[i])
  }

  lemma PassedAt(events: seq<Event>, c: Config, pass: Pass, i: nat)
    requires i < |events|
    ensures Passed(events, c, pass)[i]
         == if InBatch(events, c, i) then Attempted(events[i], c, pass.answers(i), pass.now) else events[i]
  {
  }

  // ----- Calls

  datatype Command =
    | Publish
    | Deliver(pass: Pass)
    | ReplayOne(id: nat)
    | ReplayDead

  const QUEUED: Event := Event(0, None, false)

  function Step(s: State, c: Config, call: Command): State {
    match call
    case Publish => s.(events := s.events + [QUEUED])
    case Deliver(pass) => State(Passed(s.events, c, pass), s.log + Batch(s.events, c))
    case ReplayOne(id) => if id < |s.events| then s.(events := s.events[id := QUEUED]) else s
    case ReplayDead =>
      s.(events := seq(|s.events|, i requires 0 <= i < |s.events| =>
           if s.events[i].deadLettered then QUEUED else s.events[i]))
  }

  function Run(s: State, c: Config, calls: seq<Command>): State {
    if calls == [] then s else Step(Run(s, c, calls[..|calls| - 1]), c, calls[|calls| - 1])
  }

  const EMPTY: State := State([], [])

  // ----- The batch

  ghost predicate Ascending(ids: seq<nat>, bound: nat) {
    && (forall j :: 0 <= j < |ids| ==> ids[j] < bound)
    && (forall j, k :: 0 <= j < k < |ids| ==> ids[j] < ids[k])
  }

  lemma {:induction false} BatchHolds(events: seq<Event>, c: Config, i: nat)
    requires i <= |events|
    ensures forall k: nat :: k in BatchBefore(events, c, i) <==> k < i && InBatch(events, c, k)
    ensures Ascending(BatchBefore(events, c, i), i)
  {
    if i > 0 { BatchHolds(events, c, i - 1); }
  }

  /** Batches are as large as they can be. */
  lemma {:induction false} BatchSize(events: seq<Event>, c: Config, i: nat)
    requires i <= |events| && c.batchSize >= 1
    ensures |BatchBefore(events, c, i)|
         == if PendingBefore(events, i) < c.batchSize then PendingBefore(events, i) else c.batchSize
  {
    if i > 0 { BatchSize(events, c, i - 1); }
  }

  // ----- A lower position is never less ready

  lemma {:induction false} PendingShrinks(before: seq<Event>, after: seq<Event>, i: nat)
    requires |before| == |after| && i <= |before|
    requires forall k :: 0 <= k < i && Pending(after[k]) ==> Pending(before[k])
    ensures PendingBefore(after, i) <= PendingBefore(before, i)
  {
    if i > 0 { PendingShrinks(before, after, i - 1); }
  }

  ghost predicate AttemptedAtLeast(events: seq<Event>, low: int) {
    forall i :: 0 <= i < |events| ==> events[i].attempts >= low
  }

  /** The lowest attempt counter of all events, or zero if none is below. */
  function LowestAttempts(events: seq<Event>): (low: int)
    ensures low <= 0 && AttemptedAtLeast(events, low)
    ensures AttemptedAtLeast(events, 0) ==> low == 0
  {
    if events == [] then 0
    else
      var n := |events| - 1;
      var earlier := LowestAttempts(events[..n]);
      assert events == events[..n] + [events[n]];
      if events[n].attempts < earlier then events[n].attempts else earlier
  }

  /** The attempts that take an event counted from `low` out of the queue. */
  function Rounds(c: Config, low: int): int {
    if c.maxAttempts - low < 1 then 1 else c.maxAttempts - low
  }

  /** The events after a number of passes and nothing else. */
  function Passes(events: seq<Event>, c: Config, passes: seq<Pass>): seq<Event> {
    if passes == [] then events
    else Passed(Passes(events, c, passes[..|passes| - 1]), c, passes[|passes| - 1])
  }

  /** Event `i`, in the first batch, is after `k` passes out of the queue or has been attempted `k` times. */
  ghost predicate Served(e: Event, c: Config, low: int, k: nat) {
    Pending(e) ==> e.attempts >= low + k && (k > 0 ==> e.attempts < c.maxAttempts)
  }

  /** Whatever is answered, an event of the first batch stays in every batch until it leaves the queue. */
  lemma {:induction false} FirstBatchIsServed(events: seq<Event>, c: Config, low: int, passes: seq<Pass>)
    requires AttemptedAtLeast(events, low) && c.batchSize >= 1
    ensures |Passes(events, c, passes)| == |events|
    ensures AttemptedAtLeast(Passes(events, c, passes), low)
    ensures forall i :: 0 <= i < |events| && Pending(Passes(events, c, passes)[i]) ==> Pending(events[i])
    ensures forall i: nat :: InBatch(events, c, i) ==> Served(Passes(events, c, passes)[i], c, low, |passes|)
  {
    if passes != [] {
      var n := |passes| - 1;
      var middle := Passes(events, c, passes[..n]);
      var after := Passes(events, c, passes);
      FirstBatchIsServed(events, c, low, passes[..n]);
      assert after == Passed(middle, c, passes[n]);
      forall i | 0 <= i < |events|
        ensures after[i].attempts >= middle[i].attempts && (Pending(after[i]) ==> Pending(middle[i]))
      {
        PassedAt(middle, c, passes[n], i);
      }
      forall i: nat | InBatch(events, c, i) ensures Served(after[i], c, low, |passes|) {
        PendingShrinks(events, middle, i);
        assert Served(middle[i], c, low, n);
        PassedAt(middle, c, passes[n], i);
      }
    }
  }

  /** If the first batch has left the queue, the queue is shorter by a batch. */
  lemma {:induction false} QueueLosesABatch(before: seq<Event>, after: seq<Event>, c: Config, i: nat)
    requires |before| == |after| && i <= |before| && c.batchSize >= 1
    requires forall k :: 0 <= k < i && Pending(after[k]) ==> Pending(before[k]) && !InBatch(before, c, k)
    ensures PendingBefore(after, i) == 0 || PendingBefore(after, i) + c.batchSize <= PendingBefore(before, i)
  {
    if i > 0 { QueueLosesABatch(before, after, c, i - 1); }
  }

  /** As many passes as the threshold take a whole batch out of the queue. */
  lemma RoundTakesABatch(events: seq<Event>, c: Config, low: int, passes: seq<Pass>)
    requires AttemptedAtLeast(events, low) && c.batchSize >= 1
    requires |passes| == Rounds(c, low)
    ensures var after := Passes(events, c, passes);
            && |after| == |events| && AttemptedAtLeast(after, low)
            && (PendingCount(after) == 0 || PendingCount(after) + c.batchSize <= PendingCount(events))
  {
    var after := Passes(events, c, passes);
    FirstBatchIsServed(events, c, low, passes);
    forall k: nat | InBatch(events, c, k) ensures !Pending(after[k]) {
      assert Served(after[k], c, low, |passes|);
    }
    QueueLosesABatch(events, after, c, |events|);
  }

  lemma {:induction false} PassesConcat(
    events: seq<Event>, c: Config, first: seq<Pass>, second: seq<Pass>)
    ensures Passes(events, c, first + second) == Passes(Passes(events, c, first), c, second)
  {
    if second == [] {
      assert first + second == first;
    } else {
      assert (first + second)[..|first + second| - 1] == first + second[..|second| - 1];
      PassesConcat(events, c, first, second[..|second| - 1]);
    }
  }

  /** The number of batches that many events fill, the last one perhaps in part. */
  function Batches(n: nat, size: int): nat
    requires size >= 1
  {
    if n == 0 then 0 else if n <= size then 1 else 1 + Batches(n - size, size)
  }

  /** It is the quotient rounded up. */
  lemma {:induction false} BatchesRoundUp(n: nat, size: int)
    requires size >= 1 && n > 0
    ensures (Batches(n, size) - 1) * size < n <= Batches(n, size) * size
  {
    if n > size { BatchesRoundUp(n - size, size); }
  }

  lemma {:induction false} BatchesGrow(m: nat, n: nat, size: int)
    requires size >= 1 && m <= n
    ensures Batches(m, size) <= Batches(n, size)
  {
    if m > size { BatchesGrow(m - size, n - size, size); }
  }

  lemma FewerBatches(n: nat, m: nat, size: int)
    requires size >= 1 && 0 < m && m + size <= n
    ensures Batches(m, size) + 1 <= Batches(n, size)
  {
    BatchesGrow(m, n - size, size);
  }

  lemma OneRound(n: nat, size: int)
    requires size >= 1 && n > 0
    ensures Batches(n, size) >= 1
  {
  }

  lemma {:induction false} EmptyStaysEmpty(events: seq<Event>, c: Config, passes: seq<Pass>)
    requires PendingCount(events) == 0
    ensures |Passes(events, c, passes)| == |events|
    ensures PendingCount(Passes(events, c, passes)) == 0
  {
    if passes != [] {
      var middle := Passes(events, c, passes[..|passes| - 1]);
      EmptyStaysEmpty(events, c, passes[..|passes| - 1]);
      NonePending(middle, |middle|);
      var after := Passed(middle, c, passes[|passes| - 1]);
      forall k | 0 <= k < |middle| ensures after[k] == middle[k] {
        PassedAt(middle, c, passes[|passes| - 1], k);
      }
      assert after == middle;
    }
  }

  lemma {:induction false} NonePending(events: seq<Event>, i: nat)
    requires i <= |events|
    ensures PendingBefore(events, i) == 0 <==> forall k :: 0 <= k < i ==> !Pending(events[k])
  {
    if i > 0 { NonePending(events, i - 1); }
  }

  lemma {:induction false} DrainedCount(events: seq<Event>, c: Config, low: int, passes: seq<Pass>)
    requires AttemptedAtLeast(events, low) && c.batchSize >= 1
    requires |passes| >= Rounds(c, low) * Batches(PendingCount(events), c.batchSize)
    ensures |Passes(events, c, passes)| == |events|
    ensures PendingCount(Passes(events, c, passes)) == 0
    decreases PendingCount(events)
  {
    if PendingCount(events) == 0 {
      EmptyStaysEmpty(events, c, passes);
    } else {
      var t := Rounds(c, low);
      var n := PendingCount(events);
      OneRound(n, c.batchSize);
      RoundFits(t, Batches(n, c.batchSize), |passes|);
      var round, rest := passes[..t], passes[t..];
      var middle := Passes(events, c, round);
      RoundTakesABatch(events, c, low, round);
      PassesConcat(events, c, round, rest);
      assert round + rest == passes;
      if PendingCount(middle) == 0 {
        EmptyStaysEmpty(middle, c, rest);
      } else {
        FewerBatches(n, PendingCount(middle), c.batchSize);
        FewerRounds(t, Batches(PendingCount(middle), c.batchSize), Batches(n, c.batchSize));
        DrainedCount(middle, c, low, rest);
      }
    }
  }

  lemma RoundFits(t: int, rounds: nat, passes: nat)
    requires t >= 1 && rounds >= 1 && passes >= t * rounds
    ensures passes >= t
  {
    assert t * rounds >= t * 1;
  }

  lemma FewerRounds(t: int, fewer: nat, more: nat)
    requires t >= 1 && fewer + 1 <= more
    ensures t * fewer + t <= t * more
  {
    assert t * (fewer + 1) <= t * more;
  }

  lemma {:induction false} RunOfPasses(s: State, c: Config, passes: seq<Pass>, calls: seq<Command>)
    requires |calls| == |passes| && forall k :: 0 <= k < |calls| ==> calls[k] == Deliver(passes[k])
    ensures Run(s, c, calls).events == Passes(s.events, c, passes)
  {
    if calls != [] {
      RunOfPasses(s, c, passes[..|passes| - 1], calls[..|calls| - 1]);
    }
  }

  /**
   * The outbox drains: from any state, whatever the receivers answer, after as many passes as an event can be
   * attempted times the number of batches every event is delivered or dead-lettered.
   */
  lemma OutboxDrains(s: State, c: Config, calls: seq<Command>)
    requires c.batchSize >= 1
    requires forall k :: 0 <= k < |calls| ==> calls[k].Deliver?
    requires |calls| >= Rounds(c, LowestAttempts(s.events)) * Batches(PendingCount(s.events), c.batchSize)
    ensures var after := Run(s, c, calls).events;
            && |after| == |s.events|
            && forall i :: 0 <= i < |after| ==> after[i].deliveredAt.Some? || after[i].deadLettered
  {
    var passes := seq(|calls|, k requires 0 <= k < |calls| => calls[k].pass);
    RunOfPasses(s, c, passes, calls);
    DrainedCount(s.events, c, LowestAttempts(s.events), passes);
    NonePending(Passes(s.events, c, passes), |s.events|);
  }

  /** After any run of publishes, passes and replays, the threshold times the number of batches is enough. */
  lemma OutboxDrainsAfterRun(c: Config, history: seq<Command>, calls: seq<Command>)
    requires c.batchSize >= 1
    requires forall k :: 0 <= k < |calls| ==> calls[k].Deliver?
    requires |calls| >= Threshold(c) * Batches(PendingCount(Run(EMPTY, c, history).events), c.batchSize)
    ensures var s := Run(EMPTY, c, history);
            var after := Run(s, c, calls).events;
            && |after| == |s.events|
            && forall i :: 0 <= i < |after| ==> after[i].deliveredAt.Some? || after[i].deadLettered
  {
    var s := Run(EMPTY, c, history);
    RunPartitions(c, history);
    forall i | 0 <= i < |s.events| ensures s.events[i].attempts >= 0 {
      assert WellKept(s.events[i], c);
    }
    OutboxDrains(s, c, calls);
  }

  // ----- Partition and the three health counts

  ghost predicate WellKept(e: Event, c: Config) {
    && !(e.deliveredAt.Some? && e.deadLettered)
    && 0 <= e.attempts <= Threshold(c)
    && (Pending(e) ==> e.attempts < Threshold(c))
    && (e.deadLettered ==> e.attempts >= c.maxAttempts && e.attempts >= 1)
    && (e.deliveredAt.Some? ==> e.attempts >= 1)
  }

  ghost predicate Partitioned(s: State, c: Config) {
    forall i :: 0 <= i < |s.events| ==> WellKept(s.events[i], c)
  }

  lemma StepPartitions(s: State, c: Config, call: Command)
    requires Partitioned(s, c)
    ensures Partitioned(Step(s, c, call), c)
  {
    var after := Step(s, c, call);
    forall i | 0 <= i < |after.events| ensures WellKept(after.events[i], c) {
      if i < |s.events| {
        assert WellKept(s.events[i], c);
        if call.Deliver? { PassedAt(s.events, c, call.pass, i); }
      }
    }
  }

  /** Delivered, pending and dead-lettered stay disjoint over every run, and attempts within the threshold. */
  lemma {:induction false} RunPartitions(c: Config, calls: seq<Command>)
    ensures Partitioned(Run(EMPTY, c, calls), c)
  {
    if calls != [] {
      RunPartitions(c, calls[..|calls| - 1]);
      StepPartitions(Run(EMPTY, c, calls[..|calls| - 1]), c, calls[|calls| - 1]);
    }
  }

  function CountIf(events: seq<Event>, counted: Event -> bool): nat {
    if events == [] then 0
    else CountIf(events[..|events| - 1], counted) + (if counted(events[|events| - 1]) then 1 else 0)
  }

  const IS_PENDING: Event -> bool := (e: Event) => Pending(e)
  const IS_DEAD: Event -> bool := (e: Event) => e.deadLettered
  const IS_DELIVERED: Event -> bool := (e: Event) => e.deliveredAt.Some?
  const IS_BOTH: Event -> bool := (e: Event) => e.deliveredAt.Some? && e.deadLettered

  /** What the health check returns. */
  datatype Health = Health(deadLettered: nat, pending: nat, delivered: nat)

  function HealthOf(events: seq<Event>): Health {
    Health(CountIf(events, IS_DEAD), CountIf(events, IS_PENDING), CountIf(events, IS_DELIVERED))
  }

  lemma {:induction false} CountIsCardinality(events: seq<Event>, counted: Event -> bool)
    ensures CountIf(events, counted) == |set i | 0 <= i < |events| && counted(events[i])|
  {
    if events != [] {
      var n := |events| - 1;
      CountIsCardinality(events[..n], counted);
      var earlier := set i | 0 <= i < n && counted(events[..n][i]);
      assert (set i | 0 <= i < |events| && counted(events[i])) == earlier + if counted(events[n]) then {n} else {};
    }
  }

  /** Each count is the number of events in that state. */
  lemma HealthMeans(events: seq<Event>)
    ensures var h := HealthOf(events);
            && h.deadLettered == |set i | 0 <= i < |events| && events[i].deadLettered|
            && h.delivered == |set i | 0 <= i < |events| && events[i].deliveredAt != None|
            && h.pending == |set i | 0 <= i < |events| && events[i].deliveredAt == None && !events[i].deadLettered|
  {
    CountIsCardinality(events, IS_DEAD);
    CountIsCardinality(events, IS_DELIVERED);
    CountIsCardinality(events, IS_PENDING);
    assert (set i | 0 <= i < |events| && IS_DEAD(events[i])) == set i | 0 <= i < |events| && events[i].deadLettered;
    assert (set i | 0 <= i < |events| && IS_DELIVERED(events[i]))
        == set i | 0 <= i < |events| && events[i].deliveredAt != None;
    assert (set i | 0 <= i < |events| && IS_PENDING(events[i]))
        == set i | 0 <= i < |events| && events[i].deliveredAt == None && !events[i].deadLettered;
  }

  /** On any data the three counts exceed the number of events by those counted twice. */
  lemma {:induction false} CountsOverlap(events: seq<Event>)
    ensures var h := HealthOf(events); h.deadLettered + h.pending + h.delivered == |events| + CountIf(events, IS_BOTH)
    ensures (forall i :: 0 <= i < |events| ==> !IS_BOTH(events[i])) ==> CountIf(events, IS_BOTH) == 0
  {
    if events != [] {
      var n := |events| - 1;
      assert forall i :: 0 <= i < n ==> events[..n][i] == events[i];
      CountsOverlap(events[..n]);
    }
  }

  /** After every run the three counts add up to the number of events. */
  lemma HealthCountsAddUp(c: Config, calls: seq<Command>)
    ensures var events := Run(EMPTY, c, calls).events;
            var h := HealthOf(events);
            h.deadLettered + h.pending + h.delivered == |events|
  {
    var s := Run(EMPTY, c, calls);
    RunPartitions(c, calls);
    forall i | 0 <= i < |s.events| ensures !IS_BOTH(s.events[i]) {
      assert WellKept(s.events[i], c);
    }
    CountsOverlap(s.events);
  }

  // ----- What a pass does to one event

  const WAITING: Event -> bool := (e: Event) => e.deliveredAt.None? && !e.deadLettered

  lemma {:induction false} PendingBeforeCounts(events: seq<Event>, i: nat)
    requires i <= |events|
    ensures PendingBefore(events, i) == CountIf(events[..i], WAITING)
  {
    if i > 0 {
      PendingBeforeCounts(events, i - 1);
      assert events[..i][..i - 1] == events[..i - 1];
    }
  }

  /** The event waits, and fewer waiting events than a batch holds come before it. */
  predicate IsServed(events: seq<Event>, c: Config, i: nat) {
    i < |events| && WAITING(events[i]) && CountIf(events[..i], WAITING) < c.batchSize
  }

  /**
   * A pass touches exactly the first waiting events, as many as a batch holds. One whose delivery is accepted counts an
   * attempt and is delivered at the clock of the pass. Any other counts an attempt and stays undelivered, and is
   * dead-lettered exactly when that reaches the threshold.
   */
  lemma DeliveryOutcome(s: State, c: Config, pass: Pass, i: nat)
    requires i < |s.events|
    ensures var e, after := s.events[i], Step(s, c, Deliver(pass)).events[i];
            && (!IsServed(s.events, c, i) ==> after == e)
            && (IsServed(s.events, c, i) && pass.answers(i) == Accepted ==>
                  after == Event(e.attempts + 1, Some(pass.now), false))
            && (IsServed(s.events, c, i) && pass.answers(i) != Accepted ==>
                  after == Event(e.attempts + 1, None, e.attempts + 1 >= c.maxAttempts))
  {
    PendingBeforeCounts(s.events, i);
    PassedAt(s.events, c, pass, i);
  }

  /** An event becomes delivered at a time exactly in a pass of that time that serves it and is accepted. */
  lemma DeliveredExactlyWhen(s: State, c: Config, call: Command, i: nat, t: int)
    requires i < |s.events| && s.events[i].deliveredAt.None?
    ensures i < |Step(s, c, call).events|
    ensures Step(s, c, call).events[i].deliveredAt == Some(t)
       <==> call.Deliver? && IsServed(s.events, c, i) && call.pass.answers(i) == Accepted && call.pass.now == t
  {
    if call.Deliver? { DeliveryOutcome(s, c, call.pass, i); }
  }

  /** Over every run an event stands as delivered only since a pass of that time that served it and was accepted. */
  lemma {:induction false} DeliveredMeansAccepted(c: Config, calls: seq<Command>, i: nat, t: int) returns (k: nat)
    requires i < |Run(EMPTY, c, calls).events| && Run(EMPTY, c, calls).events[i].deliveredAt == Some(t)
    ensures k < |calls| && calls[k].Deliver? && calls[k].pass.now == t && calls[k].pass.answers(i) == Accepted
    ensures IsServed(Run(EMPTY, c, calls[..k]).events, c, i)
  {
    var n := |calls| - 1;
    var before := Run(EMPTY, c, calls[..n]);
    if i < |before.events| && before.events[i].deliveredAt == Some(t) {
      k := DeliveredMeansAccepted(c, calls[..n], i, t);
      assert calls[..n][..k] == calls[..k];
    } else {
      if i < |before.events| {
        DeliveredBefore(before, c, calls[n], i, t);
        DeliveredExactlyWhen(before, c, calls[n], i, t);
      }
      k := n;
    }
  }

  /** No call changes the time of a delivery; a replay takes it away. */
  lemma DeliveredBefore(s: State, c: Config, call: Command, i: nat, t: int)
    requires i < |s.events| && i < |Step(s, c, call).events|
    requires Step(s, c, call).events[i].deliveredAt == Some(t) && s.events[i].deliveredAt != Some(t)
    ensures s.events[i].deliveredAt.None?
  {
    if call.Deliver? { DeliveryOutcome(s, c, call.pass, i); }
  }

  /** Publishing adds an event that waits with no attempt; replays put events back in that state, and no others. */
  lemma QueueOutcome(s: State, c: Config, call: Command)
    requires !call.Deliver?
    ensures var after, queued := Step(s, c, call).events, Event(0, None, false);
            && (call.Publish? ==> after == s.events + [queued])
            && (call.ReplayOne? ==>
                  |after| == |s.events|
                  && forall i :: 0 <= i < |s.events| ==> after[i] == if i == call.id then queued else s.events[i])
            && (call.ReplayDead? ==>
                  |after| == |s.events|
                  && forall i :: 0 <= i < |s.events| ==>
                       after[i] == if s.events[i].deadLettered then queued else s.events[i])
  {
  }

  function AcceptedIn(ids: seq<nat>, answers: nat -> Answer): nat {
    if ids == [] then 0
    else AcceptedIn(ids[..|ids| - 1], answers) + (if answers(ids[|ids| - 1]) == Accepted then 1 else 0)
  }

  /** How many of the first `n` events are delivered after, but were not before. */
  function NewlyDelivered(before: seq<Event>, after: seq<Event>, n: nat): nat
    requires n <= |before| && n <= |after|
  {
    if n == 0 then 0
    else
      NewlyDelivered(before, after, n - 1)
      + (if before[n - 1].deliveredAt.None? && after[n - 1].deliveredAt.Some? then 1 else 0)
  }

  lemma {:induction false} AcceptedIsNewlyDelivered(events: seq<Event>, c: Config, pass: Pass, n: nat)
    requires n <= |events|
    ensures AcceptedIn(BatchBefore(events, c, n), pass.answers)
         == NewlyDelivered(events, Passed(events, c, pass), n)
  {
    if n > 0 {
      AcceptedIsNewlyDelivered(events, c, pass, n - 1);
      PassedAt(events, c, pass, n - 1);
      var earlier := BatchBefore(events, c, n - 1);
      assert (earlier + [(n - 1) as nat])[..|earlier|] == earlier;
      assert earlier + [] == earlier;
    }
  }

  // ----- First attempts come in sequence order

  /** The events attempted, each where it first occurs. */
  function Firsts(log: seq<nat>): seq<nat> {
    if log == [] then []
    else
      var earlier := Firsts(log[..|log| - 1]);
      if log[|log| - 1] in earlier then earlier else earlier + [log[|log| - 1]]
  }

  /** The list 0, 1, 2 and so on. */
  ghost predicate Counting(ids: seq<nat>) {
    forall k :: 0 <= k < |ids| ==> ids[k] == k
  }

  lemma FirstsAppend(log: seq<nat>, i: nat)
    ensures Firsts(log + [i]) == if i in Firsts(log) then Firsts(log) else Firsts(log) + [i]
  {
    assert (log + [i])[..|log|] == log;
  }

  lemma {:induction false} FirstsHolds(log: seq<nat>)
    ensures forall i :: i in Firsts(log) <==> i in log
  {
    if log != [] {
      FirstsHolds(log[..|log| - 1]);
      assert log == log[..|log| - 1] + [log[|log| - 1]];
    }
  }

  /** Exactly the events below some mark have been attempted, first in sequence order; the others wait untouched. */
  ghost predicate InOrder(s: State) {
    var m := |Firsts(s.log)|;
    && m <= |s.events|
    && Counting(Firsts(s.log))
    && forall i :: m <= i < |s.events| ==> Pending(s.events[i])
  }

  /** While a batch is worked through, the mark only moves to the next event in sequence. */
  lemma {:induction false} BatchMovesTheMark(s: State, c: Config, i: nat)
    requires InOrder(s) && i <= |s.events|
    ensures var m, done := |Firsts(s.log)|, Firsts(s.log + BatchBefore(s.events, c, i));
            && m <= |done| <= (if i < m then m else i)
            && Counting(done)
            && (i > m ==> |done| == i || PendingBefore(s.events, i) >= c.batchSize)
  {
    hide PendingBefore, Firsts, Counting;
    if i == 0 {
      assert s.log + BatchBefore(s.events, c, i) == s.log;
    } else {
      var earlier, tail := s.log + BatchBefore(s.events, c, i - 1), if InBatch(s.events, c, i - 1) then [i - 1] else [];
      BatchMovesTheMark(s, c, i - 1);
      PendingStep(s.events, i);
      assert s.log + BatchBefore(s.events, c, i) == earlier + tail;
      if InBatch(s.events, c, i - 1) {
        MarkStep(earlier, i - 1);
      } else {
        assert earlier + tail == earlier;
      }
    }
  }

  lemma PendingStep(events: seq<Event>, i: nat)
    requires 0 < i <= |events|
    ensures PendingBefore(events, i) == PendingBefore(events, i - 1) + (if Pending(events[i - 1]) then 1 else 0)
  {
  }

  /** Attempting an event at or below the mark. */
  lemma MarkStep(log: seq<nat>, i: nat)
    requires Counting(Firsts(log)) && i <= |Firsts(log)|
    ensures Counting(Firsts(log + [i]))
    ensures |Firsts(log + [i])| == if i < |Firsts(log)| then |Firsts(log)| else i + 1
  {
    FirstsAppend(log, i);
    CountingHolds(Firsts(log), i);
  }

  lemma CountingHolds(ids: seq<nat>, i: nat)
    requires Counting(ids)
    ensures i in ids <==> i < |ids|
  {
    if i < |ids| { assert ids[i] == i; }
  }

  lemma DeliverKeepsOrder(s: State, c: Config, pass: Pass)
    requires InOrder(s)
    ensures InOrder(Step(s, c, Deliver(pass)))
  {
    var after := Step(s, c, Deliver(pass));
    BatchMovesTheMark(s, c, |s.events|);
    var done := Firsts(after.log);
    forall i | |done| <= i < |s.events| ensures after.events[i] == s.events[i] {
      FirstsHolds(after.log);
      BatchHolds(s.events, c, |s.events|);
      assert InBatch(s.events, c, i) ==> i in after.log;
      assert i in after.log ==> i in done;
      CountingHolds(done, i);
    }
  }

  lemma {:induction false} RunInOrder(c: Config, calls: seq<Command>)
    ensures InOrder(Run(EMPTY, c, calls))
  {
    if calls != [] {
      var before := Run(EMPTY, c, calls[..|calls| - 1]);
      RunInOrder(c, calls[..|calls| - 1]);
      match calls[|calls| - 1]
      case Deliver(pass) => DeliverKeepsOrder(before, c, pass);
      case _ =>
    }
  }

  /** Where an event is first attempted. */
  function FirstAttempt(log: seq<nat>, i: nat): (k: nat)
    requires i in log
    ensures k < |log| && log[k] == i && i !in log[..k]
  {
    if i in log[..|log| - 1] then FirstAttempt(log[..|log| - 1], i) else |log| - 1
  }

  lemma {:induction false} FirstsKeepOrder(log: seq<nat>, a: nat, b: nat)
    requires a < b < |Firsts(log)|
    ensures Firsts(log)[a] in log && Firsts(log)[b] in log
    ensures FirstAttempt(log, Firsts(log)[a]) < FirstAttempt(log, Firsts(log)[b])
  {
    FirstsHolds(log);
    var n := |log| - 1;
    var earlier := Firsts(log[..n]);
    FirstsHolds(log[..n]);
    assert Firsts(log)[a] == earlier[a];
    assert earlier[a] in log[..n];
    if b < |earlier| {
      FirstsKeepOrder(log[..n], a, b);
      assert earlier[b] in log[..n];
    } else {
      assert Firsts(log)[b] == log[n] && log[n] !in log[..n];
    }
  }

  /**
   * Over every run of publishes, passes and replays, an event that was attempted was preceded by the first attempt
   * of every event with a lower sequence number.
   */
  lemma FirstAttemptsInSequence(c: Config, calls: seq<Command>, i: nat, j: nat)
    requires i < j && j in Run(EMPTY, c, calls).log
    ensures i in Run(EMPTY, c, calls).log
    ensures FirstAttempt(Run(EMPTY, c, calls).log, i) < FirstAttempt(Run(EMPTY, c, calls).log, j)
  {
    var log := Run(EMPTY, c, calls).log;
    RunInOrder(c, calls);
    FirstsHolds(log);
    CountingHolds(Firsts(log), j);
    assert Firsts(log)[i] == i && Firsts(log)[j] == j;
    FirstsKeepOrder(log, i, j);
  }

  // ----- The worker

  /** The events after the listed ones have been attempted one after the other. */
  function AttemptAll(events: seq<Event>, c: Config, pass: Pass, ids: seq<nat>): (r: seq<Event>)
    requires forall k :: 0 <= k < |ids| ==> ids[k] < |events|
    ensures |r| == |events|
  {
    if ids == [] then events
    else
      var last := ids[|ids| - 1];
      var earlier := AttemptAll(events, c, pass, ids[..|ids| - 1]);
      earlier[last := Attempted(earlier[last], c, pass.answers(last), pass.now)]
  }

  lemma {:induction false} AttemptAllAt(
    events: seq<Event>, c: Config, pass: Pass, ids: seq<nat>, bound: nat, i: nat)
    requires i < |events| && bound <= |events| && Ascending(ids, bound)
    ensures forall k :: 0 <= k < |ids| ==> ids[k] < |events|
    ensures AttemptAll(events, c, pass, ids)[i]
         == if i in ids then Attempted(events[i], c, pass.answers(i), pass.now) else events[i]
  {
    if ids != [] {
      var n := |ids| - 1;
      assert ids == ids[..n] + [ids[n]];
      AttemptAllAt(events, c, pass, ids[..n], bound, i);
    }
  }

  /** One after the other is all at once: no event is twice in a batch. */
  lemma AttemptBatch(events: seq<Event>, c: Config, pass: Pass)
    ensures Ascending(Batch(events, c), |events|)
    ensures AttemptAll(events, c, pass, Batch(events, c)) == Passed(events, c, pass)
  {
    BatchHolds(events, c, |events|);
    forall i: nat | i < |events|
      ensures AttemptAll(events, c, pass, Batch(events, c))[i] == Passed(events, c, pass)[i]
    {
      AttemptAllAt(events, c, pass, Batch(events, c), |events|, i);
    }
  }

  class DeliveryWorker {
    const config: Config
    var events: seq<Event>
    ghost var log: seq<nat>

    ghost function Model(): State
      reads this
    {
      State(events, log)
    }

    constructor (config: Config)
      ensures this.config == config && Model() == EMPTY
    {
      this.config := config;
      events, log := [], [];
    }

    method Publish()
      modifies this
      ensures Model() == Step(old(Model()), config, Command.Publish)
    {
      events := events + [QUEUED];
    }

    /** One delivery pass over the pending events; the batch is read once, before the first attempt. */
    method DeliverPending(pass: Pass) returns (delivered: nat)
      modifies this
      ensures Model() == Step(old(Model()), config, Deliver(pass))
      ensures |events| == |old(events)| && delivered == NewlyDelivered(old(events), events, |events|)
    {
      hide BatchBefore, Passed, InBatch, Attempted;
      var batch := Batch(events, config);
      ghost var was := events;
      AttemptBatch(events, config, pass);
      delivered := 0;
      for k := 0 to |batch|
        invariant |events| == |was|
        invariant forall j :: 0 <= j < |batch| ==> batch[j] < |was|
        invariant events == AttemptAll(was, config, pass, batch[..k])
        invariant log == old(log) + batch[..k]
        invariant delivered == AcceptedIn(batch[..k], pass.answers)
      {
        assert batch[..k + 1][..k] == batch[..k];
        log := log + [batch[k]];
        var accepted := Attempt(batch[k], pass.now, pass.answers(batch[k]));
        if accepted { delivered := delivered + 1; }
      }
      assert batch[..|batch|] == batch;
      AcceptedIsNewlyDelivered(was, config, pass, |was|);
    }

    /** One event: without an active webhook, or after a failed delivery, the attempt is only marked. */
    method Attempt(id: nat, now: int, answer: Answer) returns (accepted: bool)
      requires id < |events|
      modifies this`events
      ensures events == old(events)[id := Attempted(old(events)[id], config, answer, now)]
      ensures accepted <==> answer == Accepted
    {
      if answer == NoClient {
        MarkAttempt(id, events[id].attempts + 1);
        return false;
      }
      var attempt := events[id].attempts + 1;
      if answer == Accepted {
        events := events[id := events[id].(deliveredAt := Some(now), attempts := attempt)];
        return true;
      }
      MarkAttempt(id, attempt);
      accepted := false;
    }

    method MarkAttempt(id: nat, attempts: int)
      requires id < |events|
      modifies this`events
      ensures events == old(events)[id := old(events)[id].(attempts := attempts,
                                                           deadLettered := attempts >= config.maxAttempts)]
    {
      var deadLettered := attempts >= config.maxAttempts;
      events := events[id := events[id].(attempts := attempts, deadLettered := deadLettered)];
    }

    method Replay(id: nat) returns (fault: Option<Fault>)
      modifies this
      ensures Model() == Step(old(Model()), config, ReplayOne(id))
      ensures fault.None? <==> id < |events|
    {
      if id >= |events| { return Some(NotFound); }
      events := events[id := events[id].(deliveredAt := None, deadLettered := false, attempts := 0)];
      fault := None;
    }

    method ReplayDeadLettered() returns (requeued: nat)
      modifies this
      ensures Model() == Step(old(Model()), config, ReplayDead)
      ensures requeued == CountIf(old(events), IS_DEAD)
    {
      requeued := 0;
      ghost var was := events;
      for k := 0 to |events|
        invariant |events| == |was|
        invariant forall i :: 0 <= i < |was| ==>
                    events[i] == if i < k && was[i].deadLettered then QUEUED else was[i]
        invariant requeued == CountIf(was[..k], IS_DEAD)
        invariant log == old(log)
      {
        assert was[..k + 1][..k] == was[..k];
        if events[k].deadLettered {
          events := events[k := events[k].(deadLettered := false, attempts := 0, deliveredAt := None)];
          requeued := requeued + 1;
        }
      }
      assert was[..|was|] == was;
    }
  }
}
