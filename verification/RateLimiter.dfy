/** Fixed-window rate limiting in memory: one counter for each client and minute. */
module RateLimiter {
  import opened Decimal

  datatype Entry = Entry(count: int, resetMs: int)
  datatype RateDecision = RateDecision(allowed: bool, limit: int, remaining: int, resetSeconds: int)

  /** The remainder of a truncating division: its sign is that of the dividend. */
  function TruncMod(a: int, b: int): int
    requires b > 0
  {
    if a >= 0 then a % b else -((-a) % b)
  }

  function Minute(nowMs: int): int {
    nowMs / 60000
  }

  function ResetSeconds(nowMs: int): int {
    60 - TruncMod(nowMs, 60000) / 1000
  }

  function Key(clientId: string, minute: int): string {
    "rl:" + clientId + ":" + PrintInt(minute)
  }

  type Counters = map<string, Entry>

  datatype Call = Call(clientId: string, nowMs: int, limit: int)

  /** The counter of the current minute after a call: begun anew, or one higher. */
  function Counted(mem: Counters, call: Call): Entry {
    var key := Key(call.clientId, Minute(call.nowMs));
    if key !in mem || mem[key].resetMs < call.nowMs
    then Entry(1, call.nowMs + ResetSeconds(call.nowMs) * 1000)
    else Entry(mem[key].count + 1, mem[key].resetMs)
  }

  function After(mem: Counters, call: Call): Counters {
    mem[Key(call.clientId, Minute(call.nowMs)) := Counted(mem, call)]
  }

  function Decide(mem: Counters, call: Call): RateDecision {
    var count := Counted(mem, call).count;
    var remaining := if call.limit - count > 0 then call.limit - count else 0;
    RateDecision(count <= call.limit, call.limit, remaining, ResetSeconds(call.nowMs))
  }

  function Run(calls: seq<Call>): Counters {
    if calls == [] then map[] else After(Run(calls[..|calls| - 1]), calls[|calls| - 1])
  }

  // ----- Keys do not collide

  predicate NoColon(s: string) {
    forall i :: 0 <= i < |s| ==> s[i] != ':'
  }

  lemma LastPartNotLonger(a: string, x: string, b: string, y: string)
    requires a + ":" + x == b + ":" + y && NoColon(y)
    ensures |y| <= |x|
  {
    var text := a + ":" + x;
    assert text[|a|] == ':';
    forall i | |b| < i < |text| ensures text[i] != ':' {
      assert text[i] == y[i - |b| - 1];
    }
  }

  lemma LastPart(a: string, x: string, b: string, y: string)
    requires a + ":" + x == b + ":" + y && NoColon(x) && NoColon(y)
    ensures a == b && x == y
  {
    LastPartNotLonger(a, x, b, y);
    LastPartNotLonger(b, y, a, x);
    var text := a + ":" + x;
    assert text[..|a|] == a && text[|a| + 1..] == x;
    assert text[..|b|] == b && text[|b| + 1..] == y;
  }

  /** A key tells client and minute, whatever the client is called. */
  lemma KeyInjective(c1: string, m1: int, c2: string, m2: int)
    requires Key(c1, m1) == Key(c2, m2)
    ensures c1 == c2 && m1 == m2
  {
    LastPart("rl:" + c1, PrintInt(m1), "rl:" + c2, PrintInt(m2));
    assert ("rl:" + c1)[3..] == c1 && ("rl:" + c2)[3..] == c2;
    PrintIntInjective(m1, m2);
  }

  // ----- A counter never looks stale inside its own minute

  lemma ResetAfterMinute(nowMs: int, later: int)
    requires Minute(nowMs) == Minute(later)
    ensures nowMs + ResetSeconds(nowMs) * 1000 > later
  {
    var x := TruncMod(nowMs, 60000);
    assert nowMs - x >= Minute(nowMs) * 60000;
    assert x / 1000 * 1000 <= x;
  }

  // ----- What the counters hold

  predicate SameWindow(call: Call, clientId: string, minute: int) {
    call.clientId == clientId && Minute(call.nowMs) == minute
  }

  /** How many calls a client made in a minute, at whatever place in the sequence. */
  function Seen(calls: seq<Call>, clientId: string, minute: int): nat {
    if calls == [] then 0
    else Seen(calls[..|calls| - 1], clientId, minute)
         + (if SameWindow(calls[|calls| - 1], clientId, minute) then 1 else 0)
  }

  /** A counter is the number of calls, and its reset lies after the last millisecond of its minute. */
  ghost predicate Faithful(mem: Counters, clientId: string, minute: int, seen: nat) {
    var key := Key(clientId, minute);
    if seen == 0 then key !in mem
    else key in mem && mem[key].count == seen
         && forall t :: Minute(t) == minute ==> mem[key].resetMs > t
  }

  lemma {:induction false} CountersCount(calls: seq<Call>, clientId: string, minute: int)
    ensures Faithful(Run(calls), clientId, minute, Seen(calls, clientId, minute))
  {
    if calls != [] {
      var front, call := calls[..|calls| - 1], calls[|calls| - 1];
      CountersCount(front, clientId, minute);
      if SameWindow(call, clientId, minute) {
        forall t | Minute(t) == minute ensures call.nowMs + ResetSeconds(call.nowMs) * 1000 > t {
          ResetAfterMinute(call.nowMs, t);
        }
      } else if Key(clientId, minute) == Key(call.clientId, Minute(call.nowMs)) {
        KeyInjective(clientId, minute, call.clientId, Minute(call.nowMs));
      }
    }
  }

  /** A call is allowed exactly when fewer than `limit` calls of its client in its minute came before it. */
  lemma AllowedExactlyWhen(calls: seq<Call>, call: Call)
    ensures Decide(Run(calls), call).allowed <==> Seen(calls, call.clientId, Minute(call.nowMs)) < call.limit
    ensures Decide(Run(calls), call).allowed ==>
              Decide(Run(calls), call).remaining == call.limit - 1 - Seen(calls, call.clientId, Minute(call.nowMs))
  {
    CountersCount(calls, call.clientId, Minute(call.nowMs));
  }

  /** A call that is refused is told that nothing remains. */
  lemma RefusedHasNothingLeft(mem: Counters, call: Call)
    ensures !Decide(mem, call).allowed ==> Decide(mem, call).remaining == 0
    ensures Decide(mem, call).limit == call.limit && Decide(mem, call).resetSeconds == ResetSeconds(call.nowMs)
  {
  }

  /** From 1970 on, the seconds to the reset are 1 to 60 and lead into the first second of the next minute. */
  lemma ResetIsNextMinute(nowMs: int)
    requires nowMs >= 0
    ensures 1 <= ResetSeconds(nowMs) <= 60
    ensures var next := 60000 * (Minute(nowMs) + 1); next <= nowMs + 1000 * ResetSeconds(nowMs) < next + 1000
  {
    var x := nowMs % 60000;
    assert nowMs == 60000 * (nowMs / 60000) + x;
    assert x / 1000 * 1000 <= x < x / 1000 * 1000 + 1000;
  }

  // ----- How many calls are allowed

  /** The calls of a client in a stretch of time that were allowed when they came. */
  function Allowed(calls: seq<Call>, clientId: string, from: int, to: int): nat {
    if calls == [] then 0
    else
      var front, call := calls[..|calls| - 1], calls[|calls| - 1];
      Allowed(front, clientId, from, to)
      + (if call.clientId == clientId && from <= call.nowMs < to && Decide(Run(front), call).allowed then 1 else 0)
  }

  ghost predicate ConstantLimit(calls: seq<Call>, clientId: string, limit: int) {
    forall k :: 0 <= k < |calls| && calls[k].clientId == clientId ==> calls[k].limit == limit
  }

  function Min(a: int, b: int): int {
    if a < b then a else b
  }

  /** At any clock values and in any order, of n calls of a client in a minute exactly min(n, limit) are allowed. */
  lemma {:induction false} MinuteIsExact(calls: seq<Call>, clientId: string, minute: int, limit: nat)
    requires ConstantLimit(calls, clientId, limit)
    ensures Allowed(calls, clientId, minute * 60000, (minute + 1) * 60000) == Min(Seen(calls, clientId, minute), limit)
  {
    if calls != [] {
      var front, call := calls[..|calls| - 1], calls[|calls| - 1];
      MinuteIsExact(front, clientId, minute, limit);
      AllowedExactlyWhen(front, call);
      assert minute * 60000 <= call.nowMs < (minute + 1) * 60000 <==> Minute(call.nowMs) == minute;
    }
  }

  lemma {:induction false} StretchInTwo(calls: seq<Call>, clientId: string, from: int, to: int, mid: int, end: int)
    requires from <= to
    ensures Allowed(calls, clientId, from, to)
         <= Allowed(calls, clientId, Min(from, mid), mid) + Allowed(calls, clientId, mid, if to > end then to else end)
  {
    if calls != [] {
      StretchInTwo(calls[..|calls| - 1], clientId, from, to, mid, end);
    }
  }

  lemma {:induction false} WiderStretch(calls: seq<Call>, clientId: string, from: int, to: int, low: int, high: int)
    requires low <= from && to <= high
    ensures Allowed(calls, clientId, from, to) <= Allowed(calls, clientId, low, high)
  {
    if calls != [] {
      WiderStretch(calls[..|calls| - 1], clientId, from, to, low, high);
    }
  }

  /** No stretch of 60,000 milliseconds, wherever it starts, lets through more than twice the limit. */
  lemma AnyMinuteAtMostTwice(calls: seq<Call>, clientId: string, from: int, limit: nat)
    requires ConstantLimit(calls, clientId, limit)
    ensures Allowed(calls, clientId, from, from + 60000) <= 2 * limit
  {
    var m := Minute(from);
    var low, mid, high := m * 60000, (m + 1) * 60000, (m + 2) * 60000;
    assert low <= from < mid && from + 60000 < high;
    StretchInTwo(calls, clientId, from, from + 60000, mid, high);
    WiderStretch(calls, clientId, Min(from, mid), mid, low, mid);
    MinuteIsExact(calls, clientId, m, limit);
    MinuteIsExact(calls, clientId, m + 1, limit);
  }

  // ----- The service

  class RateLimitService {
    var mem: Counters

    constructor ()
      ensures mem == map[]
    {
      mem := map[];
    }

    /** Consume one unit for a client; without Redis the counter is kept in memory. */
    method Consume(clientId: string, limitPerMin: int, nowMs: int) returns (decision: RateDecision)
      modifies this
      ensures mem == After(old(mem), Call(clientId, nowMs, limitPerMin))
      ensures decision == Decide(old(mem), Call(clientId, nowMs, limitPerMin))
    {
      var minute := nowMs / 60000;
      var resetSeconds := 60 - TruncMod(nowMs, 60000) / 1000;
      var rlKey := Key(clientId, minute);
      var count: int;
      if rlKey !in mem || mem[rlKey].resetMs < nowMs {
        mem := mem[rlKey := Entry(1, nowMs + resetSeconds * 1000)];
        count := 1;
      } else {
        mem := mem[rlKey := mem[rlKey].(count := mem[rlKey].count + 1)];
        count := mem[rlKey].count;
      }
      var remaining := if limitPerMin - count > 0 then limitPerMin - count else 0;
      decision := RateDecision(count <= limitPerMin, limitPerMin, remaining, resetSeconds);
    }
  }
}
