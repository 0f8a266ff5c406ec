/** Sliding-window request limits (guardian/_builtins/rate_limit.py). */
module RateLimiting {
  import opened Prelude

  /** The three optional limits, per second, minute and hour. */
  datatype Limits = Limits(perSecond: Option<int>, perMinute: Option<int>, perHour: Option<int>)

  datatype Verdict = Allowed | Rejected(window: real, limit: int, observed: int)

  function Windows(c: Limits): seq<(real, Option<int>)> {
    [(1.0, c.perSecond), (60.0, c.perMinute), (3600.0, c.perHour)]
  }

  /** The largest window that carries a limit. */
  function OldestRelevantWindow(c: Limits): Option<real> {
    if c.perHour.Some? then Some(3600.0)
    else if c.perMinute.Some? then Some(60.0)
    else if c.perSecond.Some? then Some(1.0)
    else None
  }

  ghost predicate Sorted(log: seq<real>) {
    forall i, j :: 0 <= i < j < |log| ==> log[i] <= log[j]
  }

  ghost predicate UpTo(log: seq<real>, hi: real) {
    forall i :: 0 <= i < |log| ==> log[i] <= hi
  }

  ghost predicate Before(log: seq<real>, lo: real) {
    forall i :: 0 <= i < |log| ==> log[i] < lo
  }

  /** How many entries of `log` lie at or after `lo`. */
  function CountSince(log: seq<real>, lo: real): nat {
    if log == [] then 0 else CountSince(log[..|log| - 1], lo) + if log[|log| - 1] >= lo then 1 else 0
  }

  /** How many entries of `log` lie in the closed interval from `lo` to `hi`. */
  function CountIn(log: seq<real>, lo: real, hi: real): nat {
    if log == [] then 0
    else CountIn(log[..|log| - 1], lo, hi) + if lo <= log[|log| - 1] <= hi then 1 else 0
  }

  /** The limiter that keeps every accepted call for ever: the first full window, from `i` on, rejects. */
  function DecideFrom(c: Limits, log: seq<real>, now: real, i: nat): Verdict
    requires i <= 3
    decreases 3 - i
  {
    if i == 3 then Allowed
    else
      var (window, limit) := Windows(c)[i];
      if limit.Some? && CountSince(log, now - window) >= limit.value
      then Rejected(window, limit.value, CountSince(log, now - window) + 1)
      else DecideFrom(c, log, now, i + 1)
  }

  function Decide(c: Limits, log: seq<real>, now: real): Verdict {
    DecideFrom(c, log, now, 0)
  }

  /** The accepted calls of a whole run: one check per clock reading in `clocks`. */
  function AcceptedLog(c: Limits, clocks: seq<real>): seq<real> {
    if clocks == [] then []
    else
      var log := AcceptedLog(c, clocks[..|clocks| - 1]);
      var now := clocks[|clocks| - 1];
      if Decide(c, log, now) == Allowed then log + [now] else log
  }

  // ---- counting --------------------------------------------------------

  lemma {:induction false} CountSplit(a: seq<real>, b: seq<real>, lo: real)
    ensures CountSince(a + b, lo) == CountSince(a, lo) + CountSince(b, lo)
  {
    if b == [] {
      assert a + b == a;
    } else {
      var n := |b| - 1;
      assert (a + b)[..|a + b| - 1] == a + b[..n];
      CountSplit(a, b[..n], lo);
    }
  }

  lemma {:induction false} CountNone(log: seq<real>, lo: real)
    requires Before(log, lo)
    ensures CountSince(log, lo) == 0
  {
    if log != [] { CountNone(log[..|log| - 1], lo); }
  }

  lemma {:induction false} CountInAtMostSince(log: seq<real>, lo: real, lo': real, hi: real)
    requires lo' <= lo
    ensures CountIn(log, lo, hi) <= CountSince(log, lo')
  {
    if log != [] { CountInAtMostSince(log[..|log| - 1], lo, lo', hi); }
  }

  lemma {:induction false} CountInToEnd(log: seq<real>, lo: real, hi: real)
    requires UpTo(log, hi)
    ensures CountIn(log, lo, hi) == CountSince(log, lo)
  {
    if log != [] { CountInToEnd(log[..|log| - 1], lo, hi); }
  }

  // ---- the decision ----------------------------------------------------

  /** The window of length `window`, ending now, has a limit and is full. */
  predicate Full(c: Limits, log: seq<real>, now: real, i: nat)
    requires i < 3
  {
    var (window, limit) := Windows(c)[i];
    limit.Some? && CountIn(log, now - window, now) >= limit.value
  }

  /** A call is allowed exactly when no configured window ending now is full; a rejection names the first full one. */
  lemma DecisionIsExact(c: Limits, log: seq<real>, now: real)
    requires UpTo(log, now)
    ensures Decide(c, log, now) == Allowed <==> !Full(c, log, now, 0) && !Full(c, log, now, 1) && !Full(c, log, now, 2)
    ensures forall i: nat :: i < 3 && Full(c, log, now, i) && (forall j: nat :: j < i ==> !Full(c, log, now, j)) ==>
              Decide(c, log, now) == Rejected(Windows(c)[i].0, Windows(c)[i].1.value,
                  CountIn(log, now - Windows(c)[i].0, now) + 1)
  {
    CountInToEnd(log, now - 1.0, now);
    CountInToEnd(log, now - 60.0, now);
    CountInToEnd(log, now - 3600.0, now);
    assert Decide(c, log, now) == DecideFrom(c, log, now, 0);
    assert DecideFrom(c, log, now, 3) == Allowed;
    assert Full(c, log, now, 2) <==> DecideFrom(c, log, now, 2) != Allowed;
    assert !Full(c, log, now, 0) ==> DecideFrom(c, log, now, 0) == DecideFrom(c, log, now, 1);
    assert !Full(c, log, now, 1) ==> DecideFrom(c, log, now, 1) == DecideFrom(c, log, now, 2);
  }

  // ---- whole runs ------------------------------------------------------

  lemma {:induction false} AcceptedAreClocks(c: Limits, clocks: seq<real>)
    requires Sorted(clocks)
    ensures Sorted(AcceptedLog(c, clocks))
    ensures clocks != [] ==> UpTo(AcceptedLog(c, clocks), clocks[|clocks| - 1])
    ensures clocks == [] ==> AcceptedLog(c, clocks) == []
  {
    if clocks != [] { AcceptedAreClocks(c, clocks[..|clocks| - 1]); }
  }

  /** In every run, every closed interval of a configured window's length holds at most its limit of accepted calls. */
  lemma {:induction false} EveryWindowIsBounded(c: Limits, clocks: seq<real>, i: nat, start: real)
    requires Sorted(clocks)
    requires i < 3 && Windows(c)[i].1.Some?
    ensures CountIn(AcceptedLog(c, clocks), start, start + Windows(c)[i].0)
            <= if Windows(c)[i].1.value > 0 then Windows(c)[i].1.value else 0
  {
    if clocks != [] {
      var earlier, now := clocks[..|clocks| - 1], clocks[|clocks| - 1];
      var log, window := AcceptedLog(c, earlier), Windows(c)[i].0;
      EveryWindowIsBounded(c, earlier, i, start);
      if Decide(c, log, now) == Allowed && start <= now <= start + window {
        AcceptedAreClocks(c, earlier);
        DecisionIsExact(c, log, now);
        assert !Full(c, log, now, i);
        CountInToEnd(log, now - window, now);
        CountInAtMostSince(log, start, now - window, start + window);
        assert (log + [now])[..|log|] == log;
      }
    }
  }

  /** A window ending now that has a limit holds more calls than the limit. */
  predicate Overfilled(c: Limits, log: seq<real>, now: real, i: nat)
    requires i < 3
  {
    var (window, limit) := Windows(c)[i];
    limit.Some? && CountIn(log, now - window, now) > limit.value
  }

  lemma FullMeansNoRoom(c: Limits, log: seq<real>, now: real, i: nat)
    requires i < 3
    ensures Full(c, log, now, i) <==> Overfilled(c, log + [now], now, i)
  {
    assert (log + [now])[..|log|] == log;
  }

  /** A rejected call would have overfilled the window that rejects it. */
  lemma RejectsOnlyWhenFull(c: Limits, clocks: seq<real>, now: real)
    requires Sorted(clocks + [now])
    ensures Decide(c, AcceptedLog(c, clocks), now).Rejected? <==>
            exists i: nat :: i < 3 && Overfilled(c, AcceptedLog(c, clocks) + [now], now, i)
  {
    var log := AcceptedLog(c, clocks);
    assert (clocks + [now])[..|clocks|] == clocks;
    assert clocks != [] ==> (clocks + [now])[|clocks| - 1] <= (clocks + [now])[|clocks|];
    AcceptedAreClocks(c, clocks);
    DecisionIsExact(c, log, now);
    FullMeansNoRoom(c, log, now, 0);
    FullMeansNoRoom(c, log, now, 1);
    FullMeansNoRoom(c, log, now, 2);
  }

  /** The same with the windows spelled out: no second, no minute and no hour of any run, wherever it begins, holds more
      accepted calls than the limit set for it. */
  lemma NoWindowIsOverrun(c: Limits, clocks: seq<real>, start: real)
    requires Sorted(clocks)
    ensures c.perSecond.Some? ==> CallsIn(AcceptedLog(c, clocks), start, start + 1.0) <= AtLeastZero(c.perSecond.value)
    ensures c.perMinute.Some? ==> CallsIn(AcceptedLog(c, clocks), start, start + 60.0) <= AtLeastZero(c.perMinute.value)
    ensures c.perHour.Some? ==> CallsIn(AcceptedLog(c, clocks), start, start + 3600.0) <= AtLeastZero(c.perHour.value)
  {
    var log := AcceptedLog(c, clocks);
    if c.perSecond.Some? { EveryWindowIsBounded(c, clocks, 0, start); CountInIsCallsIn(log, start, start + 1.0); }
    if c.perMinute.Some? { EveryWindowIsBounded(c, clocks, 1, start); CountInIsCallsIn(log, start, start + 60.0); }
    if c.perHour.Some? { EveryWindowIsBounded(c, clocks, 2, start); CountInIsCallsIn(log, start, start + 3600.0); }
  }

  function AtLeastZero(limit: int): nat {
    if limit > 0 then limit else 0
  }

  /** The number of calls in the closed interval from `lo` to `hi`, as the size of a set. */
  ghost function CallsIn(log: seq<real>, lo: real, hi: real): nat {
    |set i | 0 <= i < |log| && lo <= log[i] <= hi|
  }

  lemma {:induction false} CountInIsCallsIn(log: seq<real>, lo: real, hi: real)
    ensures CountIn(log, lo, hi) == CallsIn(log, lo, hi)
  {
    if log != [] {
      var earlier, last := log[..|log| - 1], |log| - 1;
      CountInIsCallsIn(earlier, lo, hi);
      var before := set i | 0 <= i < |earlier| && lo <= earlier[i] <= hi;
      var after := set i | 0 <= i < |log| && lo <= log[i] <= hi;
      assert after == if lo <= log[last] <= hi then before + {last} else before;
    }
  }

  /** The verdict with the windows spelled out: the shortest full window rejects. */
  lemma VerdictInPlainTerms(c: Limits, log: seq<real>, now: real)
    requires UpTo(log, now)
    ensures var second, minute := CallsIn(log, now - 1.0, now), CallsIn(log, now - 60.0, now);
            var hour := CallsIn(log, now - 3600.0, now);
            Decide(c, log, now) ==
              if c.perSecond.Some? && second >= c.perSecond.value then Rejected(1.0, c.perSecond.value, second + 1)
              else if c.perMinute.Some? && minute >= c.perMinute.value
              then Rejected(60.0, c.perMinute.value, minute + 1)
              else if c.perHour.Some? && hour >= c.perHour.value then Rejected(3600.0, c.perHour.value, hour + 1)
              else Allowed
  {
    CountInIsCallsIn(log, now - 1.0, now);
    CountInIsCallsIn(log, now - 60.0, now);
    CountInIsCallsIn(log, now - 3600.0, now);
    DecisionIsExact(c, log, now);
    assert Full(c, log, now, 0) <==> c.perSecond.Some? && CountIn(log, now - 1.0, now) >= c.perSecond.value;
    assert Full(c, log, now, 1) <==> c.perMinute.Some? && CountIn(log, now - 60.0, now) >= c.perMinute.value;
    assert Full(c, log, now, 2) <==> c.perHour.Some? && CountIn(log, now - 3600.0, now) >= c.perHour.value;
  }

  // ---- the limiter itself ----------------------------------------------

  /** `calls` is what remains of `log` after dropping, from the front, only entries older than `cutoff`. */
  ghost predicate TrimmedTo(log: seq<real>, calls: seq<real>, cutoff: real) {
    && |calls| <= |log|
    && calls == log[|log| - |calls|..]
    && Before(log[..|log| - |calls|], cutoff)
  }

  /** What was dropped is too old for any window that starts no earlier than the cut-off. */
  lemma DroppedDoNotCount(log: seq<real>, calls: seq<real>, cutoff: real, lo: real)
    requires TrimmedTo(log, calls, cutoff) && cutoff <= lo
    ensures CountSince(calls, lo) == CountSince(log, lo)
  {
    var dropped := log[..|log| - |calls|];
    assert log == dropped + calls;
    CountSplit(dropped, calls, lo);
    CountNone(dropped, lo);
  }

  /** The deque keeps a suffix of the accepted calls; what was dropped is older than the largest window. */
  ghost predicate Consistent(c: Limits, log: seq<real>, calls: seq<real>, clock: real) {
    && Sorted(log) && UpTo(log, clock)
    && match OldestRelevantWindow(c)
       case None => calls == log
       case Some(oldest) => TrimmedTo(log, calls, clock - oldest)
  }

  /** One more check: an allowed call goes to the end of both the log and the deque. */
  lemma ConsistentAfterCheck(c: Limits, checks: seq<real>, calls: seq<real>, now: real)
    requires Sorted(checks) && UpTo(checks, now)
    requires Consistent(c, AcceptedLog(c, checks), calls, now)
    ensures Sorted(checks + [now])
    ensures var allowed := Decide(c, AcceptedLog(c, checks), now) == Allowed;
            && AcceptedLog(c, checks + [now])
               == (if allowed then AcceptedLog(c, checks) + [now] else AcceptedLog(c, checks))
            && Consistent(c, AcceptedLog(c, checks + [now]), if allowed then calls + [now] else calls, now)
  {
    var log, dropped := AcceptedLog(c, checks), |AcceptedLog(c, checks)| - |calls|;
    assert (checks + [now])[..|checks|] == checks;
    assert (log + [now])[..dropped] == log[..dropped];
  }

  lemma DequeCountsAsLog(c: Limits, log: seq<real>, calls: seq<real>, now: real, i: nat)
    requires Consistent(c, log, calls, now)
    requires i < 3 && Windows(c)[i].1.Some?
    ensures CountSince(calls, now - Windows(c)[i].0) == CountSince(log, now - Windows(c)[i].0)
  {
    DroppedDoNotCount(log, calls, now - OldestRelevantWindow(c).value, now - Windows(c)[i].0);
  }

  class RateLimit {
    const limits: Limits
    var calls: seq<real>
    ghost var checks: seq<real>    // the clock reading of every check so far

    /** Every call accepted so far, never trimmed. */
    ghost function Log(): seq<real>
      reads this
    {
      AcceptedLog(limits, checks)
    }

    ghost predicate Valid()
      reads this
    {
      && Sorted(checks)
      && (checks == [] ==> calls == [])
      && (checks != [] ==> Consistent(limits, Log(), calls, checks[|checks| - 1]))
    }

    constructor (limits: Limits)
      ensures Valid() && this.limits == limits && checks == []
    {
      this.limits := limits;
      calls := [];
      checks := [];
    }

    /** Behaves as the limiter that keeps every accepted call: trimming cannot be observed. */
    method CheckPre(now: real) returns (v: Verdict)
      requires Valid() && UpTo(checks, now)
      modifies this
      ensures Valid() && checks == old(checks) + [now]
      ensures v == Decide(limits, old(Log()), now)
      ensures Log() == if v == Allowed then old(Log()) + [now] else old(Log())
    {
      var oldest := OldestRelevantWindow(limits);
      AcceptedAreClocks(limits, checks);
      if oldest.Some? {
        Trim(now - oldest.value);
      }
      v := CheckWindows(now);
      ConsistentAfterCheck(limits, checks, calls, now);
      if v == Allowed {
        calls := calls + [now];
      }
      checks := checks + [now];
    }

    /** The popleft loop. */
    method Trim(cutoff: real)
      requires Sorted(Log())
                  && (calls == Log() || exists earlier :: earlier <= cutoff && TrimmedTo(Log(), calls, earlier))
      modifies this`calls
      ensures TrimmedTo(Log(), calls, cutoff)
      ensures calls == [] || calls[0] >= cutoff
    {
      ghost var log := Log();
      while calls != [] && calls[0] < cutoff
        invariant TrimmedTo(log, calls, cutoff)
        decreases |calls|
      {
        assert log[..|log| - |calls[1..]|] == log[..|log| - |calls|] + [calls[0]];
        calls := calls[1..];
      }
    }

    /** The loop over the three windows. */
    method CheckWindows(now: real) returns (v: Verdict)
      requires Consistent(limits, Log(), calls, now)
      ensures v == Decide(limits, Log(), now)
    {
      ghost var log := Log();
      var windows := Windows(limits);
      for i := 0 to 3
        invariant Decide(limits, log, now) == DecideFrom(limits, log, now, i)
      {
        var (window, limit) := windows[i];
        if limit.Some? {
          var count := CountCalls(calls, now - window);
          DequeCountsAsLog(limits, log, calls, now, i);
          if count >= limit.value {
            return Rejected(window, limit.value, count + 1);
          }
        }
      }
      return Allowed;
    }
  }

  /** The generator sum over the deque. */
  method CountCalls(calls: seq<real>, lo: real) returns (count: nat)
    ensures count == CountSince(calls, lo)
  {
    count := 0;
    for i := 0 to |calls|
      invariant count == CountSince(calls[..i], lo)
    {
      assert calls[..i + 1][..i] == calls[..i];
      if calls[i] >= lo {
        count := count + 1;
      }
    }
    assert calls[..|calls|] == calls;
  }
}
