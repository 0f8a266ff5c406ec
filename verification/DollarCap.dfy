/** Cost ceilings per call and per rolling hour (guardian/_builtins/dollar_cap.py). */
module CostCapping {
  import opened Prelude

  const HOUR := 3600.0

  datatype Caps = Caps(perCall: Option<real>, perHour: Option<real>)

  /** A finished call: when the policy looked at it, and the cost its result reports, if any. */
  datatype Call = Call(at: real, cost: Option<real>)

  datatype Charge = Charge(at: real, cost: real)

  datatype Verdict =
    | Accepted
    | NoCost
    | OverCallCap(cost: real)
    | OverHourCap(cost: real, running: real)

  ghost predicate InOrder(calls: seq<Call>) {
    forall i, j :: 0 <= i < j < |calls| ==> calls[i].at <= calls[j].at
  }

  ghost predicate Sorted(log: seq<Charge>) {
    forall i, j :: 0 <= i < j < |log| ==> log[i].at <= log[j].at
  }

  ghost predicate UpTo(log: seq<Charge>, hi: real) {
    forall i :: 0 <= i < |log| ==> log[i].at <= hi
  }

  ghost predicate Before(log: seq<Charge>, lo: real) {
    forall i :: 0 <= i < |log| ==> log[i].at < lo
  }

  ghost predicate CostsAtLeast(calls: seq<Call>, lo: real) {
    forall i :: 0 <= i < |calls| && calls[i].cost.Some? ==> calls[i].cost.value >= lo
  }

  /** The total charged at or after `lo`. */
  function SpentSince(log: seq<Charge>, lo: real): real {
    if log == [] then 0.0
    else SpentSince(log[..|log| - 1], lo) + if log[|log| - 1].at >= lo then log[|log| - 1].cost else 0.0
  }

  /** The total charged in the closed interval from `lo` to `hi`. */
  function SpentIn(log: seq<Charge>, lo: real, hi: real): real {
    if log == [] then 0.0
    else SpentIn(log[..|log| - 1], lo, hi) + if lo <= log[|log| - 1].at <= hi then log[|log| - 1].cost else 0.0
  }

  /** The policy that keeps every accepted charge for ever. */
  function Decide(c: Caps, log: seq<Charge>, call: Call): Verdict {
    if call.cost.None? then NoCost
    else if c.perCall.Some? && call.cost.value > c.perCall.value then OverCallCap(call.cost.value)
    else
      var running := SpentSince(log, call.at - HOUR) + call.cost.value;
      if c.perHour.Some? && running > c.perHour.value then OverHourCap(call.cost.value, running) else Accepted
  }

  /** The accepted charges of a whole run. */
  function AcceptedLog(c: Caps, calls: seq<Call>): seq<Charge> {
    if calls == [] then []
    else
      var log, call := AcceptedLog(c, calls[..|calls| - 1]), calls[|calls| - 1];
      if Decide(c, log, call) == Accepted then log + [Charge(call.at, call.cost.value)] else log
  }

  // ---- sums ------------------------------------------------------------

  lemma {:induction false} SpentSplit(a: seq<Charge>, b: seq<Charge>, lo: real)
    ensures SpentSince(a + b, lo) == SpentSince(a, lo) + SpentSince(b, lo)
  {
    if b == [] {
      assert a + b == a;
    } else {
      assert (a + b)[..|a + b| - 1] == a + b[..|b| - 1];
      SpentSplit(a, b[..|b| - 1], lo);
    }
  }

  lemma {:induction false} NothingSpent(log: seq<Charge>, lo: real)
    requires Before(log, lo)
    ensures SpentSince(log, lo) == 0.0
  {
    if log != [] { NothingSpent(log[..|log| - 1], lo); }
  }

  lemma {:induction false} SpentInToEnd(log: seq<Charge>, lo: real, hi: real)
    requires UpTo(log, hi)
    ensures SpentIn(log, lo, hi) == SpentSince(log, lo)
  {
    if log != [] { SpentInToEnd(log[..|log| - 1], lo, hi); }
  }

  lemma {:induction false} ShorterIntervalSpendsLess(log: seq<Charge>, lo: real, lo': real)
    requires lo' <= lo
    requires forall i :: 0 <= i < |log| ==> log[i].cost >= 0.0
    ensures SpentSince(log, lo) <= SpentSince(log, lo')
  {
    if log != [] { ShorterIntervalSpendsLess(log[..|log| - 1], lo, lo'); }
  }

  // ---- whole runs ------------------------------------------------------

  lemma {:induction false} AcceptedAreCalls(c: Caps, calls: seq<Call>, lo: real)
    requires InOrder(calls) && CostsAtLeast(calls, lo)
    ensures var log := AcceptedLog(c, calls);
            && Sorted(log)
            && (calls == [] ==> log == [])
            && (calls != [] ==> UpTo(log, calls[|calls| - 1].at))
            && (forall i :: 0 <= i < |log| ==> log[i].cost >= lo)
  {
    if calls != [] { AcceptedAreCalls(c, calls[..|calls| - 1], lo); }
  }

  /** No accepted call costs more than the per-call cap, whatever the costs' signs. */
  lemma {:induction false} EveryAcceptedCallIsWithinItsCap(c: Caps, calls: seq<Call>)
    requires c.perCall.Some?
    ensures forall i :: 0 <= i < |AcceptedLog(c, calls)| ==> AcceptedLog(c, calls)[i].cost <= c.perCall.value
  {
    if calls != [] { EveryAcceptedCallIsWithinItsCap(c, calls[..|calls| - 1]); }
  }

  /** With nonnegative costs, every closed interval of an hour stays within the hourly cap. */
  lemma {:induction false} EveryHourIsWithinTheCap(c: Caps, calls: seq<Call>, start: real)
    requires InOrder(calls) && CostsAtLeast(calls, 0.0)
    requires c.perHour.Some?
    ensures SpentInHour(AcceptedLog(c, calls), start) <= if c.perHour.value > 0.0 then c.perHour.value else 0.0
  {
    if calls != [] {
      var earlier, call := calls[..|calls| - 1], calls[|calls| - 1];
      var log := AcceptedLog(c, earlier);
      EveryHourIsWithinTheCap(c, earlier, start);
      if Decide(c, log, call) == Accepted && start <= call.at <= start + HOUR {
        AcceptedAreCalls(c, earlier, 0.0);
        SpentInToEnd(log, start, start + HOUR);
        ShorterIntervalSpendsLess(log, start, call.at - HOUR);
        assert (log + [Charge(call.at, call.cost.value)])[..|log|] == log;
      }
    }
  }

  /** What the hourly cap guarantees for costs of any sign: the hour that ends with an accepted call is within it. */
  lemma TheHourEndingAtAnAcceptedCallIsWithinTheCap(c: Caps, calls: seq<Call>, call: Call)
    requires InOrder(calls + [call]) && c.perHour.Some?
    requires Decide(c, AcceptedLog(c, calls), call) == Accepted
    ensures SpentIn(AcceptedLog(c, calls + [call]), call.at - 3600.0, call.at) <= c.perHour.value
  {
    var log := AcceptedLog(c, calls);
    assert (calls + [call])[..|calls|] == calls;
    assert InOrder(calls) by {
      forall i, j | 0 <= i < j < |calls| ensures calls[i].at <= calls[j].at {
        assert (calls + [call])[i].at <= (calls + [call])[j].at;
      }
    }
    var lo :| CostsAtLeast(calls, lo) by { SomeLowerBound(calls); }
    AcceptedAreCalls(c, calls, lo);
    assert calls != [] ==> (calls + [call])[|calls| - 1].at <= (calls + [call])[|calls|].at;
    SpentInToEnd(log, call.at - HOUR, call.at);
    assert (log + [Charge(call.at, call.cost.value)])[..|log|] == log;
  }

  lemma {:induction false} SomeLowerBound(calls: seq<Call>)
    ensures exists lo :: CostsAtLeast(calls, lo)
  {
    if calls == [] {
      assert CostsAtLeast(calls, 0.0);
    } else {
      SomeLowerBound(calls[..|calls| - 1]);
      var lo :| CostsAtLeast(calls[..|calls| - 1], lo);
      var last := calls[|calls| - 1].cost;
      assert CostsAtLeast(calls, if last.Some? && last.value < lo then last.value else lo);
    }
  }

  /** The total charged in the closed hour that begins at `start`. */
  function SpentInHour(log: seq<Charge>, start: real): real {
    SpentIn(log, start, start + 3600.0)
  }

  /** Every run whose costs are all at least `lo` keeps every closed hour within `cap`. */
  ghost predicate HoursAreSafe(cap: real, lo: real) {
    forall calls :: InOrder(calls) && CostsAtLeast(calls, lo) ==>
      forall start :: SpentInHour(AcceptedLog(Caps(None, Some(cap)), calls), start) <= cap
  }

  /** A refund of `lo` followed an hour later by a charge of `cap - lo`: both pass, yet the later hour is over the
      cap. */
  lemma RefundBreaksTheHourlyCap(cap: real, lo: real)
    requires cap >= 0.0 && lo < 0.0
    ensures var calls := [Call(0.0, Some(lo)), Call(HOUR, Some(cap - lo))];
            && InOrder(calls) && CostsAtLeast(calls, lo)
            && SpentInHour(AcceptedLog(Caps(None, Some(cap)), calls), 1.0) > cap
  {
    var c, first, second := Caps(None, Some(cap)), Call(0.0, Some(lo)), Call(HOUR, Some(cap - lo));
    var refund, charge := Charge(0.0, lo), Charge(HOUR, cap - lo);
    assert [first][..0] == [];
    assert AcceptedLog(c, []) == [];
    assert AcceptedLog(c, [first]) == [refund];
    assert [first, second][..1] == [first];
    assert [refund][..0] == [];
    assert SpentSince([refund], 0.0) == lo;
    assert AcceptedLog(c, [first, second]) == [refund] + [charge];
    assert ([refund] + [charge])[..1] == [refund];
    assert SpentIn([refund], 1.0, 1.0 + HOUR) == 0.0;
  }

  /** The hourly cap bounds every hour of every run exactly when no call may report a negative cost. */
  lemma HoursAreSafeIffCostsAreNonnegative(cap: real, lo: real)
    requires cap >= 0.0
    ensures HoursAreSafe(cap, lo) <==> lo >= 0.0
  {
    if lo >= 0.0 {
      forall calls, start | InOrder(calls) && CostsAtLeast(calls, lo)
        ensures SpentInHour(AcceptedLog(Caps(None, Some(cap)), calls), start) <= cap
      {
        EveryHourIsWithinTheCap(Caps(None, Some(cap)), calls, start);
      }
    } else {
      RefundBreaksTheHourlyCap(cap, lo);
    }
  }

  /** A call with a cost is refused only because a cap would be exceeded by it: its own first, then the hour's. */
  lemma RefusesOnlyOverACap(c: Caps, log: seq<Charge>, call: Call)
    requires UpTo(log, call.at)
    ensures call.cost == None ==> Decide(c, log, call) == NoCost
    ensures call.cost.Some? ==>
            var cost := call.cost.value;
            var hour := SpentIn(log + [Charge(call.at, cost)], call.at - 3600.0, call.at);
            Decide(c, log, call) ==
              if c.perCall.Some? && cost > c.perCall.value then OverCallCap(cost)
              else if c.perHour.Some? && hour > c.perHour.value then OverHourCap(cost, hour)
              else Accepted
  {
    SpentInToEnd(log, call.at - HOUR, call.at);
    if call.cost.Some? { assert (log + [Charge(call.at, call.cost.value)])[..|log|] == log; }
  }

  // ---- the policy itself -----------------------------------------------

  /** `history` is what remains of `log` after dropping, from the front, only charges older than `cutoff`. */
  ghost predicate TrimmedTo(log: seq<Charge>, history: seq<Charge>, cutoff: real) {
    && |history| <= |log|
    && history == log[|log| - |history|..]
    && Before(log[..|log| - |history|], cutoff)
  }

  lemma DroppedDoNotCount(log: seq<Charge>, history: seq<Charge>, cutoff: real)
    requires TrimmedTo(log, history, cutoff)
    ensures SpentSince(history, cutoff) == SpentSince(log, cutoff)
  {
    var dropped := log[..|log| - |history|];
    assert log == dropped + history;
    SpentSplit(dropped, history, cutoff);
    NothingSpent(dropped, cutoff);
  }

  ghost predicate SomeCostMissing(calls: seq<Call>) {
    exists i :: 0 <= i < |calls| && calls[i].cost.None?
  }

  /** The history is kept only under an hourly cap; what it dropped is over an hour old. */
  ghost predicate Consistent(c: Caps, log: seq<Charge>, history: seq<Charge>, clock: real) {
    if c.perHour.None? then history == [] else TrimmedTo(log, history, clock - HOUR)
  }

  /** One more call: an accepted charge goes to the end of the log and, under an hourly cap, of the history. */
  lemma AfterCall(c: Caps, calls: seq<Call>, call: Call)
    requires InOrder(calls) && forall i :: 0 <= i < |calls| ==> calls[i].at <= call.at
    ensures InOrder(calls + [call])
    ensures SomeCostMissing(calls + [call]) <==> SomeCostMissing(calls) || call.cost.None?
    ensures AcceptedLog(c, calls + [call])
         == if Decide(c, AcceptedLog(c, calls), call) == Accepted
            then AcceptedLog(c, calls) + [Charge(call.at, call.cost.value)] else AcceptedLog(c, calls)
    ensures Sorted(AcceptedLog(c, calls)) && UpTo(AcceptedLog(c, calls), call.at)
  {
    assert (calls + [call])[..|calls|] == calls;
    assert call.cost.None? ==> (calls + [call])[|calls|].cost.None?;
    forall i | 0 <= i < |calls| && calls[i].cost.None? ensures SomeCostMissing(calls + [call]) {
      assert (calls + [call])[i].cost.None?;
    }
    SomeLowerBound(calls);
    var lo :| CostsAtLeast(calls, lo);
    AcceptedAreCalls(c, calls, lo);
  }

  lemma TrimmedAfterAppend(log: seq<Charge>, history: seq<Charge>, charge: Charge, cutoff: real)
    requires TrimmedTo(log, history, cutoff)
    ensures TrimmedTo(log + [charge], history + [charge], cutoff)
  {
    assert (log + [charge])[..|log| - |history|] == log[..|log| - |history|];
  }

  class DollarCap {
    const caps: Caps
    var history: seq<Charge>
    var warnedMissingCost: bool
    ghost var calls: seq<Call>    // every call inspected so far

    /** Every charge accepted so far, never trimmed. */
    ghost function Log(): seq<Charge>
      reads this
    {
      AcceptedLog(caps, calls)
    }

    ghost predicate Valid()
      reads this
    {
      && InOrder(calls)
      && (calls == [] ==> history == [])
      && (calls != [] ==> Consistent(caps, Log(), history, calls[|calls| - 1].at))
      && (warnedMissingCost <==> SomeCostMissing(calls))
    }

    constructor (caps: Caps)
      ensures Valid() && this.caps == caps && calls == []
    {
      this.caps := caps;
      history, warnedMissingCost := [], false;
      calls := [];
    }

    /** Behaves as the policy that keeps every accepted charge; warns on the first missing cost only. */
    method CheckPost(call: Call) returns (v: Verdict, warned: bool)
      requires Valid()
      requires forall i :: 0 <= i < |calls| ==> calls[i].at <= call.at
      modifies this
      ensures Valid() && calls == old(calls) + [call]
      ensures v == Decide(caps, old(Log()), call)
      ensures Log() == if v == Accepted then old(Log()) + [Charge(call.at, call.cost.value)] else old(Log())
      ensures warned <==> call.cost.None? && !SomeCostMissing(old(calls))
    {
      AfterCall(caps, calls, call);
      v, warned := Inspect(Log(), call);
      calls := calls + [call];
    }

    /** The branches of the check, over the log of accepted charges. */
    method Inspect(ghost log: seq<Charge>, call: Call) returns (v: Verdict, warned: bool)
      requires Sorted(log) && Consistent(caps, log, history, call.at)
      modifies this`history, this`warnedMissingCost
      ensures v == Decide(caps, log, call)
      ensures Consistent(caps, if v == Accepted then log + [Charge(call.at, call.cost.value)] else log,
                         history, call.at)
      ensures warned <==> call.cost.None? && !old(warnedMissingCost)
      ensures warnedMissingCost <==> old(warnedMissingCost) || call.cost.None?
    {
      warned := false;
      if call.cost.None? {
        if !warnedMissingCost {
          warned := true;
          warnedMissingCost := true;
        }
        return NoCost, warned;
      }
      if caps.perCall.Some? && call.cost.value > caps.perCall.value {
        return OverCallCap(call.cost.value), warned;
      }
      if caps.perHour.None? {
        return Accepted, warned;
      }
      v := CheckHour(log, call.at, call.cost.value);
    }

    /** The hourly part: trim, total, and either refuse or append. */
    method CheckHour(ghost log: seq<Charge>, now: real, cost: real) returns (v: Verdict)
      requires caps.perHour.Some?
      requires Sorted(log) && TrimmedTo(log, history, now - HOUR)
      modifies this`history
      ensures var running := SpentSince(log, now - HOUR) + cost;
              v == if running > caps.perHour.value then OverHourCap(cost, running) else Accepted
      ensures TrimmedTo(if v == Accepted then log + [Charge(now, cost)] else log, history, now - HOUR)
    {
      Trim(log, now - HOUR);
      var spent := TotalCost(history, now - HOUR);
      DroppedDoNotCount(log, history, now - HOUR);
      var running := spent + cost;
      if running > caps.perHour.value {
        return OverHourCap(cost, running);
      }
      TrimmedAfterAppend(log, history, Charge(now, cost), now - HOUR);
      history := history + [Charge(now, cost)];
      return Accepted;
    }

    /** The popleft loop. */
    method Trim(ghost log: seq<Charge>, cutoff: real)
      requires Sorted(log) && TrimmedTo(log, history, cutoff)
      modifies this`history
      ensures TrimmedTo(log, history, cutoff)
      ensures forall i :: 0 <= i < |history| ==> history[i].at >= cutoff
    {
      while history != [] && history[0].at < cutoff
        invariant TrimmedTo(log, history, cutoff)
        decreases |history|
      {
        assert log[..|log| - |history[1..]|] == log[..|log| - |history|] + [history[0]];
        history := history[1..];
      }
    }
  }

  /** The generator sum over the history. */
  method TotalCost(history: seq<Charge>, ghost lo: real) returns (total: real)
    requires forall i :: 0 <= i < |history| ==> history[i].at >= lo
    ensures total == SpentSince(history, lo)
  {
    total := 0.0;
    for i := 0 to |history|
      invariant total == SpentSince(history[..i], lo)
    {
      assert history[..i + 1][..i] == history[..i];
      total := total + history[i].cost;
    }
    assert history[..|history|] == history;
  }
}
