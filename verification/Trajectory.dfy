/** The trajectory recorder and the spans it pairs (trajectory/_core.py). */
module Recording {
  import opened Prelude

  type StepId(==, !new)
  type Data(==, !new)

  datatype Kind =
    | INPUT | OUTPUT | TOOL_CALL | TOOL_RESULT | LLM_CALL | LLM_RESULT | ERROR | RETRY
    | POLICY_VIOLATION | AGENT_HANDOFF | ROUTING_DECISION | CUSTOM(name: Name)

  datatype Step = Step(id: StepId, kind: Kind, data: Data, cost: Option<real>, parent: Option<StepId>)

  /** A telemetry span: how often it has been ended, and what it was marked with when it was. */
  datatype Span = Span(ends: nat, orphaned: bool, errored: bool)

  datatype Status = RUNNING | SUCCESS | FAILED

  /** `session` is the with-block's own span and `spans` are its calls' spans, in the order they were started; `open`
      maps a call's step id to its span. `past` are the spans the trajectory no longer refers to. */
  datatype State = State(
    steps: seq<Step>, past: seq<Span>, session: Option<Span>, spans: seq<Span>, open: Dict<StepId, nat>, status: Status)

  /** What a caller can do to a trajectory. A call's or result's own step carries its id and kind. */
  datatype Action =
    | Enter
    | Call(step: Step)
    | Result(step: Step, callId: StepId)
    | Add(step: Step)
    | Exit(error: Option<Step>)

  const NEW_SPAN := Span(0, false, false)

  function EndedSpan(span: Span, orphaned: bool, errored: bool): Span {
    Span(span.ends + 1, orphaned, errored)
  }

  function Ended(spans: seq<Span>, i: nat, orphaned: bool, errored: bool): (r: seq<Span>)
    ensures |r| == |spans|
  {
    if i < |spans| then spans[i := EndedSpan(spans[i], orphaned, errored)] else spans
  }

  /** The leftover spans ended as orphans, in the order they were opened. */
  function EndedAll(spans: seq<Span>, open: Dict<StepId, nat>, keys: seq<StepId>, errored: bool): (r: seq<Span>)
    requires forall k :: k in keys ==> k in open.entries
    ensures |r| == |spans|
  {
    if keys == [] then spans
    else Ended(EndedAll(spans, open, keys[..|keys| - 1], errored), open.entries[keys[|keys| - 1]], true, errored)
  }

  function Act(s: State, a: Action): State {
    match a
    case Enter => s.(past := s.past + Held(s.session), session := Some(NEW_SPAN), status := RUNNING)
    case Call(step) =>
      (if s.session.Some? then s.(spans := s.spans + [NEW_SPAN], open := s.open.Put(step.id, |s.spans|)) else s)
        .(steps := s.steps + [step])
    case Result(step, callId) =>
      (if s.session.Some? && callId in s.open.entries
       then s.(spans := Ended(s.spans, s.open.entries[callId], false, false), open := s.open.Remove(callId))
       else s).(steps := s.steps + [step])
    case Add(step) => s.(steps := s.steps + [step])
    case Exit(error) =>
      var spans := EndedAll(s.spans, s.open, s.open.keys, error.Some?);
      var own := if s.session.Some? then [EndedSpan(s.session.value, false, error.Some?)] else [];
      State(if error.Some? then s.steps + [error.value] else s.steps,
            s.past + own + spans, None, [], Table([], map[]), if error.Some? then FAILED else SUCCESS)
  }

  /** A span still held when another takes its place. */
  function Held(session: Option<Span>): seq<Span> {
    if session.Some? then [session.value] else []
  }

  function ActAll(s: State, actions: seq<Action>): State {
    if actions == [] then s else Act(ActAll(s, actions[..|actions| - 1]), actions[|actions| - 1])
  }

  // ---- inside one with-block -------------------------------------------

  /** What happens between entering and leaving: only recording. */
  ghost predicate OnlyRecords(actions: seq<Action>) {
    forall i :: 0 <= i < |actions| ==> !actions[i].Enter? && !actions[i].Exit?
  }

  /** Action `i` is a call whose id no later result names. */
  ghost predicate Awaits(actions: seq<Action>, i: int) {
    && 0 <= i < |actions| && actions[i].Call?
    && forall j :: i < j < |actions| && actions[j].Result? ==> actions[j].callId != actions[i].step.id
  }

  /** One call of a block, and whether a later result names its id. */
  datatype CallRecord = CallRecord(id: StepId, matched: bool)

  /** The calls of a block, in order. */
  function CallsOf(actions: seq<Action>): seq<CallRecord> {
    if actions == [] then []
    else
      var calls := CallsOf(actions[..|actions| - 1]);
      match actions[|actions| - 1]
      case Call(step) => calls + [CallRecord(step.id, false)]
      case Result(_, callId) => Matched(calls, callId)
      case _ => calls
  }

  function Matched(calls: seq<CallRecord>, id: StepId): seq<CallRecord> {
    seq(|calls|, k requires 0 <= k < |calls| => if calls[k].id == id then CallRecord(id, true) else calls[k])
  }

  ghost predicate IsOpen(calls: seq<CallRecord>, id: StepId) {
    exists k :: 0 <= k < |calls| && calls[k] == CallRecord(id, false)
  }

  /** No call takes an id that is still open; fresh ids guarantee it. */
  ghost predicate NoReuse(actions: seq<Action>) {
    actions == [] ||
    var earlier, last := actions[..|actions| - 1], actions[|actions| - 1];
    NoReuse(earlier) && (last.Call? ==> !IsOpen(CallsOf(earlier), last.step.id))
  }

  /** A trajectory outside any with-block: nothing open, every span so far ended exactly once. */
  ghost predicate AtRest(s: State) {
    s.session.None? && s.spans == [] && s.open.keys == [] && EndedOnce(s.past)
  }

  ghost predicate EndedOnce(spans: seq<Span>) {
    forall i :: 0 <= i < |spans| ==> spans[i].ends == 1
  }

  /** Inside a block: the open spans are those of the unmatched calls, every other call's span has been ended once. */
  ghost predicate Paired(calls: seq<CallRecord>, s: State) {
    && s.session == Some(NEW_SPAN)
    && |s.spans| == |calls|
    && (forall k :: 0 <= k < |calls| ==> s.spans[k] == Span(if calls[k].matched then 1 else 0, false, false))
    && (forall k :: 0 <= k < |calls| && !calls[k].matched ==> s.open.Get(calls[k].id) == Some(k))
    && (forall id :: id in s.open.entries ==> IsOpen(calls, id))
  }

  lemma CallKeepsPaired(calls: seq<CallRecord>, s: State, step: Step)
    requires Paired(calls, s) && !IsOpen(calls, step.id)
    ensures Paired(calls + [CallRecord(step.id, false)], Act(s, Call(step)))
  {
    var more, s' := calls + [CallRecord(step.id, false)], Act(s, Call(step));
    forall id | id in s'.open.entries ensures IsOpen(more, id) {
      if id == step.id {
        assert more[|calls|] == CallRecord(id, false);
      } else {
        var k :| 0 <= k < |calls| && calls[k] == CallRecord(id, false);
        assert more[k] == CallRecord(id, false);
      }
    }
  }

  /** A result for an id with no open span matches no call that was not matched before. */
  lemma UnknownResultMatchesNothing(calls: seq<CallRecord>, s: State, id: StepId)
    requires Paired(calls, s) && id !in s.open.entries
    ensures Matched(calls, id) == calls
  {
  }

  /** A result for an open id matches exactly one call that was not matched before. */
  lemma KnownResultMatchesOne(calls: seq<CallRecord>, s: State, id: StepId)
    requires Paired(calls, s) && id in s.open.entries
    ensures var at := s.open.entries[id];
            at < |calls| && calls[at] == CallRecord(id, false)
                && Matched(calls, id) == calls[at := CallRecord(id, true)]
  {
    var at :| 0 <= at < |calls| && calls[at] == CallRecord(id, false);
    assert s.open.Get(calls[at].id) == Some(at);
    forall k | 0 <= k < |calls| ensures Matched(calls, id)[k] == calls[at := CallRecord(id, true)][k] {
      assert !calls[k].matched ==> s.open.Get(calls[k].id) == Some(k);
    }
  }

  lemma ResultKeepsPaired(calls: seq<CallRecord>, s: State, step: Step, callId: StepId)
    requires Paired(calls, s)
    ensures Paired(Matched(calls, callId), Act(s, Result(step, callId)))
  {
    if callId in s.open.entries {
      KnownResultMatchesOne(calls, s, callId);
      var more, s' := Matched(calls, callId), Act(s, Result(step, callId));
      forall id | id in s'.open.entries ensures IsOpen(more, id) {
        var k :| 0 <= k < |calls| && calls[k] == CallRecord(id, false);
        assert more[k] == CallRecord(id, false);
      }
    } else {
      UnknownResultMatchesNothing(calls, s, callId);
    }
  }

  /** While no call reuses an open id, the open spans are exactly those of the calls without a result. */
  lemma {:induction false} BlockStaysPaired(before: State, actions: seq<Action>)
    requires AtRest(before) && OnlyRecords(actions) && NoReuse(actions)
    ensures Paired(CallsOf(actions), ActAll(Act(before, Enter), actions))
    ensures ActAll(Act(before, Enter), actions).past == before.past
  {
    if actions != [] {
      var earlier, last := actions[..|actions| - 1], actions[|actions| - 1];
      BlockStaysPaired(before, earlier);
      var calls, s := CallsOf(earlier), ActAll(Act(before, Enter), earlier);
      match last {
        case Call(step) => CallKeepsPaired(calls, s, step);
        case Result(step, callId) => ResultKeepsPaired(calls, s, step, callId);
        case Add(_) =>
      }
    }
  }

  // ---- leaving ---------------------------------------------------------

  /** Ending the leftovers: each open span once, as an orphan, and no other. */
  lemma {:induction false} LeftoversEndOnce(spans: seq<Span>, open: Dict<StepId, nat>, keys: seq<StepId>, errored: bool)
    requires Distinct(keys) && forall k :: k in keys ==> k in open.entries
    requires forall k, l :: k in keys && l in keys && open.entries[k] == open.entries[l] ==> k == l
    ensures var r := EndedAll(spans, open, keys, errored);
            && (forall k :: k in keys && open.entries[k] < |spans| ==>
                  r[open.entries[k]] == EndedSpan(spans[open.entries[k]], true, errored))
            && (forall i :: 0 <= i < |spans| && (forall k :: k in keys ==> open.entries[k] != i) ==> r[i] == spans[i])
  {
    if keys != [] {
      var earlier, last := keys[..|keys| - 1], keys[|keys| - 1];
      LeftoversEndOnce(spans, open, earlier, errored);
      assert forall k :: k in keys <==> k in earlier || k == last;
      assert forall i :: 0 <= i < |earlier| ==> keys[i] != last;
    }
  }

  /** How the spans of a block's calls end: each once, as an orphan unless a result named its call. */
  function FinalSpans(calls: seq<CallRecord>, errored: bool): seq<Span> {
    seq(|calls|, k requires 0 <= k < |calls| => Span(1, !calls[k].matched, !calls[k].matched && errored))
  }

  lemma LeftoversOfCalls(calls: seq<CallRecord>, s: State, errored: bool)
    requires Paired(calls, s)
    ensures EndedAll(s.spans, s.open, s.open.keys, errored) == FinalSpans(calls, errored)
  {
    var r := EndedAll(s.spans, s.open, s.open.keys, errored);
    forall id | id in s.open.keys
        ensures s.open.entries[id] < |calls| && calls[s.open.entries[id]] == CallRecord(id, false) {
      KnownResultMatchesOne(calls, s, id);
    }
    LeftoversEndOnce(s.spans, s.open, s.open.keys, errored);
    forall k | 0 <= k < |calls| ensures r[k] == FinalSpans(calls, errored)[k] {
      if !calls[k].matched { assert s.open.Get(calls[k].id) == Some(k); }
    }
  }

  /** The state a with-block ends in. */
  function Block(before: State, actions: seq<Action>, error: Option<Step>): State {
    Act(ActAll(Act(before, Enter), actions), Exit(error))
  }

  /** After a block in which no call reuses an open id, every span it started has been ended exactly once; the orphans
      are exactly the calls that no later result named, and they carry the exception the block was left with. */
  lemma {:induction false} EverySpanEndsOnce(before: State, actions: seq<Action>, error: Option<Step>)
    requires AtRest(before) && OnlyRecords(actions) && NoReuse(actions)
    ensures var after := Block(before, actions, error);
            && AtRest(after)
            && after.past == before.past + [Span(1, false, error.Some?)] + FinalSpans(CallsOf(actions), error.Some?)
  {
    BlockStaysPaired(before, actions);
    ExitEndsTheBlock(CallsOf(actions), ActAll(Act(before, Enter), actions), error);
  }

  lemma {:induction false} ExitEndsTheBlock(calls: seq<CallRecord>, s: State, error: Option<Step>)
    requires Paired(calls, s) && EndedOnce(s.past)
    ensures var after := Act(s, Exit(error));
            && AtRest(after)
            && after.past == s.past + [Span(1, false, error.Some?)] + FinalSpans(calls, error.Some?)
  {
    LeftoversOfCalls(calls, s, error.Some?);
    EndedOnceAppends(s.past, Span(1, false, error.Some?), FinalSpans(calls, error.Some?));
  }

  lemma EndedOnceAppends(past: seq<Span>, own: Span, spans: seq<Span>)
    requires EndedOnce(past) && own.ends == 1 && EndedOnce(spans)
    ensures EndedOnce(past + [own] + spans)
  {
  }

  // ---- any sequence of actions -----------------------------------------

  /** A span in the record of finished blocks that was never ended. */
  ghost predicate Unended(s: State, i: int) {
    0 <= i < |s.past| && s.past[i].ends == 0
  }

  /** A span that was started, never ended, and that no open id leads to any more. */
  ghost predicate Leaked(s: State, k: int) {
    && s.session.Some? && 0 <= k < |s.spans| && s.spans[k].ends == 0
    && forall id :: id in s.open.entries ==> s.open.entries[id] != k
  }

  /** Some span can never be ended any more. */
  ghost predicate SpanLost(s: State) {
    (exists i :: Unended(s, i)) || (exists k :: Leaked(s, k))
  }

  lemma UnendedStays(s: State, a: Action, i: int)
    requires Unended(s, i)
    ensures Unended(Act(s, a), i)
  {
  }

  lemma LeakStays(s: State, a: Action, k: int)
    requires Leaked(s, k) && !a.Exit?
    ensures Leaked(Act(s, a), k)
  {
  }

  lemma {:induction false} LeakSurvivesExit(spans: seq<Span>, open: Dict<StepId, nat>, keys: seq<StepId>,
                                            errored: bool, k: nat)
    requires forall id :: id in keys ==> id in open.entries && open.entries[id] != k
    requires k < |spans|
    ensures EndedAll(spans, open, keys, errored)[k] == spans[k]
  {
    if keys != [] { LeakSurvivesExit(spans, open, keys[..|keys| - 1], errored, k); }
  }

  /** Leaving the block files a leaked span as it is. */
  lemma LeakIsFiled(s: State, error: Option<Step>, k: int)
    requires Leaked(s, k)
    ensures Unended(Act(s, Exit(error)), |s.past| + 1 + k)
  {
    LeakSurvivesExit(s.spans, s.open, s.open.keys, error.Some?, k);
  }

  lemma LostStaysLost(s: State, a: Action)
    requires SpanLost(s)
    ensures SpanLost(Act(s, a))
  {
    if i :| Unended(s, i) {
      UnendedStays(s, a, i);
    } else {
      var k :| Leaked(s, k);
      if a.Exit? { LeakIsFiled(s, a.error, k); } else { LeakStays(s, a, k); }
    }
  }

  /** What costs a span: entering while the last block's session is held, or a call with an id that is still open. */
  predicate Misstep(s: State, a: Action) {
    s.session.Some? && (a.Enter? || (a.Call? && a.step.id in s.open.entries))
  }

  ghost predicate NoMisstep(s: State, actions: seq<Action>) {
    actions == [] ||
    var earlier := actions[..|actions| - 1];
    NoMisstep(s, earlier) && !Misstep(ActAll(s, earlier), actions[|actions| - 1])
  }

  /** Nothing has been lost so far: outside a block the trajectory is at rest, inside one every open span can be
      ended. */
  ghost predicate Sound(s: State) {
    EndedOnce(s.past) && if s.session.None? then AtRest(s) else exists calls :: Paired(calls, s)
  }

  lemma StepKeepsSound(s: State, a: Action)
    requires Sound(s) && !Misstep(s, a)
    ensures Sound(Act(s, a))
  {
    if s.session.None? {
      if a.Enter? {
        assert Paired([], Act(s, a));
      } else if a.Exit? {
        assert s.open.entries == map[] by { NoKeysNoEntries(s.open); }
        assert Act(s, a).past == s.past;
      }
    } else {
      var calls :| Paired(calls, s);
      match a {
        case Call(step) =>
          OpenIdsAreOpen(calls, s, step.id);
          CallKeepsPaired(calls, s, step);
        case Result(step, callId) => ResultKeepsPaired(calls, s, step, callId);
        case Add(_) => assert Paired(calls, Act(s, a));
        case Exit(error) => ExitEndsTheBlock(calls, s, error);
      }
    }
  }

  lemma NoKeysNoEntries(open: Dict<StepId, nat>)
    requires open.keys == []
    ensures open.entries == map[]
  {
  }

  lemma OpenIdsAreOpen(calls: seq<CallRecord>, s: State, id: StepId)
    requires Paired(calls, s)
    ensures IsOpen(calls, id) <==> id in s.open.entries
  {
    if IsOpen(calls, id) {
      var k :| 0 <= k < |calls| && calls[k] == CallRecord(id, false);
      assert s.open.Get(calls[k].id) == Some(k);
    }
  }

  lemma MisstepLosesASpan(s: State, a: Action)
    requires Sound(s) && Misstep(s, a)
    ensures SpanLost(Act(s, a))
  {
    var calls :| Paired(calls, s);
    if a.Enter? {
      assert Unended(Act(s, a), |s.past|);
    } else {
      var k := s.open.entries[a.step.id];
      KnownResultMatchesOne(calls, s, a.step.id);
      forall id | id in s.open.entries && id != a.step.id ensures s.open.entries[id] != k {
        KnownResultMatchesOne(calls, s, id);
      }
      assert Leaked(Act(s, a), k);
    }
  }

  lemma {:induction false} SoundUntilAMisstep(before: State, actions: seq<Action>)
    requires AtRest(before)
    ensures if NoMisstep(before, actions) then Sound(ActAll(before, actions)) else SpanLost(ActAll(before, actions))
  {
    if actions != [] {
      var earlier, a := actions[..|actions| - 1], actions[|actions| - 1];
      var s := ActAll(before, earlier);
      SoundUntilAMisstep(before, earlier);
      if !NoMisstep(before, earlier) {
        LostStaysLost(s, a);
      } else if Misstep(s, a) {
        MisstepLosesASpan(s, a);
      } else {
        StepKeepsSound(s, a);
      }
    }
  }

  /** However blocks, calls and results follow one another, once the trajectory has been left every span has been ended
      exactly once if and only if it was never entered while held and no call took an id that was still open. */
  lemma SpansEndOnceIffNoMisstep(before: State, actions: seq<Action>)
    requires AtRest(before) && ActAll(before, actions).session.None?
    ensures AtRest(ActAll(before, actions)) <==> NoMisstep(before, actions)
  {
    SoundUntilAMisstep(before, actions);
  }

  // ---- with generated ids ----------------------------------------------

  /** Every call has an id of its own; the ids are generated. */
  ghost predicate FreshIds(actions: seq<Action>) {
    forall i, j :: 0 <= i < j < |actions| && actions[i].Call? && actions[j].Call? ==>
      actions[i].step.id != actions[j].step.id
  }

  /** The trajectory has been entered and not left since. */
  predicate Inside(actions: seq<Action>) {
    actions != [] &&
    var last := actions[|actions| - 1];
    last.Enter? || (!last.Exit? && Inside(actions[..|actions| - 1]))
  }

  /** It is never entered inside. */
  predicate NeverReentered(actions: seq<Action>) {
    actions == [] ||
    var earlier := actions[..|actions| - 1];
    NeverReentered(earlier) && !(actions[|actions| - 1].Enter? && Inside(earlier))
  }

  lemma {:induction false} InsideHoldsASession(before: State, actions: seq<Action>)
    requires before.session.None?
    ensures ActAll(before, actions).session.Some? <==> Inside(actions)
  {
    if actions != [] { InsideHoldsASession(before, actions[..|actions| - 1]); }
  }

  lemma {:induction false} OpenIdsWereCalled(before: State, actions: seq<Action>, id: StepId)
    requires before.open.keys == [] && id in ActAll(before, actions).open.entries
    ensures exists i :: 0 <= i < |actions| && actions[i].Call? && actions[i].step.id == id
  {
    NoKeysNoEntries(before.open);
    var earlier, last := actions[..|actions| - 1], actions[|actions| - 1];
    if !last.Call? || last.step.id != id {
      OpenIdsWereCalled(before, earlier, id);
      var i :| 0 <= i < |earlier| && earlier[i].Call? && earlier[i].step.id == id;
      assert actions[i] == earlier[i];
    }
  }

  lemma {:induction false} FreshMisstepsAreReentries(before: State, actions: seq<Action>)
    requires AtRest(before) && FreshIds(actions)
    ensures NoMisstep(before, actions) <==> NeverReentered(actions)
  {
    if actions != [] {
      var earlier, last := actions[..|actions| - 1], actions[|actions| - 1];
      FreshMisstepsAreReentries(before, earlier);
      InsideHoldsASession(before, earlier);
      if last.Call? && last.step.id in ActAll(before, earlier).open.entries {
        OpenIdsWereCalled(before, earlier, last.step.id);
      }
    }
  }

  /** With generated ids, whatever is recorded: once the trajectory has been left, every span has been ended exactly
      once if and only if it was never entered again before it was left. */
  lemma SpansEndOnceIffNeverReentered(before: State, actions: seq<Action>)
    requires AtRest(before) && FreshIds(actions) && !Inside(actions)
    ensures AtRest(ActAll(before, actions)) <==> NeverReentered(actions)
  {
    InsideHoldsASession(before, actions);
    FreshMisstepsAreReentries(before, actions);
    SpansEndOnceIffNoMisstep(before, actions);
  }

  /** Entering while a session is held loses that session's span: nothing that follows brings the trajectory to rest. */
  lemma {:induction false} ReenteringIsNeverMended(s: State, later: seq<Action>)
    requires s.session == Some(NEW_SPAN)
    ensures Unended(ActAll(Act(s, Enter), later), |s.past|) && !AtRest(ActAll(Act(s, Enter), later))
  {
    if later != [] {
      var earlier := later[..|later| - 1];
      ReenteringIsNeverMended(s, earlier);
      UnendedStays(ActAll(Act(s, Enter), earlier), later[|later| - 1], |s.past|);
    }
  }

  /** For example: entering twice and leaving. */
  lemma EnteringTwiceLosesASpan(before: State, error: Option<Step>)
    requires AtRest(before)
    ensures !AtRest(Act(Act(Act(before, Enter), Enter), Exit(error)))
  {
    assert [Exit(error)][..0] == [];
    ReenteringIsNeverMended(Act(before, Enter), [Exit(error)]);
  }

  // ---- what is recorded ------------------------------------------------

  /** A block records every step handed to it, in order, with the exception it is left with at the end, and its status
      says whether there was one; whatever is matched or not. */
  lemma BlockRecordsEverything(before: State, actions: seq<Action>, error: Option<Step>)
    requires OnlyRecords(actions)
    ensures var after := Block(before, actions, error);
            && |after.steps| == |before.steps| + |actions| + (if error.Some? then 1 else 0)
            && after.steps[..|before.steps|] == before.steps
            && (forall i :: 0 <= i < |actions| ==> after.steps[|before.steps| + i] == actions[i].step)
            && (error.Some? ==> after.steps[|after.steps| - 1] == error.value)
            && after.status == (if error.Some? then FAILED else SUCCESS)
  {
    RecordsInOrder(Act(before, Enter), actions);
  }

  lemma {:induction false} RecordsInOrder(s: State, actions: seq<Action>)
    requires OnlyRecords(actions)
    ensures var after := ActAll(s, actions);
            && |after.steps| == |s.steps| + |actions| && after.steps[..|s.steps|] == s.steps
            && (forall i :: 0 <= i < |actions| ==> after.steps[|s.steps| + i] == actions[i].step)
            && after.status == s.status
  {
    if actions != [] {
      var earlier := actions[..|actions| - 1];
      RecordsInOrder(s, earlier);
      assert ActAll(s, actions).steps == ActAll(s, earlier).steps + [actions[|actions| - 1].step];
    }
  }

  // ---- what a matched call is ------------------------------------------

  lemma ActionsOneMore(actions: seq<Action>, a: Action)
    ensures forall i :: 0 <= i <= |actions| ==> (actions + [a])[..i] == actions[..i]
    ensures forall i :: 0 <= i < |actions| ==>
              (Awaits(actions + [a], i) <==> Awaits(actions, i) && !(a.Result? && a.callId == actions[i].step.id))
  {
    var more := actions + [a];
    forall i | 0 <= i < |actions|
      ensures Awaits(more, i) <==> Awaits(actions, i) && !(a.Result? && a.callId == actions[i].step.id)
    {
      assert more[|actions|] == a && more[i] == actions[i];
      if Awaits(more, i) {
        forall j | i < j < |actions| && actions[j].Result? ensures actions[j].callId != actions[i].step.id {
          assert more[j] == actions[j];
        }
      }
    }
  }

  /** The record of the call at place `i` says whether any later result of the block names its id. */
  lemma {:induction false} RecordsAreExact(actions: seq<Action>, i: nat)
    requires i < |actions| && actions[i].Call?
    ensures var k := |CallsOf(actions[..i])|;
            k < |CallsOf(actions)| && CallsOf(actions)[k] == CallRecord(actions[i].step.id, !Awaits(actions, i))
  {
    var earlier, last := actions[..|actions| - 1], actions[|actions| - 1];
    assert actions == earlier + [last];
    if i < |earlier| {
      ActionsOneMore(earlier, last);
      RecordsAreExact(earlier, i);
    } else {
      assert actions[..i] == earlier;
    }
  }

  /** Every record is the record of some call. */
  lemma {:induction false} EveryRecordIsACall(actions: seq<Action>, k: nat) returns (i: nat)
    requires k < |CallsOf(actions)|
    ensures i < |actions| && actions[i].Call? && |CallsOf(actions[..i])| == k
  {
    var earlier := actions[..|actions| - 1];
    if k < |CallsOf(earlier)| {
      i := EveryRecordIsACall(earlier, k);
      assert actions[..i] == earlier[..i];
    } else {
      i := |actions| - 1;
    }
  }

  /** Inside a block the open set is exactly the ids of the calls that no later result names. */
  lemma OpenSetIsTheAwaitingCalls(before: State, actions: seq<Action>, id: StepId)
    requires AtRest(before) && OnlyRecords(actions) && NoReuse(actions)
    ensures id in ActAll(Act(before, Enter), actions).open.entries
       <==> exists i :: Awaits(actions, i) && actions[i].step.id == id
  {
    var s, calls := ActAll(Act(before, Enter), actions), CallsOf(actions);
    BlockStaysPaired(before, actions);
    if id in s.open.entries {
      var k :| 0 <= k < |calls| && calls[k] == CallRecord(id, false);
      var i := EveryRecordIsACall(actions, k);
      RecordsAreExact(actions, i);
      assert Awaits(actions, i);
    }
    forall i | Awaits(actions, i) && actions[i].step.id == id ensures id in s.open.entries {
      RecordsAreExact(actions, i);
      var k := |CallsOf(actions[..i])|;
      assert s.open.Get(calls[k].id) == Some(k);
    }
  }

  /** Generated ids are never reused while open. */
  lemma {:induction false} FreshIdsAreNotReused(actions: seq<Action>)
    requires FreshIds(actions)
    ensures NoReuse(actions)
  {
    if actions != [] {
      var earlier, last := actions[..|actions| - 1], actions[|actions| - 1];
      FreshIdsAreNotReused(earlier);
      if last.Call? && IsOpen(CallsOf(earlier), last.step.id) {
        var k :| 0 <= k < |CallsOf(earlier)| && CallsOf(earlier)[k] == CallRecord(last.step.id, false);
        var i := EveryRecordIsACall(earlier, k);
        RecordsAreExact(earlier, i);
      }
    }
  }

  // ---- the summary -----------------------------------------------------

  function CountKind(steps: seq<Step>, kind: Kind): nat {
    if steps == [] then 0
    else CountKind(steps[..|steps| - 1], kind) + if steps[|steps| - 1].kind == kind then 1 else 0
  }

  function TotalCost(steps: seq<Step>): real {
    if steps == [] then 0.0
    else TotalCost(steps[..|steps| - 1]) + match steps[|steps| - 1].cost case Some(c) => c case None => 0.0
  }

  function FirstError(steps: seq<Step>): Option<Data> {
    if steps == [] then None
    else
      var earlier, last := FirstError(steps[..|steps| - 1]), steps[|steps| - 1];
      if earlier == None && last.kind == ERROR then Some(last.data) else earlier
  }

  /** `kinds` counts the steps kind by kind. */
  ghost predicate CountsKinds(steps: seq<Step>, kinds: Dict<Kind, nat>) {
    && (forall k :: k in kinds.entries ==> kinds.entries[k] == CountKind(steps, k))
    && (forall k :: k !in kinds.entries ==> CountKind(steps, k) == 0)
  }

  function SumOver(keys: seq<Kind>, counts: map<Kind, nat>): nat
    requires forall k :: k in keys ==> k in counts
  {
    if keys == [] then 0 else SumOver(keys[..|keys| - 1], counts) + counts[keys[|keys| - 1]]
  }

  lemma {:induction false} SumChangesAtOneKey(keys: seq<Kind>, counts: map<Kind, nat>, k: Kind, n: nat)
    requires Distinct(keys) && (forall x :: x in keys ==> x in counts)
    ensures SumOver(keys, counts[k := n]) == SumOver(keys, counts) + if k in keys then n - counts[k] else 0
  {
    if keys != [] {
      var last := |keys| - 1;
      assert forall i :: 0 <= i < last ==> keys[i] != keys[last];
      SumChangesAtOneKey(keys[..last], counts, k, n);
    }
  }

  lemma SumAfterPut(kinds: Dict<Kind, nat>, k: Kind, n: nat)
    ensures var more := kinds.Put(k, n);
            SumOver(more.keys, more.entries)
            == SumOver(kinds.keys, kinds.entries) + n - (if k in kinds.entries then kinds.entries[k] else 0)
  {
    SumChangesAtOneKey(kinds.keys, kinds.entries, k, n);
    if k !in kinds.entries {
      assert (kinds.keys + [k])[..|kinds.keys|] == kinds.keys;
    }
  }

  /** The counts after one more step of a kind. */
  function Counted(kinds: Dict<Kind, nat>, kind: Kind): Dict<Kind, nat> {
    kinds.Put(kind, (if kind in kinds.entries then kinds.entries[kind] else 0) + 1)
  }

  lemma CountedAddsOne(kinds: Dict<Kind, nat>, kind: Kind)
    ensures SumOver(Counted(kinds, kind).keys, Counted(kinds, kind).entries) == SumOver(kinds.keys, kinds.entries) + 1
  {
    SumAfterPut(kinds, kind, (if kind in kinds.entries then kinds.entries[kind] else 0) + 1);
  }

  lemma CountOneMore(steps: seq<Step>, step: Step, kinds: Dict<Kind, nat>)
    requires CountsKinds(steps, kinds)
    ensures CountsKinds(steps + [step], Counted(kinds, step.kind))
  {
    assert (steps + [step])[..|steps|] == steps;
  }

  /** `kinds` is exact, and its counts add up to the number of steps. */
  ghost predicate Tallies(steps: seq<Step>, kinds: Dict<Kind, nat>) {
    CountsKinds(steps, kinds) && SumOver(kinds.keys, kinds.entries) == |steps|
  }

  lemma TallyOneMore(steps: seq<Step>, step: Step, kinds: Dict<Kind, nat>)
    requires Tallies(steps, kinds)
    ensures Tallies(steps + [step], Counted(kinds, step.kind))
  {
    CountOneMore(steps, step, kinds);
    CountedAddsOne(kinds, step.kind);
  }

  /** The things the summary accumulates. */
  ghost predicate Summarises(steps: seq<Step>, kinds: Dict<Kind, nat>, cost: real, error: Option<Data>) {
    && Tallies(steps, kinds)
    && cost == TotalCost(steps)
    && error == FirstError(steps)
  }

  lemma SummariseOneMore(steps: seq<Step>, step: Step, kinds: Dict<Kind, nat>, cost: real, error: Option<Data>)
    requires Summarises(steps, kinds, cost, error)
    ensures Summarises(steps + [step], Counted(kinds, step.kind),
                       if step.cost.Some? then cost + step.cost.value else cost,
                       if error == None && step.kind == ERROR then Some(step.data) else error)
  {
    TallyOneMore(steps, step, kinds);
    TotalsOneMore(steps, step);
  }

  lemma TotalsOneMore(steps: seq<Step>, step: Step)
    ensures TotalCost(steps + [step]) == TotalCost(steps) + if step.cost.Some? then step.cost.value else 0.0
    ensures FirstError(steps + [step])
         == if FirstError(steps) == None && step.kind == ERROR then Some(step.data) else FirstError(steps)
  {
    assert (steps + [step])[..|steps|] == steps;
  }

  /** The cost is the sum of the steps' own costs. */
  lemma {:induction false} CostsAddUp(a: seq<Step>, b: seq<Step>, step: Step)
    ensures TotalCost([]) == 0.0 && TotalCost([step]) == if step.cost.Some? then step.cost.value else 0.0
    ensures TotalCost(a + b) == TotalCost(a) + TotalCost(b)
  {
    assert [step][..0] == [];
    if b == [] {
      assert a + b == a;
    } else {
      assert (a + b)[..|a + b| - 1] == a + b[..|b| - 1];
      CostsAddUp(a, b[..|b| - 1], step);
    }
  }

  /** The places of the steps of a kind. */
  ghost function OfKind(steps: seq<Step>, kind: Kind): set<int> {
    set i | 0 <= i < |steps| && steps[i].kind == kind
  }

  /** The summary in plain terms: each count is the number of steps of the kind, and the error the first ERROR step's.
      */
  lemma SummaryInPlainTerms(steps: seq<Step>, kinds: Dict<Kind, nat>, cost: real, error: Option<Data>)
    requires Summarises(steps, kinds, cost, error)
    ensures forall k :: (if k in kinds.entries then kinds.entries[k] else 0) == |OfKind(steps, k)|
    ensures error == None <==> forall i :: 0 <= i < |steps| ==> steps[i].kind != ERROR
    ensures error.Some? ==> exists i :: 0 <= i < |steps| && steps[i].kind == ERROR && steps[i].data == error.value
                                        && forall j :: 0 <= j < i ==> steps[j].kind != ERROR
  {
    forall k ensures (if k in kinds.entries then kinds.entries[k] else 0) == |OfKind(steps, k)| {
      CountKindIsASize(steps, k);
    }
    FirstErrorIsTheFirst(steps);
  }

  lemma {:induction false} CountKindIsASize(steps: seq<Step>, kind: Kind)
    ensures CountKind(steps, kind) == |OfKind(steps, kind)|
  {
    if steps != [] {
      var last := |steps| - 1;
      CountKindIsASize(steps[..last], kind);
      OfKindOneMore(steps[..last], steps[last], kind);
      assert steps == steps[..last] + [steps[last]];
    }
  }

  lemma OfKindOneMore(steps: seq<Step>, step: Step, kind: Kind)
    ensures OfKind(steps + [step], kind) == OfKind(steps, kind) + if step.kind == kind then {|steps|} else {}
    ensures |steps| !in OfKind(steps, kind)
  {
  }

  lemma {:induction false} FirstErrorIsTheFirst(steps: seq<Step>)
    ensures FirstError(steps) == None <==> forall i :: 0 <= i < |steps| ==> steps[i].kind != ERROR
    ensures FirstError(steps).Some? ==>
              exists i :: 0 <= i < |steps| && steps[i].kind == ERROR && steps[i].data == FirstError(steps).value
                          && forall j :: 0 <= j < i ==> steps[j].kind != ERROR
  {
    if steps != [] {
      var earlier := steps[..|steps| - 1];
      FirstErrorIsTheFirst(earlier);
      if FirstError(earlier).Some? {
        var i :| 0 <= i < |earlier| && earlier[i].kind == ERROR && earlier[i].data == FirstError(earlier).value
                 && forall j :: 0 <= j < i ==> earlier[j].kind != ERROR;
        assert steps[i] == earlier[i];
      } else if steps[|steps| - 1].kind == ERROR {
        assert forall j :: 0 <= j < |steps| - 1 ==> steps[j] == earlier[j];
      }
    }
  }

  // ---- the recorder itself ---------------------------------------------

  class Trajectory {
    var steps: seq<Step>
    var past: seq<Span>
    var session: Option<Span>
    var spans: seq<Span>
    var open: Dict<StepId, nat>
    var status: Status

    function Now(): State
      reads this
    {
      State(steps, past, session, spans, open, status)
    }

    constructor ()
      ensures Now() == State([], [], None, [], Table([], map[]), RUNNING)
      ensures AtRest(Now())
    {
      steps, past, session, spans, open, status := [], [], None, [], Table([], map[]), RUNNING;
    }

    method EnterContext()
      modifies this
      ensures Now() == Act(old(Now()), Enter)
    {
      if session.Some? {
        past := past + [session.value];
      }
      session, status := Some(NEW_SPAN), RUNNING;
    }

    method AddStep(step: Step)
      modifies this
      ensures Now() == Act(old(Now()), Add(step))
    {
      steps := steps + [step];
    }

    /** `record_tool_call` and `record_llm_call`: the span is started before the step is appended. */
    method RecordCall(step: Step)
      modifies this
      ensures Now() == Act(old(Now()), Call(step))
    {
      if session.Some? {
        open := open.Put(step.id, |spans|);
        spans := spans + [NEW_SPAN];
      }
      steps := steps + [step];
    }

    /** `record_tool_result` and `record_llm_result`: an id with no open span ends nothing. */
    method RecordResult(step: Step, callId: StepId)
      modifies this
      ensures Now() == Act(old(Now()), Result(step, callId))
    {
      if session.Some? {
        var entry := open.Get(callId);
        if entry.Some? {
          open := open.Remove(callId);
          spans := Ended(spans, entry.value, false, false);
        }
      }
      steps := steps + [step];
    }

    /** Leaves the block; `error` is the ERROR step of the exception it is left with. */
    method ExitContext(error: Option<Step>)
      modifies this
      ensures Now() == Act(old(Now()), Exit(error))
    {
      if error.Some? {
        AddStep(error.value);
        status := FAILED;
      } else {
        status := SUCCESS;
      }
      EndLeftovers(error.Some?);
      if session.Some? {
        past := past + [EndedSpan(session.value, false, error.Some?)];
        session := None;
      }
      past, spans := past + spans, [];
    }

    /** The loop over the spans that never got a result. */
    method EndLeftovers(errored: bool)
      modifies this`spans, this`open
      ensures spans == EndedAll(old(spans), old(open), old(open).keys, errored)
      ensures open == Table([], map[])
    {
      var items := open;
      for i := 0 to |items.keys|
        invariant spans == EndedAll(old(spans), items, items.keys[..i], errored)
        invariant forall k :: k in open.entries <==> k in items.entries && k !in items.keys[..i]
      {
        var callId := items.keys[i];
        Slices(items.keys, i);
        spans := Ended(spans, items.entries[callId], true, errored);
        open := open.Remove(callId);
      }
      Whole(items.keys);
      assert open.entries == map[];
      KeysMeanEntries(open);
    }

    /** Counts by kind, total cost and first error; the counts add up to the number of steps. */
    method Summary() returns (count: nat, kinds: Dict<Kind, nat>, cost: real, error: Option<Data>)
      ensures Summarises(steps, kinds, cost, error)
      ensures count == |steps| == SumOver(kinds.keys, kinds.entries)
    {
      kinds, cost, error := Table([], map[]), 0.0, None;
      for i := 0 to |steps|
        invariant Summarises(steps[..i], kinds, cost, error)
      {
        Slices(steps, i);
        kinds, cost, error := Accumulate(steps[..i], steps[i], kinds, cost, error);
      }
      Whole(steps);
      count := |steps|;
    }
  }

  /** The body of the summary's loop. */
  method Accumulate(ghost earlier: seq<Step>, step: Step, kinds: Dict<Kind, nat>, cost: real, error: Option<Data>)
    returns (kinds': Dict<Kind, nat>, cost': real, error': Option<Data>)
    requires Summarises(earlier, kinds, cost, error)
    ensures Summarises(earlier + [step], kinds', cost', error')
  {
    SummariseOneMore(earlier, step, kinds, cost, error);
    kinds' := CountStep(kinds, step.kind);
    cost', error' := cost, error;
    if step.cost.Some? {
      cost' := cost + step.cost.value;
    }
    if error == None && step.kind == ERROR {
      error' := Some(step.data);
    }
  }

  method CountStep(kinds: Dict<Kind, nat>, kind: Kind) returns (kinds': Dict<Kind, nat>)
    ensures kinds' == Counted(kinds, kind)
  {
    var seen := kinds.Get(kind);
    kinds' := kinds.Put(kind, (if seen.Some? then seen.value else 0) + 1);
  }
}
