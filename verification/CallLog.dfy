/** What a guarded call does, told from the log of its hook calls (guardian/_core.py, guardian/_combinators.py). */
module CallLogs {
  import opened Prelude
  import opened Guarding
  import opened Flattening
  import opened DryRun

  // ---- the log tells the truth -----------------------------------------

  function StateIn(c: Code, states: map<LeafId, State>, id: LeafId): State {
    if id in states then states[id] else c.initial(id)
  }

  /** The leaves' states after these calls, each hook having run in the state its leaf was in. */
  function StatesAfter(c: Code, calls: seq<Call>): map<LeafId, State> {
    if calls == [] then map[]
    else
      var states := StatesAfter(c, calls[..|calls| - 1]);
      match calls[|calls| - 1]
      case PreCall(id, args, _) =>
        if c.pre(id).None? then states else states[id := c.pre(id).value(StateIn(c, states, id), args).0]
      case PostCall(id, args, result, _) =>
        if c.post(id).None? then states else states[id := c.post(id).value(StateIn(c, states, id), args, result).0]
  }

  /** The answer is the hook's own, from the state its leaf is in. */
  predicate AnswersTruly(c: Code, states: map<LeafId, State>, call: Call) {
    match call
    case PreCall(id, args, answer) => c.pre(id).Some? && answer == c.pre(id).value(StateIn(c, states, id), args).1
    case PostCall(id, args, result, reply) =>
      c.post(id).Some? && reply == c.post(id).value(StateIn(c, states, id), args, result).1
  }

  ghost predicate Truthful(c: Code, calls: seq<Call>) {
    calls == [] ||
    var earlier := calls[..|calls| - 1];
    Truthful(c, earlier) && AnswersTruly(c, StatesAfter(c, earlier), calls[|calls| - 1])
  }

  /** The leaves are in the states that the calls so far have put them in, and every logged answer is true. */
  ghost predicate Logged(c: Code, w: World) {
    w.states == StatesAfter(c, w.calls) && Truthful(c, w.calls)
  }

  lemma LeafIsLogged(c: Code, id: LeafId, w: World, args: Args, result: Result)
    requires Logged(c, w)
    ensures c.pre(id).Some? ==> Logged(c, LeafPre(c, id, w, args).0)
    ensures c.post(id).Some? ==> Logged(c, LeafPost(c, id, w, args, result).0)
  {
    if c.pre(id).Some? { assert LeafPre(c, id, w, args).0.calls[..|w.calls|] == w.calls; }
    if c.post(id).Some? { assert LeafPost(c, id, w, args, result).0.calls[..|w.calls|] == w.calls; }
  }

  lemma {:induction false} PreIsLogged(c: Code, p: Policy, w: World, args: Args)
    requires HasPre(c, p) && Logged(c, w)
    ensures Logged(c, CheckPre(c, p, w, args).0)
    decreases p
  {
    match p
    case Leaf(id) => LeafIsLogged(c, id, w, args, None);
    case AllOf(subs) => AllPreIsLogged(c, subs, w, args);
    case AnyOf(subs) => AnyPreIsLogged(c, subs, w, args, None);
  }

  lemma {:induction false} AllPreIsLogged(c: Code, subs: seq<Policy>, w: World, args: Args)
    requires Logged(c, w)
    ensures Logged(c, AllPre(c, subs, w, args).0)
    decreases subs
  {
    if subs != [] {
      if HasPre(c, subs[0]) {
        PreIsLogged(c, subs[0], w, args);
        AllPreIsLogged(c, subs[1..], CheckPre(c, subs[0], w, args).0, args);
      } else {
        AllPreIsLogged(c, subs[1..], w, args);
      }
    }
  }

  lemma {:induction false} AnyPreIsLogged(c: Code, subs: seq<Policy>, w: World, args: Args, last: Option<Violation>)
    requires Logged(c, w)
    ensures Logged(c, AnyPre(c, subs, w, args, last).0)
    decreases subs
  {
    if subs != [] && HasPre(c, subs[0]) {
      PreIsLogged(c, subs[0], w, args);
      var (w', r) := CheckPre(c, subs[0], w, args);
      if r.Raised? && r.e.Violated? { AnyPreIsLogged(c, subs[1..], w', args, Some(r.e.v)); }
    }
  }

  lemma {:induction false} PostIsLogged(c: Code, p: Policy, w: World, args: Args, result: Result)
    requires HasPost(c, p) && Logged(c, w)
    ensures Logged(c, CheckPost(c, p, w, args, result).0)
    decreases p
  {
    match p
    case Leaf(id) => LeafIsLogged(c, id, w, args, result);
    case AllOf(subs) => ThreadIsLogged(c, subs, w, args, Threaded(result, false));
    case AnyOf(subs) => AnyPostIsLogged(c, subs, w, args, result, None);
  }

  lemma {:induction false} ThreadIsLogged(c: Code, subs: seq<Policy>, w: World, args: Args, t: Threaded)
    requires Logged(c, w)
    ensures Logged(c, Thread(c, subs, w, args, t).0)
    decreases subs
  {
    if subs != [] {
      if HasPost(c, subs[0]) {
        PostIsLogged(c, subs[0], w, args, t.current);
        var (w', r) := CheckPost(c, subs[0], w, args, t.current);
        if r.Done? { ThreadIsLogged(c, subs[1..], w', args, Replace(t, r.value)); }
      } else {
        ThreadIsLogged(c, subs[1..], w, args, t);
      }
    }
  }

  lemma {:induction false} AnyPostIsLogged(c: Code, subs: seq<Policy>, w: World, args: Args, result: Result,
                                           last: Option<Violation>)
    requires Logged(c, w)
    ensures Logged(c, AnyPost(c, subs, w, args, result, last).0)
    decreases subs
  {
    if subs != [] && HasPost(c, subs[0]) {
      PostIsLogged(c, subs[0], w, args, result);
      var (w', r) := CheckPost(c, subs[0], w, args, result);
      if r.Raised? && r.e.Violated? { AnyPostIsLogged(c, subs[1..], w', args, result, Some(r.e.v)); }
    }
  }

  lemma {:induction false} RunPreIsLogged(c: Code, policies: seq<Policy>, s: Session, args: Args)
    requires Logged(c, s.world)
    ensures Logged(c, RunPre(c, policies, s, args).0.world)
  {
    if policies != [] {
      if HasPre(c, policies[0]) {
        PreIsLogged(c, policies[0], s.world, args);
        var (w, r) := CheckPre(c, policies[0], s.world, args);
        RunPreIsLogged(c, policies[1..], AfterHook(c, s.(world := w), r).0, args);
      } else {
        RunPreIsLogged(c, policies[1..], s, args);
      }
    }
  }

  lemma {:induction false} RunPostIsLogged(c: Code, policies: seq<Policy>, s: Session, args: Args, result: Result)
    requires Logged(c, s.world)
    ensures Logged(c, RunPost(c, policies, s, args, result).0.world)
  {
    if policies != [] {
      if HasPost(c, policies[0]) {
        PostIsLogged(c, policies[0], s.world, args, result);
        var (w, r) := CheckPost(c, policies[0], s.world, args, result);
        RunPostIsLogged(c, policies[1..], AfterHook(c, s.(world := w), r).0, args,
                        if r.Done? && r.value.Some? then r.value else result);
      } else {
        RunPostIsLogged(c, policies[1..], s, args, result);
      }
    }
  }

  /** However policies are nested and in either mode, every hook runs in the state its leaf's own earlier calls left,
      what is logged of it is what it answered, and no leaf's state changes otherwise. */
  lemma CallsAreLogged(c: Code, policies: seq<Policy>, s: Session, args: Args)
    requires Logged(c, s.world)
    ensures Logged(c, Invoke(c, policies, s, args).0.world)
  {
    RunPreIsLogged(c, policies, s, args);
    var (s1, before) := RunPre(c, policies, s, args);
    if before.Done? {
      var (agent, r) := c.agent(s1.agent, args);
      if r.Done? { RunPostIsLogged(c, policies, s1.(agent := agent, invoked := s1.invoked + 1), args, r.value); }
    }
  }

  // ---- the phases of a call --------------------------------------------

  /** From one log to the other only pre-hooks were called, with these arguments. */
  ghost predicate PrePhase(from: seq<Call>, to: seq<Call>, args: Args) {
    && |from| <= |to| && to[..|from|] == from
    && forall i :: |from| <= i < |to| ==> to[i].PreCall? && to[i].args == args
  }

  /** From one log to the other only post-hooks were called, with these arguments, and the first of them with `first`.
      */
  ghost predicate PostPhase(from: seq<Call>, to: seq<Call>, args: Args, first: Result) {
    && |from| <= |to| && to[..|from|] == from
    && (forall i :: |from| <= i < |to| ==> to[i].PostCall? && to[i].args == args)
    && (|from| < |to| ==> to[|from|].result == first)
  }

  /** None of the post-hooks called since raised or replaced anything. */
  ghost predicate Quiet(from: seq<Call>, to: seq<Call>)
    requires |from| <= |to|
  {
    forall i :: |from| <= i < |to| && to[i].PostCall? ==> to[i].reply == Done(None)
  }

  lemma PrePhaseTwice(a: seq<Call>, b: seq<Call>, d: seq<Call>, args: Args)
    requires PrePhase(a, b, args) && PrePhase(b, d, args)
    ensures PrePhase(a, d, args)
  {
    assert d[..|a|] == d[..|b|][..|a|];
    assert forall i :: |a| <= i < |b| ==> d[i] == d[..|b|][i];
  }

  lemma PostPhaseTwice(a: seq<Call>, b: seq<Call>, d: seq<Call>, args: Args, first: Result, second: Result)
    requires PostPhase(a, b, args, first) && PostPhase(b, d, args, second) && (|a| == |b| ==> second == first)
    ensures PostPhase(a, d, args, first) && (Quiet(a, d) <==> Quiet(a, b) && Quiet(b, d))
  {
    assert d[..|a|] == d[..|b|][..|a|];
    assert forall i :: |a| <= i < |b| ==> d[i] == d[..|b|][i];
  }

  lemma {:induction false} PreHasPhase(c: Code, p: Policy, w: World, args: Args)
    requires HasPre(c, p)
    ensures PrePhase(w.calls, CheckPre(c, p, w, args).0.calls, args)
    decreases p
  {
    match p
    case Leaf(id) =>
    case AllOf(subs) => AllPreHasPhase(c, subs, w, args);
    case AnyOf(subs) => AnyPreHasPhase(c, subs, w, args, None);
  }

  lemma {:induction false} AllPreHasPhase(c: Code, subs: seq<Policy>, w: World, args: Args)
    ensures PrePhase(w.calls, AllPre(c, subs, w, args).0.calls, args)
    decreases subs
  {
    if subs != [] {
      if HasPre(c, subs[0]) {
        var w' := CheckPre(c, subs[0], w, args).0;
        PreHasPhase(c, subs[0], w, args);
        AllPreHasPhase(c, subs[1..], w', args);
        PrePhaseTwice(w.calls, w'.calls, AllPre(c, subs[1..], w', args).0.calls, args);
      } else {
        AllPreHasPhase(c, subs[1..], w, args);
      }
    }
  }

  lemma {:induction false} AnyPreHasPhase(c: Code, subs: seq<Policy>, w: World, args: Args, last: Option<Violation>)
    ensures PrePhase(w.calls, AnyPre(c, subs, w, args, last).0.calls, args)
    decreases subs
  {
    if subs != [] && HasPre(c, subs[0]) {
      var (w', r) := CheckPre(c, subs[0], w, args);
      PreHasPhase(c, subs[0], w, args);
      if r.Raised? && r.e.Violated? {
        AnyPreHasPhase(c, subs[1..], w', args, Some(r.e.v));
        PrePhaseTwice(w.calls, w'.calls, AnyPre(c, subs[1..], w', args, Some(r.e.v)).0.calls, args);
      }
    }
  }

  lemma {:induction false} PostHasPhase(c: Code, p: Policy, w: World, args: Args, result: Result)
    requires HasPost(c, p)
    ensures var (w', r) := CheckPost(c, p, w, args, result);
            PostPhase(w.calls, w'.calls, args, result) && (Quiet(w.calls, w'.calls) ==> r == Done(None))
    decreases p
  {
    match p
    case Leaf(id) =>
      var (w', r) := LeafPost(c, id, w, args, result);
      assert w'.calls[|w.calls|].reply == r;
    case AllOf(subs) => ThreadHasPhase(c, subs, w, args, Threaded(result, false));
    case AnyOf(subs) => AnyPostHasPhase(c, subs, w, args, result, None);
  }

  lemma {:induction false} ThreadHasPhase(c: Code, subs: seq<Policy>, w: World, args: Args, t: Threaded)
    ensures var (w', r) := Thread(c, subs, w, args, t);
            PostPhase(w.calls, w'.calls, args, t.current) && (Quiet(w.calls, w'.calls) ==> r == Done(t))
    decreases subs
  {
    if subs != [] {
      if HasPost(c, subs[0]) {
        var (w', r) := CheckPost(c, subs[0], w, args, t.current);
        PostHasPhase(c, subs[0], w, args, t.current);
        if r.Done? {
          var t' := Replace(t, r.value);
          ThreadHasPhase(c, subs[1..], w', args, t');
          PostPhaseTwice(w.calls, w'.calls, Thread(c, subs[1..], w', args, t').0.calls, args, t.current, t'.current);
        }
      } else {
        ThreadHasPhase(c, subs[1..], w, args, t);
      }
    }
  }

  lemma {:induction false} AnyPostHasPhase(c: Code, subs: seq<Policy>, w: World, args: Args, result: Result,
                                           last: Option<Violation>)
    ensures var (w', r) := AnyPost(c, subs, w, args, result, last);
            PostPhase(w.calls, w'.calls, args, result) && (Quiet(w.calls, w'.calls) && last == None ==> r == Done(None))
    decreases subs
  {
    if subs != [] && HasPost(c, subs[0]) {
      var (w', r) := CheckPost(c, subs[0], w, args, result);
      PostHasPhase(c, subs[0], w, args, result);
      if r.Raised? && r.e.Violated? {
        AnyPostHasPhase(c, subs[1..], w', args, result, Some(r.e.v));
        PostPhaseTwice(w.calls, w'.calls, AnyPost(c, subs[1..], w', args, result, Some(r.e.v)).0.calls, args, result,
            result);
      }
    }
  }

  lemma {:induction false} RunPreHasPhase(c: Code, policies: seq<Policy>, s: Session, args: Args)
    ensures var (s', r) := RunPre(c, policies, s, args);
            PrePhase(s.world.calls, s'.world.calls, args) && s'.agent == s.agent && s'.invoked == s.invoked
  {
    if policies != [] {
      if HasPre(c, policies[0]) {
        var (w, r) := CheckPre(c, policies[0], s.world, args);
        var (s', h) := AfterHook(c, s.(world := w), r);
        PreHasPhase(c, policies[0], s.world, args);
        if h.Done? {
          RunPreHasPhase(c, policies[1..], s', args);
          PrePhaseTwice(s.world.calls, w.calls, RunPre(c, policies[1..], s', args).0.world.calls, args);
        }
      } else {
        RunPreHasPhase(c, policies[1..], s, args);
      }
    }
  }

  lemma {:induction false} RunPostHasPhase(c: Code, policies: seq<Policy>, s: Session, args: Args, result: Result)
    ensures var (s', r) := RunPost(c, policies, s, args, result);
            && PostPhase(s.world.calls, s'.world.calls, args, result)
            && (Quiet(s.world.calls, s'.world.calls) ==> r == Done(result))
            && s'.agent == s.agent && s'.invoked == s.invoked
  {
    if policies != [] {
      if HasPost(c, policies[0]) {
        var (w, r) := CheckPost(c, policies[0], s.world, args, result);
        var (s', h) := AfterHook(c, s.(world := w), r);
        PostHasPhase(c, policies[0], s.world, args, result);
        if h.Done? {
          var next := if r.Done? && r.value.Some? then r.value else result;
          RunPostHasPhase(c, policies[1..], s', args, next);
          var end := RunPost(c, policies[1..], s', args, next).0;
          PostPhaseTwice(s.world.calls, w.calls, end.world.calls, args, result, next);
        }
      } else {
        RunPostHasPhase(c, policies[1..], s, args, result);
      }
    }
  }

  /** What any guarded call does, in either mode and with any nesting: first pre-hooks, then the agent at most once,
      in its present state, then post-hooks, all with the caller's arguments. An exception before the agent keeps it
      from running; the agent's own exception is the call's. Otherwise the first post-hook called is given the agent's
      result, and if no post-hook raises or replaces anything that result is the call's. */
  lemma CallInPlainTerms(c: Code, policies: seq<Policy>, s: Session, args: Args)
    ensures var (s', r) := Invoke(c, policies, s, args);
            var (agent, result) := c.agent(s.agent, args);
            exists mid :: PrePhase(s.world.calls, mid, args)
              && if s'.invoked == s.invoked then s'.world.calls == mid && s'.agent == s.agent && r.Raised?
                 else
                   && s'.invoked == s.invoked + 1 && s'.agent == agent
                   && if result.Raised? then s'.world.calls == mid && r == result
                      else PostPhase(mid, s'.world.calls, args, result.value)
                           && (Quiet(mid, s'.world.calls) ==> r == result)
  {
    RunPreHasPhase(c, policies, s, args);
    var (s1, before) := RunPre(c, policies, s, args);
    assert PrePhase(s.world.calls, s1.world.calls, args);
    if before.Done? {
      var (agent, r) := c.agent(s1.agent, args);
      var s2 := s1.(agent := agent, invoked := s1.invoked + 1);
      if r.Done? { RunPostHasPhase(c, policies, s2, args, r.value); }
    }
  }

  // ---- lists of leaves: every hook once, and what each is given --------

  predicate AllLeaves(policies: seq<Policy>) {
    forall i :: 0 <= i < |policies| ==> policies[i].Leaf?
  }

  /** The leaves that have the pre-hook, in order. */
  function PreIds(c: Code, policies: seq<Policy>): seq<LeafId>
    requires AllLeaves(policies)
  {
    if policies == [] then []
    else (if c.pre(policies[0].id).Some? then [policies[0].id] else []) + PreIds(c, policies[1..])
  }

  function PostIds(c: Code, policies: seq<Policy>): seq<LeafId>
    requires AllLeaves(policies)
  {
    if policies == [] then []
    else (if c.post(policies[0].id).Some? then [policies[0].id] else []) + PostIds(c, policies[1..])
  }

  /** What the next post-hook is given after this call: the replacement, if there was one. */
  function Passed(call: Call): Result
    requires call.PostCall?
  {
    if call.reply.Done? && call.reply.value.Some? then call.reply.value else call.result
  }

  function Left(first: Result, calls: seq<Call>): Result
    requires forall i :: 0 <= i < |calls| ==> calls[i].PostCall?
  {
    if calls == [] then first else Passed(calls[|calls| - 1])
  }

  /** The first post-hook is given `first`, each later one what the one before it passed on. */
  ghost predicate Chain(first: Result, calls: seq<Call>, args: Args, ids: seq<LeafId>) {
    && |calls| <= |ids|
    && (forall i :: 0 <= i < |calls| ==> calls[i].PostCall? && calls[i].id == ids[i] && calls[i].args == args)
    && (forall i :: 0 <= i < |calls| ==> calls[i].result == Left(first, calls[..i]))
  }

  ghost predicate InOrder(calls: seq<Call>, args: Args, ids: seq<LeafId>) {
    && |calls| <= |ids|
    && forall i :: 0 <= i < |calls| ==> calls[i].PreCall? && calls[i].id == ids[i] && calls[i].args == args
  }

  lemma LeftOneMore(first: Result, call: Call, calls: seq<Call>)
    requires call.PostCall? && forall i :: 0 <= i < |calls| ==> calls[i].PostCall?
    ensures forall i :: 0 <= i < |[call] + calls| ==> ([call] + calls)[i].PostCall?
    ensures Left(first, [call] + calls) == Left(Passed(call), calls)
  {
    assert forall i :: 0 < i < |[call] + calls| ==> ([call] + calls)[i] == calls[i - 1];
  }

  lemma ChainOneMore(first: Result, call: Call, calls: seq<Call>, args: Args, ids: seq<LeafId>)
    requires call.PostCall? && call.result == first && call.args == args && Chain(Passed(call), calls, args, ids)
    ensures Chain(first, [call] + calls, args, [call.id] + ids)
    ensures Left(first, [call] + calls) == Left(Passed(call), calls)
  {
    var all := [call] + calls;
    assert forall i :: 0 < i < |all| ==> all[i] == calls[i - 1] && ([call.id] + ids)[i] == ids[i - 1];
    forall i | 0 < i < |all| ensures all[i].result == Left(first, all[..i]) {
      assert all[..i] == [call] + calls[..i - 1];
      assert calls[i - 1].result == Left(Passed(call), calls[..i - 1]);
      LeftOneMore(first, call, calls[..i - 1]);
    }
    LeftOneMore(first, call, calls);
  }

  /** How a violation or failure of a hook ends the call: enforcing, as the handler says; under dry run only a
      failure. */
  ghost predicate EndsWith(c: Code, e: Exn, cause: Exn) {
    e == match cause case Violated(v) => RaisedFor(c, v) case Failed(f) => Failed(f)
  }

  lemma {:induction false} LeavesRunPre(c: Code, policies: seq<Policy>, s: Session, args: Args)
      returns (calls: seq<Call>)
    requires AllLeaves(policies)
    ensures var (s', r) := RunPre(c, policies, s, args);
            && s'.world.calls == s.world.calls + calls && InOrder(calls, args, PreIds(c, policies))
            && (r.Done? ==> |calls| == |PreIds(c, policies)|)
            && (r.Raised? ==> calls != [] && calls[|calls| - 1].answer.Raised?
                              && EndsWith(c, r.e, calls[|calls| - 1].answer.e))
            && (s.buffer.None? ==>
                  forall i :: 0 <= i < |calls| && calls[i].answer.Raised? ==> i == |calls| - 1 && r.Raised?)
  {
    calls := [];
    if policies != [] {
      if HasPre(c, policies[0]) {
        var (w, r) := CheckPre(c, policies[0], s.world, args);
        var (s', h) := AfterHook(c, s.(world := w), r);
        var call := PreCall(policies[0].id, args, r);
        if h.Done? {
          var later := LeavesRunPre(c, policies[1..], s', args);
          calls := [call] + later;
          assert w.calls + later == s.world.calls + calls;
        } else {
          calls := [call];
        }
      } else {
        calls := LeavesRunPre(c, policies[1..], s, args);
      }
    }
  }

  /** How the post-hooks end: with what the last one passed on, after all of them, or with the exception of the last one
      called; enforcing, none but that one raised. */
  ghost predicate PostsEnd(c: Code, enforcing: bool, first: Result, calls: seq<Call>, ids: seq<LeafId>,
                           r: Outcome<Result>)
    requires forall i :: 0 <= i < |calls| ==> calls[i].PostCall?
  {
    && (r.Done? ==> |calls| == |ids| && r.value == Left(first, calls))
    && (r.Raised? ==>
          calls != [] && calls[|calls| - 1].reply.Raised? && EndsWith(c, r.e, calls[|calls| - 1].reply.e))
    && (enforcing ==> forall i :: 0 <= i < |calls| && calls[i].reply.Raised? ==> i == |calls| - 1 && r.Raised?)
  }

  lemma PostsEndLater(c: Code, enforcing: bool, call: Call, calls: seq<Call>, ids: seq<LeafId>, r: Outcome<Result>)
    requires call.PostCall? && (enforcing ==> call.reply.Done?) && forall i :: 0 <= i < |calls| ==> calls[i].PostCall?
    requires PostsEnd(c, enforcing, Passed(call), calls, ids, r)
    ensures forall i :: 0 <= i < |[call] + calls| ==> ([call] + calls)[i].PostCall?
    ensures PostsEnd(c, enforcing, call.result, [call] + calls, [call.id] + ids, r)
  {
    var all := [call] + calls;
    assert all[0] == call && forall i :: 0 < i < |all| ==> all[i] == calls[i - 1];
  }

  lemma {:induction false} LeavesRunPost(c: Code, policies: seq<Policy>, s: Session, args: Args, result: Result)
    returns (calls: seq<Call>)
    requires AllLeaves(policies)
    ensures RunPost(c, policies, s, args, result).0.world.calls == s.world.calls + calls
    ensures Chain(result, calls, args, PostIds(c, policies))
    ensures PostsEnd(c, s.buffer.None?, result, calls, PostIds(c, policies), RunPost(c, policies, s, args, result).1)
  {
    calls := [];
    if policies != [] {
      if HasPost(c, policies[0]) {
        var (w, r) := CheckPost(c, policies[0], s.world, args, result);
        var (s', h) := AfterHook(c, s.(world := w), r);
        var call := PostCall(policies[0].id, args, result, r);
        if h.Done? {
          var later := LeavesRunPost(c, policies[1..], s', args, Passed(call));
          ChainOneMore(result, call, later, args, PostIds(c, policies[1..]));
          PostsEndLater(c, s.buffer.None?, call, later, PostIds(c, policies[1..]),
                        RunPost(c, policies[1..], s', args, Passed(call)).1);
          Regroup(s.world.calls, [call], later);
          calls := [call] + later;
        } else {
          calls := [call];
        }
      } else {
        calls := LeavesRunPost(c, policies[1..], s, args, result);
      }
    }
  }

  /** The hook calls of a call: pre-hooks, then post-hooks that pass the agent's result along. */
  ghost predicate CallsAre(c: Code, leaves: seq<Policy>, s: Session, s': Session, args: Args, pre: seq<Call>,
                           post: seq<Call>)
    requires AllLeaves(leaves)
  {
    && s'.world.calls == s.world.calls + pre + post
    && InOrder(pre, args, PreIds(c, leaves))
    && (post != [] ==> c.agent(s.agent, args).1.Done?
                       && Chain(c.agent(s.agent, args).1.value, post, args, PostIds(c, leaves)))
  }

  /** How it ends, told from those calls: with what the last post-hook passed on, after every hook had its turn; with
      the agent's exception; or with the exception of the hook that was called last. */
  ghost predicate EndIs(c: Code, leaves: seq<Policy>, s: Session, args: Args, pre: seq<Call>, post: seq<Call>,
                        r: Outcome<Result>)
    requires AllLeaves(leaves) && (forall i :: 0 <= i < |pre| ==> pre[i].PreCall?)
    requires forall i :: 0 <= i < |post| ==> post[i].PostCall?
  {
    var result := c.agent(s.agent, args).1;
    match r
    case Done(value) =>
      |pre| == |PreIds(c, leaves)| && |post| == |PostIds(c, leaves)| && result.Done?
          && value == Left(result.value, post)
    case Raised(e) =>
      || (post == [] && |pre| == |PreIds(c, leaves)| && r == result)
      || (post == [] && pre != [] && pre[|pre| - 1].answer.Raised? && EndsWith(c, e, pre[|pre| - 1].answer.e))
      || (post != [] && post[|post| - 1].reply.Raised? && EndsWith(c, e, post[|post| - 1].reply.e))
  }

  /** No hook but the one called last has raised anything. */
  ghost predicate StopsAtOnce(pre: seq<Call>, post: seq<Call>)
    requires (forall i :: 0 <= i < |pre| ==> pre[i].PreCall?) && (forall i :: 0 <= i < |post| ==> post[i].PostCall?)
  {
    && (forall i :: 0 <= i < |pre| && pre[i].answer.Raised? ==> i == |pre| - 1 && post == [])
    && (forall i :: 0 <= i < |post| && post[i].reply.Raised? ==> i == |post| - 1)
  }

  /** A call guarded by a list of leaves, exactly: the pre-hooks once each in order, the agent, the post-hooks once
      each in order, the first given the agent's result and each later one what the one before passed on, until one
      ends the call; enforcing, the first that raises does. The value returned is the last one passed on. */
  lemma LeavesInPlainTerms(c: Code, leaves: seq<Policy>, s: Session, args: Args)
      returns (pre: seq<Call>, post: seq<Call>)
    requires AllLeaves(leaves)
    ensures forall i :: 0 <= i < |pre| ==> pre[i].PreCall?
    ensures forall i :: 0 <= i < |post| ==> post[i].PostCall?
    ensures CallsAre(c, leaves, s, Invoke(c, leaves, s, args).0, args, pre, post)
    ensures EndIs(c, leaves, s, args, pre, post, Invoke(c, leaves, s, args).1)
    ensures s.buffer.None? ==> StopsAtOnce(pre, post)
  {
    pre := LeavesRunPre(c, leaves, s, args);
    post := [];
    RunPreHasPhase(c, leaves, s, args);
    PreKeepsMode(c, leaves, s, args);
    var (s1, before) := RunPre(c, leaves, s, args);
    if before.Done? {
      var (agent, r) := c.agent(s1.agent, args);
      var s2 := s1.(agent := agent, invoked := s1.invoked + 1);
      if r.Done? { post := LeavesRunPost(c, leaves, s2, args, r.value); }
    }
  }

  /** No AnyOf at any depth. */
  predicate NoAnyOf(policies: seq<Policy>)
    decreases policies
  {
    forall i :: 0 <= i < |policies| ==> !policies[i].AnyOf? && (policies[i].AllOf? ==> NoAnyOf(policies[i].subs))
  }

  lemma {:induction false} FlatteningLeavesLeaves(policies: seq<Policy>)
    requires NoAnyOf(policies)
    ensures AllLeaves(Flatten(policies))
    decreases policies
  {
    if policies != [] {
      FlatteningLeavesLeaves(policies[1..]);
      if policies[0].AllOf? { FlatteningLeavesLeaves(policies[0].subs); }
    }
  }

  /** Enforcing, the same holds of any nesting of AllOf, for the leaves in the order in which they are written. */
  lemma NestedCallInPlainTerms(c: Code, policies: seq<Policy>, s: Session, args: Args)
    returns (pre: seq<Call>, post: seq<Call>)
    requires NoAnyOf(policies) && s.buffer.None?
    ensures AllLeaves(Flatten(policies))
    ensures forall i :: 0 <= i < |pre| ==> pre[i].PreCall?
    ensures forall i :: 0 <= i < |post| ==> post[i].PostCall?
    ensures CallsAre(c, Flatten(policies), s, Invoke(c, policies, s, args).0, args, pre, post)
    ensures EndIs(c, Flatten(policies), s, args, pre, post, Invoke(c, policies, s, args).1)
    ensures StopsAtOnce(pre, post)
  {
    FlatteningLeavesLeaves(policies);
    FlatteningPreservesMeaning(c, policies, s, args);
    pre, post := LeavesInPlainTerms(c, Flatten(policies), s, args);
  }

  // ---- alternatives ----------------------------------------------------

  /** The pre-hooks an AnyOf tries: in order, all but the last raised a violation. */
  ghost predicate TriedPre(calls: seq<Call>, args: Args, subs: seq<Policy>)
    requires AllLeaves(subs)
  {
    && |calls| <= |subs|
    && (forall i :: 0 <= i < |calls| ==> calls[i].PreCall? && calls[i].id == subs[i].id && calls[i].args == args)
    && forall i :: 0 <= i < |calls| - 1 ==> calls[i].answer.Raised? && calls[i].answer.e.Violated?
  }

  ghost predicate TriedPost(calls: seq<Call>, args: Args, result: Result, subs: seq<Policy>)
    requires AllLeaves(subs)
  {
    && |calls| <= |subs|
    && (forall i :: 0 <= i < |calls| ==>
          calls[i].PostCall? && calls[i].id == subs[i].id && calls[i].args == args && calls[i].result == result)
    && forall i :: 0 <= i < |calls| - 1 ==> calls[i].reply.Raised? && calls[i].reply.e.Violated?
  }

  /** How trying alternatives ends, from the answers they gave: the first that is no violation is the answer; an
      alternative without the hook passes; if all are used up, the last violation stands, and no alternative at all
      passes. `missing` says whether the next alternative lacks the hook. */
  ghost predicate Settles<T>(answers: seq<Outcome<T>>, alternatives: nat, missing: bool, pass: Outcome<T>,
                             r: Outcome<T>) {
    if answers != [] && !(answers[|answers| - 1].Raised? && answers[|answers| - 1].e.Violated?) then
      r == answers[|answers| - 1]
    else if missing then r == pass
    else |answers| == alternatives && r == if answers == [] then pass else answers[|answers| - 1]
  }

  function AnswersOf(calls: seq<Call>): (r: seq<Outcome<()>>)
    requires forall i :: 0 <= i < |calls| ==> calls[i].PreCall?
  {
    seq(|calls|, i requires 0 <= i < |calls| => calls[i].answer)
  }

  function RepliesOf(calls: seq<Call>): (r: seq<Outcome<Result>>)
    requires forall i :: 0 <= i < |calls| ==> calls[i].PostCall?
  {
    seq(|calls|, i requires 0 <= i < |calls| => calls[i].reply)
  }

  /** An AnyOf of leaves tries its pre-hooks in order up to the first that does not raise a violation. */
  lemma {:induction false} AnyOfPreInPlainTerms(c: Code, subs: seq<Policy>, w: World, args: Args,
                                                last: Option<Violation>)
    returns (calls: seq<Call>)
    requires AllLeaves(subs)
    ensures AnyPre(c, subs, w, args, last).0.calls == w.calls + calls && TriedPre(calls, args, subs)
    ensures calls == [] && subs == [] && last.Some? ==> AnyPre(c, subs, w, args, last).1 == Raised(Violated(last.value))
    ensures calls != [] || subs != [] || last == None ==>
              Settles(AnswersOf(calls), |subs|, |calls| < |subs| && !HasPre(c, subs[|calls|]), Done(()),
                      AnyPre(c, subs, w, args, last).1)
  {
    calls := [];
    if subs != [] && HasPre(c, subs[0]) {
      var (w', r) := CheckPre(c, subs[0], w, args);
      var call := PreCall(subs[0].id, args, r);
      calls := [call];
      if r.Raised? && r.e.Violated? {
        var later := AnyOfPreInPlainTerms(c, subs[1..], w', args, Some(r.e.v));
        calls := [call] + later;
        Regroup(w.calls, [call], later);
        assert AnswersOf(calls) == [r] + AnswersOf(later);
      }
    }
  }

  /** Its post-hooks likewise, each given the AnyOf's own result. */
  lemma {:induction false} AnyOfPostInPlainTerms(c: Code, subs: seq<Policy>, w: World, args: Args, result: Result,
                                                 last: Option<Violation>) returns (calls: seq<Call>)
    requires AllLeaves(subs)
    ensures AnyPost(c, subs, w, args, result, last).0.calls == w.calls + calls && TriedPost(calls, args, result, subs)
    ensures calls == [] && subs == [] && last.Some? ==>
              AnyPost(c, subs, w, args, result, last).1 == Raised(Violated(last.value))
    ensures calls != [] || subs != [] || last == None ==>
              Settles(RepliesOf(calls), |subs|, |calls| < |subs| && !HasPost(c, subs[|calls|]), Done(None),
                      AnyPost(c, subs, w, args, result, last).1)
  {
    calls := [];
    if subs != [] && HasPost(c, subs[0]) {
      var (w', r) := CheckPost(c, subs[0], w, args, result);
      var call := PostCall(subs[0].id, args, result, r);
      calls := [call];
      if r.Raised? && r.e.Violated? {
        var later := AnyOfPostInPlainTerms(c, subs[1..], w', args, result, Some(r.e.v));
        calls := [call] + later;
        Regroup(w.calls, [call], later);
        assert RepliesOf(calls) == [r] + RepliesOf(later);
      }
    }
  }
}
