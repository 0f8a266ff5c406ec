/** UCB1 behind the facade: what exploration means for whole runs of routed calls (atlas/router.py, atlas/bandit.py). */
module RoutedLearning {
  import opened Prelude
  import opened ProviderHealths
  import opened Bandits
  import S = NoStarvation
  import opened Routing
  import opened Cascading
  import opened Ledgers

  /** The run of the bandit that these steps amount to, seen from the context and the candidates in question. */
  function Played(t: Tuning, arms: Arms, names: seq<Name>, ctx: Context, events: seq<S.Event>): Arms
    requires names != []
  {
    S.Run(t, arms, names, ctx, events)
  }

  lemma {:induction false} PlayedTwice(t: Tuning, arms: Arms, names: seq<Name>, ctx: Context, a: seq<S.Event>,
                                       b: seq<S.Event>)
    requires names != []
    ensures Played(t, arms, names, ctx, a + b) == Played(t, Played(t, arms, names, ctx, a), names, ctx, b)
    ensures S.Rounds(a + b) == S.Rounds(a) + S.Rounds(b)
  {
    if b == [] {
      assert a + b == a;
    } else {
      var n := |b| - 1;
      assert (a + b)[..|a + b| - 1] == a + b[..n];
      PlayedTwice(t, arms, names, ctx, a, b[..n]);
    }
  }

  // ---- one step --------------------------------------------------------

  /** The call is routed in this context, by the installed selector, among exactly these survivors. */
  predicate Serves(n: Net, a: Action, names: seq<Name>, ctx: Context) {
    a.Invoke? && a.q.override.Installed? && a.q.ctx == ctx && Healthy(n, a.q) == names
  }

  function Reported(name: Name, success: bool, ctx: Context, stamp: real): S.Event {
    S.Observe(OutcomeOf(name, success, ctx, stamp))
  }

  function AttemptsReported(attempts: seq<Attempt>, ctx: Context, xs: seq<Exchange>): seq<S.Event>
    requires |attempts| <= |xs|
  {
    if attempts == [] then []
    else
      TurnReported(attempts[0], ctx, xs[0]) + AttemptsReported(attempts[1..], ctx, xs[1..])
  }

  function TurnReported(a: Attempt, ctx: Context, x: Exchange): seq<S.Event> {
    if Called(a) then [Reported(a.name, x.reply.Returned?, ctx, x.stamp)] else []
  }

  function CascadeEvents(n: Net, c: Config, at: Context, xs: seq<Exchange>): seq<S.Event>
    requires |xs| == |c.providers|
  {
    CascadeOutcomeIsExact(n, c, at, xs);
    AttemptsReported(RunOf(n, c, at, xs).1.attempts, at, xs)
  }

  function ServedEvent(success: bool, stamp: real): S.Event {
    S.Serve(S.Feedback(success, if success then 1.0 else 0.0, stamp))
  }

  /** A call routed among other survivors or in another context. */
  function OtherEvents(n: Net, q: Query, success: bool, stamp: real): seq<S.Event> {
    var chosen := ChosenBy(n, q);
    if chosen.None? then [S.Look(Healthy(n, q), q.ctx)]
    else [S.Look(Healthy(n, q), q.ctx), Reported(chosen.value, success, q.ctx, stamp)]
  }

  /** What a step of the facade is to an installed UCB1 bandit. */
  function EventsOf(n: Net, a: Action, names: seq<Name>, ctx: Context): seq<S.Event>
    requires WellFormed(a)
  {
    match a
    case Route(q) => if q.override.Installed? && Healthy(n, q) != [] then [S.Look(Healthy(n, q), q.ctx)] else []
    case Invoke(q, reply, now, stamp) =>
      if !q.override.Installed? || Healthy(n, q) == [] then []
      else if Serves(n, a, names, ctx) then [ServedEvent(reply.Returned?, stamp)]
      else
        OtherEvents(n, q, reply.Returned?, stamp)
    case RunCascade(c, at, xs) => CascadeEvents(n, c, at, xs)
    case Feedback(o) => [S.Observe(o)]
    case _ => []
  }

  lemma OneEvent(t: Tuning, arms: Arms, names: seq<Name>, ctx: Context, e: S.Event)
    requires names != []
    ensures Played(t, arms, names, ctx, [e]) == S.Step(t, arms, names, ctx, e)
    ensures S.Rounds([e]) == if e.Serve? then 1 else 0
    ensures Played(t, arms, names, ctx, []) == arms && S.Rounds([]) == 0
  {
    assert [e][..0] == [];
    assert S.Run(t, arms, names, ctx, []) == arms;
    assert S.Rounds([]) == 0;
  }

  lemma TwoEvents(t: Tuning, arms: Arms, names: seq<Name>, ctx: Context, e: S.Event, f: S.Event)
    requires names != []
    ensures Played(t, arms, names, ctx, [e, f]) == S.Step(t, S.Step(t, arms, names, ctx, e), names, ctx, f)
    ensures S.Rounds([e, f]) == (if e.Serve? then 1 else 0) + (if f.Serve? then 1 else 0)
  {
    assert [e, f] == [e] + [f];
    PlayedTwice(t, arms, names, ctx, [e], [f]);
    OneEvent(t, arms, names, ctx, e);
    OneEvent(t, S.Step(t, arms, names, ctx, e), names, ctx, f);
  }

  /** With UCB1 installed and survivors, the call goes to its pick, and the outcome to its pick's arm. */
  lemma InvokingAsksUcb1(n: Net, q: Query, reply: Reply, now: real, stamp: real, t: Tuning, arms: Arms)
    requires Filed(n) && n.selector == Ucb1(t, arms) && q.override == Installed && Healthy(n, q) != []
    ensures ChosenBy(n, q) == Some(Pick(t, arms, q.ctx, Healthy(n, q))) && ChosenBy(n, q).value in n.health
    ensures Routed(n, q).selector == Ucb1(t, EnsureAll(arms, Healthy(n, q), q.ctx))
    ensures Invoked(n, q, reply, now, stamp).0.selector
         == Ucb1(t, Learn(EnsureAll(arms, Healthy(n, q), q.ctx),
                          OutcomeOf(Pick(t, arms, q.ctx, Healthy(n, q)), reply.Returned?, q.ctx, stamp)))
  {
    var survivors := Healthy(n, q);
    Ucb1IsAsked(n, q, t, arms);
    OutcomeByCase(n, q);
    BestIsTheFirstMaximum(Scorer(t, arms, q.ctx), survivors);
    PoolIsWithoutObjection(n, q);
    InvokingIsBooking(n, q, reply, now, stamp);
  }

  lemma InvokeIsPlayed(n: Net, a: Action, t: Tuning, arms: Arms, names: seq<Name>, ctx: Context)
    requires Filed(n) && a.Invoke? && n.selector == Ucb1(t, arms) && names != []
    ensures Act(n, a).selector == Ucb1(t, Played(t, arms, names, ctx, EventsOf(n, a, names, ctx)))
    ensures S.Rounds(EventsOf(n, a, names, ctx)) == if Serves(n, a, names, ctx) then 1 else 0
  {
    var Invoke(q, reply, now, stamp) := a;
    if !q.override.Installed? || Healthy(n, q) == [] {
      OneEvent(t, arms, names, ctx, S.Look([], ctx));
      IdleInvocation(n, q, reply, now, stamp);
    } else if Serves(n, a, names, ctx) {
      ServedInvocation(n, q, reply, now, stamp, t, arms, names);
    } else {
      OtherInvocation(n, q, reply, now, stamp, t, arms, names, ctx);
    }
  }

  lemma ServedInvocation(n: Net, q: Query, reply: Reply, now: real, stamp: real, t: Tuning, arms: Arms,
                         names: seq<Name>)
    requires Filed(n) && n.selector == Ucb1(t, arms) && names != []
    requires q.override.Installed? && Healthy(n, q) == names
    ensures Invoked(n, q, reply, now, stamp).0.selector
         == Ucb1(t, Played(t, arms, names, q.ctx, [ServedEvent(reply.Returned?, stamp)]))
    ensures S.Rounds([ServedEvent(reply.Returned?, stamp)]) == 1
  {
    InvokingAsksUcb1(n, q, reply, now, stamp, t, arms);
    OneEvent(t, arms, names, q.ctx, ServedEvent(reply.Returned?, stamp));
  }

  lemma OtherInvocation(n: Net, q: Query, reply: Reply, now: real, stamp: real, t: Tuning, arms: Arms, names: seq<Name>,
                        ctx: Context)
    requires Filed(n) && n.selector == Ucb1(t, arms) && names != []
    requires q.override.Installed? && Healthy(n, q) != []
    ensures Invoked(n, q, reply, now, stamp).0.selector
         == Ucb1(t, Played(t, arms, names, ctx, OtherEvents(n, q, reply.Returned?, stamp)))
    ensures S.Rounds(OtherEvents(n, q, reply.Returned?, stamp)) == 0
  {
    InvokingAsksUcb1(n, q, reply, now, stamp, t, arms);
    var h, o := Healthy(n, q), OutcomeOf(Pick(t, arms, q.ctx, Healthy(n, q)), reply.Returned?, q.ctx, stamp);
    LookThenReport(t, arms, names, ctx, h, q.ctx, o);
    assert OtherEvents(n, q, reply.Returned?, stamp) == [S.Look(h, q.ctx), S.Observe(o)];
  }

  lemma LookThenReport(t: Tuning, arms: Arms, names: seq<Name>, ctx: Context, h: seq<Name>, at: Context, o: Outcome)
    requires names != []
    ensures Played(t, arms, names, ctx, [S.Look(h, at), S.Observe(o)]) == Learn(EnsureAll(arms, h, at), o)
    ensures S.Rounds([S.Look(h, at), S.Observe(o)]) == 0
  {
    TwoEvents(t, arms, names, ctx, S.Look(h, at), S.Observe(o));
  }

  /** A call that brings its own selector, or finds nobody healthy, leaves the installed bandit alone. */
  lemma IdleInvocation(n: Net, q: Query, reply: Reply, now: real, stamp: real)
    requires n.selector.Ucb1? && (!q.override.Installed? || Healthy(n, q) == [])
    ensures Routed(n, q).selector == n.selector && Invoked(n, q, reply, now, stamp).0.selector == n.selector
  {
    InvokingIsBooking(n, q, reply, now, stamp);
    OutcomeByCase(n, q);
  }

  lemma {:induction false} WalkIsPlayed(n: Net, c: Config, providers: seq<Name>, at: Context, xs: seq<Exchange>,
                                        t: Tuning, arms: Arms, names: seq<Name>, ctx: Context)
    requires |xs| == |providers| && n.selector == Ucb1(t, arms) && names != []
    ensures var (n', attempts) := Walk(n, c, providers, at, xs);
            && |attempts| <= |xs|
            && n'.selector == Ucb1(t, Played(t, arms, names, ctx, AttemptsReported(attempts, at, xs)))
            && S.Rounds(AttemptsReported(attempts, at, xs)) == 0
    decreases |providers|
  {
    OneEvent(t, arms, names, ctx, S.Look([], ctx));
    if providers != [] {
      var a, n1 := AttemptOf(n, providers[0], xs[0]), AfterTry(n, c, providers[0], at, xs[0]);
      var first := TurnReported(a, at, xs[0]);
      TurnIsPlayed(n, c, providers[0], at, xs[0], t, arms, names, ctx);
      if a.status == SUCCESS {
        assert [a][1..] == [];
        assert AttemptsReported([a], at, xs) == first + [];
      } else {
        var rest := Walk(n1, c, providers[1..], at, xs[1..]).1;
        WalkIsPlayed(n1, c, providers[1..], at, xs[1..], t, Played(t, arms, names, ctx, first), names, ctx);
        assert ([a] + rest)[1..] == rest;
        PlayedTwice(t, arms, names, ctx, first, AttemptsReported(rest, at, xs[1..]));
      }
    }
  }

  lemma TurnIsPlayed(n: Net, c: Config, name: Name, at: Context, x: Exchange,
                     t: Tuning, arms: Arms, names: seq<Name>, ctx: Context)
    requires n.selector == Ucb1(t, arms) && names != []
    ensures AfterTry(n, c, name, at, x).selector
         == Ucb1(t, Played(t, arms, names, ctx, TurnReported(AttemptOf(n, name, x), at, x)))
    ensures S.Rounds(TurnReported(AttemptOf(n, name, x), at, x)) == 0
  {
    OneEvent(t, arms, names, ctx, Reported(name, x.reply.Returned?, at, x.stamp));
  }

  /** Every step of the facade other than installing a selector is a run of events at the installed bandit, in which the
      calls served among the names in question are the rounds. */
  lemma StepIsPlayed(n: Net, a: Action, t: Tuning, arms: Arms, names: seq<Name>, ctx: Context)
    requires Filed(n) && WellFormed(a) && !a.SetSelector? && n.selector == Ucb1(t, arms) && names != []
    ensures Act(n, a).selector == Ucb1(t, Played(t, arms, names, ctx, EventsOf(n, a, names, ctx)))
    ensures S.Rounds(EventsOf(n, a, names, ctx)) == if Serves(n, a, names, ctx) then 1 else 0
  {
    match a
    case Invoke(_, _, _, _) => InvokeIsPlayed(n, a, t, arms, names, ctx);
    case RunCascade(c, at, xs) =>
      WalkIsPlayed(n.(bus := n.bus + [CascadeStarted(c.providers)]), c, c.providers, at, xs, t, arms, names, ctx);
    case Route(q) => RouteIsPlayed(n, q, t, arms, names, ctx);
    case Feedback(o) => OneEvent(t, arms, names, ctx, S.Observe(o));
    case _ => OneEvent(t, arms, names, ctx, S.Look([], ctx));
  }

  lemma RouteIsPlayed(n: Net, q: Query, t: Tuning, arms: Arms, names: seq<Name>, ctx: Context)
    requires n.selector == Ucb1(t, arms) && names != []
    ensures Routed(n, q).selector == Ucb1(t, Played(t, arms, names, ctx, EventsOf(n, Route(q), names, ctx)))
    ensures S.Rounds(EventsOf(n, Route(q), names, ctx)) == 0
  {
    OneEvent(t, arms, names, ctx, S.Look(Healthy(n, q), q.ctx));
    RoutingAsks(n, q, t, arms);
  }

  lemma RoutingAsks(n: Net, q: Query, t: Tuning, arms: Arms)
    requires n.selector == Ucb1(t, arms)
    ensures Routed(n, q).selector
         == if q.override.Installed? && Healthy(n, q) != [] then Ucb1(t, EnsureAll(arms, Healthy(n, q), q.ctx))
             else n.selector
  {
    OutcomeByCase(n, q);
  }

  // ---- whole runs ------------------------------------------------------

  /** Nobody installs a selector, and the rewards fed in are between zero and one. */
  ghost predicate Undisturbed(actions: seq<Action>) {
    && AllWellFormed(actions)
    && forall i :: 0 <= i < |actions| ==>
         !actions[i].SetSelector? && (actions[i].Feedback? ==> 0.0 <= actions[i].outcome.reward <= 1.0)
  }

  function AllEvents(n: Net, actions: seq<Action>, names: seq<Name>, ctx: Context): seq<S.Event>
    requires AllWellFormed(actions)
  {
    if actions == [] then []
    else
      var earlier := actions[..|actions| - 1];
      AllEvents(n, earlier, names, ctx) + EventsOf(ActAll(n, earlier), actions[|actions| - 1], names, ctx)
  }

  /** How many calls of the run were routed in the context among exactly these survivors. */
  function ServedCalls(n: Net, actions: seq<Action>, names: seq<Name>, ctx: Context): nat
    requires AllWellFormed(actions)
  {
    if actions == [] then 0
    else
      var earlier := actions[..|actions| - 1];
      ServedCalls(n, earlier, names, ctx)
      + if Serves(ActAll(n, earlier), actions[|actions| - 1], names, ctx) then 1 else 0
  }

  lemma {:induction false} RunsArePlayed(n: Net, actions: seq<Action>, t: Tuning, arms: Arms, names: seq<Name>,
                                         ctx: Context)
    requires Filed(n) && Undisturbed(actions) && n.selector == Ucb1(t, arms) && names != []
    ensures Filed(ActAll(n, actions))
    ensures ActAll(n, actions).selector == Ucb1(t, Played(t, arms, names, ctx, AllEvents(n, actions, names, ctx)))
    ensures S.Rounds(AllEvents(n, actions, names, ctx)) == ServedCalls(n, actions, names, ctx)
  {
    if actions == [] {
      OneEvent(t, arms, names, ctx, S.Look([], ctx));
    } else {
      var earlier, last := actions[..|actions| - 1], actions[|actions| - 1];
      var before, played := ActAll(n, earlier), AllEvents(n, earlier, names, ctx);
      RunsArePlayed(n, earlier, t, arms, names, ctx);
      ActBalances(before, last, names[0], false);
      StepIsPlayed(before, last, t, Played(t, arms, names, ctx, played), names, ctx);
      PlayedTwice(t, arms, names, ctx, played, EventsOf(before, last, names, ctx));
    }
  }

  lemma {:induction false} ReportsAreBounded(attempts: seq<Attempt>, at: Context, xs: seq<Exchange>)
    requires |attempts| <= |xs|
    ensures S.AllBounded(AttemptsReported(attempts, at, xs))
  {
    if attempts != [] { ReportsAreBounded(attempts[1..], at, xs[1..]); }
  }

  lemma StepIsBounded(n: Net, a: Action, names: seq<Name>, ctx: Context)
    requires WellFormed(a) && (a.Feedback? ==> 0.0 <= a.outcome.reward <= 1.0)
    ensures S.AllBounded(EventsOf(n, a, names, ctx))
  {
    match a
    case Invoke(q, reply, now, stamp) => OtherIsBounded(n, q, reply.Returned?, stamp);
    case RunCascade(c, at, xs) => CascadeIsBounded(n, c, at, xs);
    case _ =>
  }

  lemma OtherIsBounded(n: Net, q: Query, success: bool, stamp: real)
    ensures S.AllBounded(OtherEvents(n, q, success, stamp)) && S.AllBounded([ServedEvent(success, stamp)])
  {
  }

  lemma CascadeIsBounded(n: Net, c: Config, at: Context, xs: seq<Exchange>)
    requires |xs| == |c.providers|
    ensures S.AllBounded(CascadeEvents(n, c, at, xs))
  {
    CascadeOutcomeIsExact(n, c, at, xs);
    ReportsAreBounded(RunOf(n, c, at, xs).1.attempts, at, xs);
  }

  lemma {:induction false} RunsAreBounded(n: Net, actions: seq<Action>, names: seq<Name>, ctx: Context)
    requires Undisturbed(actions)
    ensures S.AllBounded(AllEvents(n, actions, names, ctx))
  {
    if actions != [] {
      var earlier, last := actions[..|actions| - 1], actions[|actions| - 1];
      RunsAreBounded(n, earlier, names, ctx);
      StepIsBounded(ActAll(n, earlier), last, names, ctx);
    }
  }

  /** The installed UCB1 bandit has pulled every one of these more than `m` times in the context. */
  ghost predicate AllCalled(n: Net, names: seq<Name>, ctx: Context, m: nat) {
    n.selector.Ucb1? && S.AllAbove(n.selector.arms, names, ctx, m)
  }

  /** With UCB1 installed and exploring, whatever else the facade does meanwhile, enough calls served among the same `k`
      survivors leave none of them with `m` pulls or fewer: `k * (4m + 1)` once `ln(total) * c^2` has reached `4m`. */
  lemma EverySurvivorIsCalledAgain(n: Net, actions: seq<Action>, t: Tuning, arms: Arms, names: seq<Name>, ctx: Context,
                                   m: nat, start: nat)
    requires Filed(n) && Undisturbed(actions) && n.selector == Ucb1(t, arms) && names != []
    requires Faithful(t) && t.c > 0.0 && S.Sound(arms) && S.Enough(t, start, m)
    requires ServedCalls(n, actions, names, ctx) >= S.Missing(TotalPulls(arms, ctx), start) + |names| * (4 * m + 1)
    ensures AllCalled(ActAll(n, actions), names, ctx, m)
  {
    RunsArePlayed(n, actions, t, arms, names, ctx);
    RunsAreBounded(n, actions, names, ctx);
    S.EveryCandidateIsPulledAgain(t, arms, names, ctx, AllEvents(n, actions, names, ctx), m, start);
  }

  // ---- exactly when no survivor starves --------------------------------

  ghost predicate CallsSuffice(t: Tuning, names: seq<Name>, ctx: Context, m: nat, calls: nat) {
    forall n, actions, arms ::
      Filed(n) && n.selector == Ucb1(t, arms) && S.Sound(arms) && Undisturbed(actions)
      && ServedCalls(n, actions, names, ctx) >= calls
      ==> AllCalled(ActAll(n, actions), names, ctx, m)
  }

  ghost predicate SomeCallsSuffice(t: Tuning, names: seq<Name>, ctx: Context, m: nat) {
    exists calls: nat :: CallsSuffice(t, names, ctx, m, calls)
  }

  ghost predicate NobodyStarves(t: Tuning, names: seq<Name>, ctx: Context) {
    forall m: nat :: SomeCallsSuffice(t, names, ctx, m)
  }

  lemma ExploringCallsSuffice(t: Tuning, names: seq<Name>, ctx: Context, m: nat) returns (calls: nat)
    requires Faithful(t) && S.LnUnbounded(t) && t.c > 0.0 && names != []
    ensures CallsSuffice(t, names, ctx, m, calls)
  {
    calls := S.ExplorationSuffices(t, names, ctx, m);
    forall n, actions, arms |
      Filed(n) && n.selector == Ucb1(t, arms) && S.Sound(arms) && Undisturbed(actions)
      && ServedCalls(n, actions, names, ctx) >= calls
      ensures AllCalled(ActAll(n, actions), names, ctx, m)
    {
      RunsArePlayed(n, actions, t, arms, names, ctx);
      RunsAreBounded(n, actions, names, ctx);
      assert S.AllAbove(S.Run(t, arms, names, ctx, AllEvents(n, actions, names, ctx)), names, ctx, m);
    }
  }

  // ---- a greedy bandit behind the facade -------------------------------

  /** The `j`-th call of a run that favours the first provider, a cooldown and more after the one before. */
  function FavouringCall(names: seq<Name>, ctx: Context, j: nat, output: Output, problem: Problem): Action {
    Invoke(FavouringQuery(names, ctx, j), FavouringReply(|names|, j, output, problem), Moment(j), 0.0)
  }

  function FavouringQuery(names: seq<Name>, ctx: Context, j: nat): Query {
    Query(Some(names), None, [], Installed, ctx, 0, Declines, _ => Moment(j))
  }

  function FavouringReply(k: nat, j: nat, output: Output, problem: Problem): Reply {
    if S.FavouringFeedback(k, j).success then Returned(output) else Threw(problem)
  }

  function Moment(j: nat): real {
    31.0 * j as real
  }

  /** The providers are registered without more, and every cooldown is over by the next call of such a run. */
  ghost predicate AtHand(n: Net, names: seq<Name>, j: nat) {
    && Filed(n) && (forall x :: x in names ==> x in n.infos.entries)
    && forall x :: x in n.health ==> n.health[x].cooldownUntil <= Moment(j)
  }

  lemma {:induction false} NothingIsDropped(names: seq<Name>, objection: Name -> Option<SkipReason>)
    requires forall x :: x in names ==> objection(x) == None
    ensures Kept(names, objection) == names
  {
    if names != [] {
      NothingIsDropped(names[..|names| - 1], objection);
      assert names == names[..|names| - 1] + [names[|names| - 1]];
    }
  }

  lemma {:induction false} AllAreHealthy(n: Net, names: seq<Name>, clock: nat -> real, now: real)
    requires forall i :: clock(i) == now
    requires forall x :: x in names && x in n.health ==> n.health[x].cooldownUntil <= now
    ensures Survivors(n, names, clock) == names
  {
    if names != [] {
      var last: nat := |names| - 1;
      AllAreHealthy(n, names[..last], clock, now);
      assert names[last] in n.health ==> n.health[names[last]].cooldownUntil <= clock(last);
      assert names == names[..last] + [names[last]];
    }
  }

  lemma FavouringCallIsServed(n: Net, names: seq<Name>, ctx: Context, j: nat, output: Output, problem: Problem)
    requires AtHand(n, names, j)
    ensures Serves(n, FavouringCall(names, ctx, j, output, problem), names, ctx)
  {
    var q := FavouringQuery(names, ctx, j);
    FiltersCompose(n, q, names);
    forall x | x in names ensures ByAny(n, q)(x) == None {
    }
    NothingIsDropped(names, ByAny(n, q));
    AllAreHealthy(n, names, q.clock, Moment(j));
  }

  lemma StaysAtHand(n: Net, n': Net, names: seq<Name>, j: nat, p: Name, success: bool)
    requires AtHand(n, names, j) && n'.infos == n.infos && OnlyMoved(n.health, n'.health, p, success)
    requires n'.health[p].cooldownUntil == if success then 0.0 else Moment(j) + 30.0
    ensures AtHand(n', names, j + 1)
  {
    assert Moment(j + 1) == Moment(j) + 31.0;
  }

  lemma GreedyCallStays(n: Net, names: seq<Name>, j: nat, q: Query, reply: Reply, p: Name)
    requires AtHand(n, names, j) && ChosenBy(n, q) == Some(p) && p in n.health
    ensures AtHand(Invoked(n, q, reply, Moment(j), 0.0).0, names, j + 1)
  {
    InvocationInPlainTerms(n, q, reply, Moment(j), 0.0, p);
    StaysAtHand(n, Invoked(n, q, reply, Moment(j), 0.0).0, names, j, p, reply.Returned?);
  }

  lemma GreedyCallLearns(n: Net, t: Tuning, arms: Arms, names: seq<Name>, j: nat, q: Query, reply: Reply, now: real)
    requires Faithful(t) && t.c <= 0.0 && names != [] && Distinct(names)
    requires Filed(n) && n.selector == Ucb1(t, arms) && q.override == Installed && Healthy(n, q) == names
    requires S.FirstFavoured(arms, names, q.ctx, j) && reply.Returned? == S.FavouringFeedback(|names|, j).success
    ensures var after := S.Round(t, arms, names, q.ctx, S.FavouringFeedback(|names|, j));
            Invoked(n, q, reply, now, 0.0).0.selector == Ucb1(t, after) && S.FirstFavoured(after, names, q.ctx, j + 1)
  {
    ServedInvocation(n, q, reply, now, 0.0, t, arms, names);
    OneEvent(t, arms, names, q.ctx, ServedEvent(reply.Returned?, 0.0));
    S.OneMoreFavoured(t, arms, names, q.ctx, j);
    assert ServedEvent(reply.Returned?, 0.0) == S.Serve(S.FavouringFeedback(|names|, j));
  }

  /** Where such a run has got after `j` calls. */
  ghost predicate Favoured(n: Net, t: Tuning, names: seq<Name>, ctx: Context, j: nat)
    requires names != []
  {
    && AtHand(n, names, j)
    && n.selector.Ucb1? && n.selector.tuning == t && S.FirstFavoured(n.selector.arms, names, ctx, j)
  }

  lemma GreedyInvocation(n: Net, t: Tuning, names: seq<Name>, ctx: Context, j: nat, output: Output, problem: Problem)
    returns (after: Net)
    requires Faithful(t) && t.c <= 0.0 && names != [] && Distinct(names) && Favoured(n, t, names, ctx, j)
    ensures after == Invoked(n, FavouringQuery(names, ctx, j), FavouringReply(|names|, j, output, problem), Moment(j),
                0.0).0
    ensures Favoured(after, t, names, ctx, j + 1)
  {
    var q, reply := FavouringQuery(names, ctx, j), FavouringReply(|names|, j, output, problem);
    FavouringCallIsServed(n, names, ctx, j, output, problem);
    InvokingAsksUcb1(n, q, reply, Moment(j), 0.0, t, n.selector.arms);
    GreedyCallStays(n, names, j, q, reply, Pick(t, n.selector.arms, q.ctx, names));
    GreedyCallLearns(n, t, n.selector.arms, names, j, q, reply, Moment(j));
    after := Invoked(n, q, reply, Moment(j), 0.0).0;
  }

  lemma GreedyCall(n: Net, t: Tuning, names: seq<Name>, ctx: Context, j: nat, output: Output, problem: Problem)
    returns (after: Net)
    requires Faithful(t) && t.c <= 0.0 && names != [] && Distinct(names) && Favoured(n, t, names, ctx, j)
    ensures Serves(n, FavouringCall(names, ctx, j, output, problem), names, ctx)
    ensures after == Act(n, FavouringCall(names, ctx, j, output, problem)) && Favoured(after, t, names, ctx, j + 1)
  {
    after := GreedyInvocation(n, t, names, ctx, j, output, problem);
    FavouringCallIsServed(n, names, ctx, j, output, problem);
    ActingInvokes(n, FavouringQuery(names, ctx, j), FavouringReply(|names|, j, output, problem), Moment(j), 0.0);
  }

  lemma ActingInvokes(n: Net, q: Query, reply: Reply, now: real, stamp: real)
    ensures Act(n, Invoke(q, reply, now, stamp)) == Invoked(n, q, reply, now, stamp).0
  {
  }

  lemma OneMoreAction(n: Net, actions: seq<Action>, a: Action, names: seq<Name>, ctx: Context)
    requires Undisturbed(actions) && WellFormed(a) && !a.SetSelector? && !a.Feedback?
    ensures Undisturbed(actions + [a]) && ActAll(n, actions + [a]) == Act(ActAll(n, actions), a)
    ensures ServedCalls(n, actions + [a], names, ctx)
         == ServedCalls(n, actions, names, ctx) + if Serves(ActAll(n, actions), a, names, ctx) then 1 else 0
  {
    assert (actions + [a])[..|actions|] == actions;
  }

  /** Without exploration there is, for every number of calls, a run of so many, all served among the same survivors,
      that favours the first of them. */
  lemma {:induction false} GreedyRun(n: Net, t: Tuning, names: seq<Name>, ctx: Context, calls: nat,
                                     output: Output, problem: Problem) returns (actions: seq<Action>, after: Net)
    requires Faithful(t) && t.c <= 0.0 && names != [] && Distinct(names) && Favoured(n, t, names, ctx, 0)
    ensures Undisturbed(actions) && ServedCalls(n, actions, names, ctx) == calls
    ensures after == ActAll(n, actions) && Favoured(after, t, names, ctx, calls)
  {
    actions, after := [], n;
    if calls > 0 {
      var before;
      actions, before := GreedyRun(n, t, names, ctx, calls - 1, output, problem);
      var a := FavouringCall(names, ctx, calls - 1, output, problem);
      after := GreedyCall(before, t, names, ctx, calls - 1, output, problem);
      OneMoreAction(n, actions, a, names, ctx);
      actions := actions + [a];
    }
  }

  ghost predicate Fresh(n: Net, t: Tuning, names: seq<Name>) {
    && Filed(n) && n.selector == Ucb1(t, Table([], map[])) && (forall x :: x in names ==> x in n.infos.entries)
    && forall x :: x in n.health ==> n.health[x].cooldownUntil == 0.0
  }

  lemma FreshIsFavoured(n: Net, t: Tuning, names: seq<Name>, ctx: Context)
    requires Fresh(n, t, names) && names != []
    ensures Favoured(n, t, names, ctx, 0) && S.Sound(n.selector.arms)
  {
  }

  /** So no number of calls is enough for the second survivor to be called twice. */
  lemma GreedyCallsStarve(t: Tuning, names: seq<Name>, ctx: Context, calls: nat, output: Output, problem: Problem)
    requires Faithful(t) && t.c <= 0.0 && |names| >= 2 && Distinct(names)
    ensures !CallsSuffice(t, names, ctx, 1, calls)
  {
    var infos := Table(names, map x | x in names :: Info([], []));
    var n := Net(infos, map x | x in names :: UNUSED, Ucb1(t, Table([], map[])), []);
    FreshIsFavoured(n, t, names, ctx);
    var actions, after := GreedyRun(n, t, names, ctx, calls, output, problem);
    SecondIsNotCalled(after, t, names, ctx, calls);
  }

  lemma SecondIsNotCalled(n: Net, t: Tuning, names: seq<Name>, ctx: Context, calls: nat)
    requires |names| >= 2 && Favoured(n, t, names, ctx, calls)
    ensures !AllCalled(n, names, ctx, 1)
  {
    assert names[1] in names && ArmOf(n.selector.arms, names[1], ctx).pulls <= 1;
  }

  /** Behind the facade, too, no survivor starves exactly when the exploration constant is positive. */
  lemma NobodyStarvesIffExploring(t: Tuning, names: seq<Name>, ctx: Context, output: Output, problem: Problem)
    requires Faithful(t) && S.LnUnbounded(t) && |names| >= 2 && Distinct(names)
    ensures NobodyStarves(t, names, ctx) <==> t.c > 0.0
  {
    if t.c > 0.0 {
      forall m: nat ensures SomeCallsSuffice(t, names, ctx, m) {
        var calls := ExploringCallsSuffice(t, names, ctx, m);
      }
    } else {
      assert NobodyStarves(t, names, ctx) ==> SomeCallsSuffice(t, names, ctx, 1);
      forall calls: nat ensures !CallsSuffice(t, names, ctx, 1, calls) {
        GreedyCallsStarve(t, names, ctx, calls, output, problem);
      }
    }
  }
}
