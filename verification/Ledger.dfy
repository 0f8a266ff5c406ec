/** Two books of the same calls: the providers' health and the selector's arms (atlas/router.py, atlas/cascade.py). */
module Ledgers {
  import opened Prelude
  import opened ProviderHealths
  import opened Bandits
  import opened Backoff
  import opened Routing
  import opened Cascading

  // ---- what the arms say -----------------------------------------------

  function ArmCount(arm: ArmState, failuresOnly: bool): nat {
    if failuresOnly then arm.failures else arm.successes + arm.failures
  }

  /** The outcomes counted by the arms filed under the context keys in `keys`. */
  function CountOver(arms: Arms, p: Name, keys: seq<Context>, failuresOnly: bool): nat {
    if keys == [] then 0
    else CountOver(arms, p, keys[..|keys| - 1], failuresOnly) + ArmCount(ArmOf(arms, p, keys[|keys| - 1]), failuresOnly)
  }

  function ContextsOf(arms: Arms, p: Name): seq<Context> {
    if p in arms.entries then arms.entries[p].keys else []
  }

  /** All the outcomes (or failures) of a provider, over its context keys. */
  function ArmTotal(arms: Arms, p: Name, failuresOnly: bool): nat {
    CountOver(arms, p, ContextsOf(arms, p), failuresOnly)
  }

  lemma {:induction false} SameCounts(arms: Arms, arms': Arms, p: Name, keys: seq<Context>, failuresOnly: bool)
    requires forall c :: c in keys ==>
                ArmCount(ArmOf(arms', p, c), failuresOnly) == ArmCount(ArmOf(arms, p, c), failuresOnly)
    ensures CountOver(arms', p, keys, failuresOnly) == CountOver(arms, p, keys, failuresOnly)
  {
    if keys != [] { SameCounts(arms, arms', p, keys[..|keys| - 1], failuresOnly); }
  }

  lemma {:induction false} OneCountMoves(arms: Arms, arms': Arms, p: Name, keys: seq<Context>, ctx: Context,
                                         failuresOnly: bool)
    requires Distinct(keys) && ctx in keys
    requires forall c :: c != ctx ==> ArmOf(arms', p, c) == ArmOf(arms, p, c)
    ensures CountOver(arms', p, keys, failuresOnly) - CountOver(arms, p, keys, failuresOnly)
         == ArmCount(ArmOf(arms', p, ctx), failuresOnly) - ArmCount(ArmOf(arms, p, ctx), failuresOnly)
  {
    var last := |keys| - 1;
    if keys[last] == ctx {
      assert forall i :: 0 <= i < last ==> keys[i] != keys[last];
      SameCounts(arms, arms', p, keys[..last], failuresOnly);
    } else {
      OneCountMoves(arms, arms', p, keys[..last], ctx, failuresOnly);
    }
  }

  lemma SetArmContexts(arms: Arms, provider: Name, ctx: Context, arm: ArmState, p: Name)
    ensures ContextsOf(SetArm(arms, provider, ctx, arm), p)
         == if p != provider || ctx in ContextsOf(arms, p) then ContextsOf(arms, p) else ContextsOf(arms, p) + [ctx]
  {
  }

  /** Replacing one arm moves its provider's total by the difference of the two arms' counts, and no other total. */
  lemma {:induction false} SetArmMovesOneTotal(arms: Arms, provider: Name, ctx: Context, arm: ArmState, p: Name,
                                               failuresOnly: bool)
    ensures ArmTotal(SetArm(arms, provider, ctx, arm), p, failuresOnly)
         == ArmTotal(arms, p, failuresOnly)
            + if p == provider
              then ArmCount(arm, failuresOnly) - ArmCount(ArmOf(arms, provider, ctx), failuresOnly) else 0
  {
    var r := SetArm(arms, provider, ctx, arm);
    SetArmContexts(arms, provider, ctx, arm, p);
    SetArmIsExact(arms, provider, ctx, arm);
    if p == provider {
      OneArmMovesTheTotal(arms, r, p, ctx, failuresOnly);
    } else {
      SameCounts(arms, r, p, ContextsOf(arms, p), failuresOnly);
    }
  }

  lemma OneArmMovesTheTotal(arms: Arms, arms': Arms, p: Name, ctx: Context, failuresOnly: bool)
    requires var keys := ContextsOf(arms, p); ContextsOf(arms', p) == if ctx in keys then keys else keys + [ctx]
    requires forall c :: c != ctx ==> ArmOf(arms', p, c) == ArmOf(arms, p, c)
    ensures ArmTotal(arms', p, failuresOnly) - ArmTotal(arms, p, failuresOnly)
         == ArmCount(ArmOf(arms', p, ctx), failuresOnly) - ArmCount(ArmOf(arms, p, ctx), failuresOnly)
  {
    var keys := ContextsOf(arms, p);
    if ctx in keys {
      OneCountMoves(arms, arms', p, keys, ctx, failuresOnly);
    } else {
      SameCounts(arms, arms', p, keys, failuresOnly);
      assert (keys + [ctx])[..|keys|] == keys;
      assert ArmOf(arms, p, ctx) == Blank(p, ctx);
    }
  }

  lemma {:induction false} EnsuringMovesNoTotal(arms: Arms, names: seq<Name>, ctx: Context, p: Name, failuresOnly: bool)
    ensures ArmTotal(EnsureAll(arms, names, ctx), p, failuresOnly) == ArmTotal(arms, p, failuresOnly)
  {
    if names != [] {
      var earlier, name := names[..|names| - 1], names[|names| - 1];
      var mid := EnsureAll(arms, earlier, ctx);
      EnsuringMovesNoTotal(arms, earlier, ctx, p, failuresOnly);
      SetArmMovesOneTotal(mid, name, ctx, ArmOf(mid, name, ctx), p, failuresOnly);
    }
  }

  // ---- the two books ---------------------------------------------------

  /** One outcome as either book counts it. */
  function Tally(success: bool, failuresOnly: bool): nat {
    if failuresOnly && success then 0 else 1
  }

  /** What the installed selector has on a provider; one of the caller's own making has nothing the model knows of. */
  function SelectorTotal(s: Selector, p: Name, failuresOnly: bool): nat {
    if BuiltIn(s) then ArmTotal(s.arms, p, failuresOnly) else 0
  }

  function HealthTotal(n: Net, p: Name, failuresOnly: bool): nat {
    if p !in n.health then 0 else if failuresOnly then n.health[p].totalFailures else n.health[p].totalCalls
  }

  /** How far the arms are ahead of the health record. */
  function Balance(n: Net, p: Name, failuresOnly: bool): int {
    SelectorTotal(n.selector, p, failuresOnly) - HealthTotal(n, p, failuresOnly)
  }

  lemma LearningTallies(s: Selector, o: Outcome, p: Name, failuresOnly: bool)
    ensures BuiltIn(Learns(s, o)) <==> BuiltIn(s)
    ensures SelectorTotal(Learns(s, o), p, failuresOnly)
         == SelectorTotal(s, p, failuresOnly)
            + if BuiltIn(s) && o.providerName == p then Tally(o.success, failuresOnly) else 0
  {
    if BuiltIn(s) {
      var arm := ArmOf(s.arms, o.providerName, o.contextKey);
      SetArmMovesOneTotal(s.arms, o.providerName, o.contextKey, Learned(arm, o), p, failuresOnly);
      SetArmMovesOneTotal(s.arms, o.providerName, o.contextKey, Counted(arm, o), p, failuresOnly);
    }
  }

  lemma ChoosingTalliesNothing(s: Selector, q: Query, survivors: seq<Name>, p: Name, failuresOnly: bool)
    ensures BuiltIn(AfterChoice(s, q, survivors)) <==> BuiltIn(s)
    ensures SelectorTotal(AfterChoice(s, q, survivors), p, failuresOnly) == SelectorTotal(s, p, failuresOnly)
  {
    if BuiltIn(s) { EnsuringMovesNoTotal(s.arms, survivors, q.ctx, p, failuresOnly); }
  }

  // ---- runs ------------------------------------------------------------

  /** Everything a program can do to the facade. Installing covers loading stored arms into the installed selector, and
      feedback covers updating it directly. */
  datatype Action =
    | Register(name: Name, info: Info)
    | Unregister(name: Name)
    | SetSelector(selector: Selector)
    | Route(q: Query)
    | Invoke(q: Query, reply: Reply, now: real, stamp: real)
    | RunCascade(c: Config, ctx: Context, xs: seq<Exchange>)
    | ResetHealth(reset: Option<Name>)
    | Feedback(outcome: Outcome)

  ghost predicate WellFormed(a: Action) {
    a.RunCascade? ==> |a.xs| == |a.c.providers|
  }

  ghost predicate AllWellFormed(actions: seq<Action>) {
    forall i :: 0 <= i < |actions| ==> WellFormed(actions[i])
  }

  function Act(n: Net, a: Action): Net
    requires WellFormed(a)
  {
    match a
    case Register(name, info) => if name in n.infos.entries then n else Registering(n, name, info)
    case Unregister(name) => Unregistering(n, name)
    case SetSelector(s) => n.(selector := s)
    case Route(q) => Routed(n, q)
    case Invoke(q, reply, now, stamp) => Invoked(n, q, reply, now, stamp).0
    case RunCascade(c, ctx, xs) => RunOf(n, c, ctx, xs).0
    case ResetHealth(name) => Reset(n, name)
    case Feedback(o) => n.(selector := Learns(n.selector, o))
  }

  function ActAll(n: Net, actions: seq<Action>): Net
    requires AllWellFormed(actions)
  {
    if actions == [] then n else Act(ActAll(n, actions[..|actions| - 1]), actions[|actions| - 1])
  }

  /** The registry files health with every provider. */
  ghost predicate Filed(n: Net) {
    n.health.Keys == n.infos.entries.Keys
  }

  // ---- what reaches one book only --------------------------------------

  /** Outcomes on `p` that reach only the arms: those fed in from outside. */
  function Fed(n: Net, a: Action, p: Name, failuresOnly: bool): nat {
    if a.Feedback? && a.outcome.providerName == p && BuiltIn(n.selector)
    then Tally(a.outcome.success, failuresOnly) else 0
  }

  /** The calls among the attempts that reached `p`. */
  function TalliesTo(p: Name, attempts: seq<Attempt>, failuresOnly: bool): nat {
    if attempts == [] then 0
    else
      TallyOf(p, attempts[0], failuresOnly) + TalliesTo(p, attempts[1..], failuresOnly)
  }

  function TallyOf(p: Name, a: Attempt, failuresOnly: bool): nat {
    if a.name == p && Called(a) then Tally(a.status == SUCCESS, failuresOnly) else 0
  }

  /** Calls of `p` that reach only its health: those routed with a selector of their own, and all of them while no
      built-in selector is installed. */
  function Diverted(n: Net, a: Action, p: Name, failuresOnly: bool): nat
    requires WellFormed(a)
  {
    match a
    case Invoke(q, reply, _, _) =>
      if (q.override != Installed || !BuiltIn(n.selector)) && ChosenBy(n, q) == Some(p) && p in n.health
      then Tally(reply.Returned?, failuresOnly) else 0
    case RunCascade(c, ctx, xs) =>
      if BuiltIn(n.selector) then 0 else TalliesTo(p, RunOf(n, c, ctx, xs).1.attempts, failuresOnly)
    case _ => 0
  }

  /** Calls of `p` whose record goes when it is unregistered. */
  function Lost(n: Net, a: Action, p: Name, failuresOnly: bool): nat {
    if a == Unregister(p) then HealthTotal(n, p, failuresOnly) else 0
  }

  /** What another selector has on `p` more than the one it replaces. */
  function Swapped(n: Net, a: Action, p: Name, failuresOnly: bool): int {
    if a.SetSelector?
    then SelectorTotal(a.selector, p, failuresOnly) - SelectorTotal(n.selector, p, failuresOnly) else 0
  }

  /** What one step adds to the balance. */
  function Drift(n: Net, a: Action, p: Name, failuresOnly: bool): int
    requires WellFormed(a)
  {
    Fed(n, a, p, failuresOnly) + Lost(n, a, p, failuresOnly) + Swapped(n, a, p, failuresOnly)
        - Diverted(n, a, p, failuresOnly)
  }

  function AllDrift(n: Net, actions: seq<Action>, p: Name, failuresOnly: bool): int
    requires AllWellFormed(actions)
  {
    if actions == [] then 0
    else
      var earlier := actions[..|actions| - 1];
      AllDrift(n, earlier, p, failuresOnly) + Drift(ActAll(n, earlier), actions[|actions| - 1], p, failuresOnly)
  }

  // ---- each step -------------------------------------------------------

  /** Booking one call of `name` on its health: that provider's total rises by the call's tally. */
  lemma BookingTallies(n: Net, n': Net, name: Name, success: bool, p: Name, failuresOnly: bool)
    requires name in n.health && n'.health.Keys == n.health.Keys
    requires forall x :: x in n.health && x != name ==> n'.health[x] == n.health[x]
    requires n'.health[name].totalCalls == n.health[name].totalCalls + 1
    requires n'.health[name].totalFailures == n.health[name].totalFailures + if success then 0 else 1
    ensures HealthTotal(n', p, failuresOnly)
         == HealthTotal(n, p, failuresOnly) + if p == name then Tally(success, failuresOnly) else 0
  {
  }

  lemma BookedBalances(n: Net, q: Query, name: Name, reply: Reply, now: real, stamp: real, p: Name, failuresOnly: bool)
    requires Filed(n) && name in n.health
    ensures Filed(Booked(n, q, name, reply, now, stamp))
    ensures Balance(Booked(n, q, name, reply, now, stamp), p, failuresOnly)
         == Balance(n, p, failuresOnly)
            - if (q.override != Installed || !BuiltIn(n.selector)) && p == name
              then Tally(reply.Returned?, failuresOnly) else 0
  {
    BookingTallies(n, Booked(n, q, name, reply, now, stamp), name, reply.Returned?, p, failuresOnly);
    LearningTallies(n.selector, OutcomeOf(name, reply.Returned?, q.ctx, stamp), p, failuresOnly);
  }

  lemma RouteBalances(n: Net, q: Query, p: Name, failuresOnly: bool)
    requires Filed(n)
    ensures var n' := Routed(n, q);
            && n'.infos == n.infos && n'.health == n.health
            && (BuiltIn(n'.selector) <==> BuiltIn(n.selector))
            && Balance(n', p, failuresOnly) == Balance(n, p, failuresOnly)
  {
    ChoosingTalliesNothing(n.selector, q, Healthy(n, q), p, failuresOnly);
  }

  lemma InvokeBalances(n: Net, q: Query, reply: Reply, now: real, stamp: real, p: Name, failuresOnly: bool)
    requires Filed(n)
    ensures var a := Invoke(q, reply, now, stamp);
            && Filed(Act(n, a))
            && Balance(Act(n, a), p, failuresOnly) == Balance(n, p, failuresOnly) - Diverted(n, a, p, failuresOnly)
  {
    RouteBalances(n, q, p, failuresOnly);
    InvokingIsBooking(n, q, reply, now, stamp);
    var chosen := ChosenBy(n, q);
    if chosen.Some? && chosen.value in n.health {
      BookedBalances(Routed(n, q), q, chosen.value, reply, now, stamp, p, failuresOnly);
    }
  }

  lemma InvokingIsBooking(n: Net, q: Query, reply: Reply, now: real, stamp: real)
    ensures Routed(n, q).health == n.health
    ensures Invoked(n, q, reply, now, stamp).0
         == if ChosenBy(n, q).Some? && ChosenBy(n, q).value in n.health
            then Booked(Routed(n, q), q, ChosenBy(n, q).value, reply, now, stamp)
            else Routed(n, q)
  {
  }

  lemma TryBalances(n: Net, c: Config, name: Name, ctx: Context, x: Exchange, p: Name, failuresOnly: bool)
    requires Filed(n)
    ensures var n' := AfterTry(n, c, name, ctx, x);
            && Filed(n') && (BuiltIn(n'.selector) <==> BuiltIn(n.selector))
            && Balance(n', p, failuresOnly) == Balance(n, p, failuresOnly)
               - if BuiltIn(n.selector) then 0 else TallyOf(p, AttemptOf(n, name, x), failuresOnly)
  {
    if Called(AttemptOf(n, name, x)) {
      BookingTallies(n, AfterTry(n, c, name, ctx, x), name, x.reply.Returned?, p, failuresOnly);
      LearningTallies(n.selector, OutcomeOf(name, x.reply.Returned?, ctx, x.stamp), p, failuresOnly);
    }
  }

  lemma {:induction false} WalkBalances(n: Net, c: Config, names: seq<Name>, ctx: Context, xs: seq<Exchange>,
                                        p: Name, failuresOnly: bool)
    requires Filed(n) && |xs| == |names|
    ensures var (n', attempts) := Walk(n, c, names, ctx, xs);
            && Filed(n')
            && Balance(n', p, failuresOnly) == Balance(n, p, failuresOnly)
               - if BuiltIn(n.selector) then 0 else TalliesTo(p, attempts, failuresOnly)
    decreases |names|
  {
    if names != [] {
      var a, n1 := AttemptOf(n, names[0], xs[0]), AfterTry(n, c, names[0], ctx, xs[0]);
      TryBalances(n, c, names[0], ctx, xs[0], p, failuresOnly);
      if a.status != SUCCESS {
        WalkBalances(n1, c, names[1..], ctx, xs[1..], p, failuresOnly);
        var rest := Walk(n1, c, names[1..], ctx, xs[1..]).1;
        TalliesOneMore(p, a, rest, failuresOnly);
      } else {
        TalliesOneMore(p, a, [], failuresOnly);
      }
    }
  }

  lemma TalliesOneMore(p: Name, a: Attempt, rest: seq<Attempt>, failuresOnly: bool)
    ensures TalliesTo(p, [a] + rest, failuresOnly) == TallyOf(p, a, failuresOnly) + TalliesTo(p, rest, failuresOnly)
    ensures TalliesTo(p, [a], failuresOnly) == TallyOf(p, a, failuresOnly)
  {
    assert ([a] + rest)[1..] == rest;
  }

  /** One step of any kind moves the balance by what it brings to one book only. */
  lemma ActBalances(n: Net, a: Action, p: Name, failuresOnly: bool)
    requires Filed(n) && WellFormed(a)
    ensures Filed(Act(n, a))
    ensures Balance(Act(n, a), p, failuresOnly) == Balance(n, p, failuresOnly) + Drift(n, a, p, failuresOnly)
  {
    match a
    case Route(q) => RouteBalances(n, q, p, failuresOnly);
    case Invoke(q, reply, now, stamp) => InvokeBalances(n, q, reply, now, stamp, p, failuresOnly);
    case RunCascade(c, ctx, xs) => CascadeBalances(n, c, ctx, xs, p, failuresOnly);
    case Feedback(o) => LearningTallies(n.selector, o, p, failuresOnly);
    case _ => SettingUpBalances(n, a, p, failuresOnly);
  }

  lemma CascadeBalances(n: Net, c: Config, ctx: Context, xs: seq<Exchange>, p: Name, failuresOnly: bool)
    requires Filed(n) && |xs| == |c.providers|
    ensures var a := RunCascade(c, ctx, xs);
            && Filed(Act(n, a))
            && Balance(Act(n, a), p, failuresOnly) == Balance(n, p, failuresOnly) - Diverted(n, a, p, failuresOnly)
  {
    WalkBalances(n.(bus := n.bus + [CascadeStarted(c.providers)]), c, c.providers, ctx, xs, p, failuresOnly);
  }

  lemma SettingUpBalances(n: Net, a: Action, p: Name, failuresOnly: bool)
    requires Filed(n) && (a.Register? || a.Unregister? || a.SetSelector? || a.ResetHealth?)
    ensures Filed(Act(n, a))
    ensures Balance(Act(n, a), p, failuresOnly)
         == Balance(n, p, failuresOnly) + Lost(n, a, p, failuresOnly) + Swapped(n, a, p, failuresOnly)
  {
  }

  // ---- whole runs ------------------------------------------------------

  /** Over any run, for every provider and for calls as for failures, the arms gain on the health record exactly the
      outcomes fed in from outside, the records lost to unregistration and what new selectors bring along, less the
      calls that reached no arm. */
  lemma {:induction false} LedgersBalance(n: Net, actions: seq<Action>, p: Name, failuresOnly: bool)
    requires Filed(n) && AllWellFormed(actions)
    ensures Filed(ActAll(n, actions))
    ensures Balance(ActAll(n, actions), p, failuresOnly)
         == Balance(n, p, failuresOnly) + AllDrift(n, actions, p, failuresOnly)
  {
    if actions != [] {
      var earlier := actions[..|actions| - 1];
      LedgersBalance(n, earlier, p, failuresOnly);
      ActBalances(ActAll(n, earlier), actions[|actions| - 1], p, failuresOnly);
    }
  }

  /** The two books say the same of `p`. */
  predicate Agree(n: Net, p: Name, failuresOnly: bool) {
    SelectorTotal(n.selector, p, failuresOnly) == HealthTotal(n, p, failuresOnly)
  }

  /** Books that agreed at the start agree at the end exactly when what reached one book only evens out. */
  lemma LedgersAgreeIff(n: Net, actions: seq<Action>, p: Name, failuresOnly: bool)
    requires Filed(n) && AllWellFormed(actions) && Agree(n, p, failuresOnly)
    ensures Agree(ActAll(n, actions), p, failuresOnly) <==> AllDrift(n, actions, p, failuresOnly) == 0
  {
    LedgersBalance(n, actions, p, failuresOnly);
  }

  /** Nothing reaches one book only in this step. */
  predicate Even(n: Net, a: Action, p: Name, failuresOnly: bool)
    requires WellFormed(a)
  {
    && Fed(n, a, p, failuresOnly) == 0 && Diverted(n, a, p, failuresOnly) == 0
    && Lost(n, a, p, failuresOnly) == 0 && Swapped(n, a, p, failuresOnly) == 0
  }

  /** No step of the run is uneven. */
  ghost predicate EvenThroughout(n: Net, actions: seq<Action>, p: Name, failuresOnly: bool)
    requires AllWellFormed(actions)
  {
    actions == [] ||
    var earlier, last := actions[..|actions| - 1], actions[|actions| - 1];
    EvenThroughout(n, earlier, p, failuresOnly) && Even(ActAll(n, earlier), last, p, failuresOnly)
  }

  /** The books agree at the start and after each step of the run. */
  ghost predicate AgreeThroughout(n: Net, actions: seq<Action>, p: Name, failuresOnly: bool)
    requires AllWellFormed(actions)
  {
    && Agree(ActAll(n, actions), p, failuresOnly)
    && (actions != [] ==> AgreeThroughout(n, actions[..|actions| - 1], p, failuresOnly))
  }

  /** The books agree at every moment of a run exactly when they do at its start and no step of it feeds an outcome
      in, diverts a call, unregisters a provider that has been called, or installs a selector that knows of more or
      fewer. */
  lemma {:induction false} LedgersAgreeThroughoutIff(n: Net, actions: seq<Action>, p: Name, failuresOnly: bool)
    requires Filed(n) && AllWellFormed(actions)
    ensures AgreeThroughout(n, actions, p, failuresOnly)
       <==> Agree(n, p, failuresOnly) && EvenThroughout(n, actions, p, failuresOnly)
  {
    if actions != [] {
      var earlier, last := actions[..|actions| - 1], actions[|actions| - 1];
      LedgersAgreeThroughoutIff(n, earlier, p, failuresOnly);
      LedgersBalance(n, earlier, p, failuresOnly);
      ActBalances(ActAll(n, earlier), last, p, failuresOnly);
      DriftsInOneWay(ActAll(n, earlier), last, p, failuresOnly);
    }
  }

  /** No step does two of these at once, so they cannot cancel out within one. */
  lemma DriftsInOneWay(n: Net, a: Action, p: Name, failuresOnly: bool)
    requires WellFormed(a)
    ensures Even(n, a, p, failuresOnly) <==> Drift(n, a, p, failuresOnly) == 0
  {
  }

  /** What a caller can see to: no outcomes fed in, no selectors passed with calls or exchanged, and no provider
      unregistered that has been called. */
  ghost predicate OrderlyStep(n: Net, a: Action) {
    match a
    case Feedback(_) => false
    case SetSelector(_) => false
    case Invoke(q, _, _, _) => q.override == Installed
    case Unregister(name) => HealthTotal(n, name, false) == 0
    case _ => true
  }

  ghost predicate Orderly(n: Net, actions: seq<Action>)
    requires AllWellFormed(actions)
  {
    actions == [] ||
    var earlier := actions[..|actions| - 1];
    Orderly(n, earlier) && OrderlyStep(ActAll(n, earlier), actions[|actions| - 1])
  }

  /** Then, with a built-in selector installed from the start, the two books agree throughout. */
  lemma LedgersAgree(n: Net, actions: seq<Action>, p: Name, failuresOnly: bool)
    requires Filed(n) && Sane(n) && AllWellFormed(actions) && Orderly(n, actions)
    requires BuiltIn(n.selector) && Agree(n, p, failuresOnly)
    ensures AgreeThroughout(n, actions, p, failuresOnly)
  {
    OrderlyIsEven(n, actions, p, failuresOnly);
    LedgersAgreeThroughoutIff(n, actions, p, failuresOnly);
  }

  lemma {:induction false} OrderlyIsEven(n: Net, actions: seq<Action>, p: Name, failuresOnly: bool)
    requires Filed(n) && Sane(n) && AllWellFormed(actions) && Orderly(n, actions) && BuiltIn(n.selector)
    ensures BuiltIn(ActAll(n, actions).selector) && EvenThroughout(n, actions, p, failuresOnly)
  {
    if actions != [] {
      var earlier, last := actions[..|actions| - 1], actions[|actions| - 1];
      OrderlyIsEven(n, earlier, p, failuresOnly);
      CountersStaySane(n, earlier);
      OrderlyStepIsEven(ActAll(n, earlier), last, p, failuresOnly);
      StepKeepsTheKind(ActAll(n, earlier), last);
    }
  }

  lemma OrderlyStepIsEven(n: Net, a: Action, p: Name, failuresOnly: bool)
    requires WellFormed(a) && OrderlyStep(n, a) && Sane(n) && BuiltIn(n.selector)
    ensures Even(n, a, p, failuresOnly)
  {
  }

  /** Unregistering a provider that was called and registering it again parts books that agreed. */
  lemma ReregisteringPartsTheBooks(n: Net, p: Name, info: Info, c: Config, ctx: Context, x: Exchange)
    requires Filed(n) && BuiltIn(n.selector) && p in n.health && IsHealthy(n.health[p], x.checked)
    requires c.providers == [p] && Agree(n, p, false)
    ensures var called := Act(n, RunCascade(c, ctx, [x]));
            && Agree(called, p, false)
            && !Agree(Act(Act(called, Unregister(p)), Register(p, info)), p, false)
  {
    var a := RunCascade(c, ctx, [x]);
    var called := Act(n, a);
    ActBalances(n, a, p, false);
    var started := n.(bus := n.bus + [CascadeStarted(c.providers)]);
    WalkCountsCalls(started, c, c.providers, ctx, [x], p);
    ActBalances(called, Unregister(p), p, false);
    ActBalances(Act(called, Unregister(p)), Register(p, info), p, false);
  }

  /** So does a single outcome fed in by hand. */
  lemma FeedbackPartsTheBooks(n: Net, o: Outcome)
    requires Filed(n) && BuiltIn(n.selector) && Agree(n, o.providerName, false)
    ensures !Agree(Act(n, Feedback(o)), o.providerName, false)
  {
    ActBalances(n, Feedback(o), o.providerName, false);
  }

  // ---- the counters of each record -------------------------------------

  ghost predicate Sane(n: Net) {
    forall p :: p in n.health ==> Consistent(n.health[p])
  }

  lemma {:induction false} WalkStaysSane(n: Net, c: Config, names: seq<Name>, ctx: Context, xs: seq<Exchange>)
    requires Sane(n) && |xs| == |names|
    ensures Sane(Walk(n, c, names, ctx, xs).0)
    decreases |names|
  {
    if names != [] {
      assert Sane(AfterTry(n, c, names[0], ctx, xs[0]));
      if AttemptOf(n, names[0], xs[0]).status != SUCCESS {
        WalkStaysSane(AfterTry(n, c, names[0], ctx, xs[0]), c, names[1..], ctx, xs[1..]);
      }
    }
  }

  /** At every moment of every run, each provider's streak is at most its failures, and those at most its calls. */
  lemma {:induction false} CountersStaySane(n: Net, actions: seq<Action>)
    requires Sane(n) && AllWellFormed(actions)
    ensures Sane(ActAll(n, actions))
  {
    if actions != [] {
      var earlier, a := actions[..|actions| - 1], actions[|actions| - 1];
      CountersStaySane(n, earlier);
      StepStaysSane(ActAll(n, earlier), a);
    }
  }

  lemma StepStaysSane(n: Net, a: Action)
    requires Sane(n) && WellFormed(a)
    ensures Sane(Act(n, a))
  {
    if a.RunCascade? {
      WalkStaysSane(n.(bus := n.bus + [CascadeStarted(a.c.providers)]), a.c, a.c.providers, a.ctx, a.xs);
    }
  }

  /** Only installing a selector changes its kind. */
  lemma StepKeepsTheKind(n: Net, a: Action)
    requires WellFormed(a) && !a.SetSelector?
    ensures BuiltIn(Act(n, a).selector) <==> BuiltIn(n.selector)
  {
    match a
    case Route(q) => RoutingKeepsTheKind(n, q);
    case Invoke(q, reply, now, stamp) =>
      RoutingKeepsTheKind(n, q);
      InvokingIsBooking(n, q, reply, now, stamp);
    case RunCascade(c, ctx, xs) =>
      WalkKeepsTheKind(n.(bus := n.bus + [CascadeStarted(c.providers)]), c, c.providers, ctx, xs);
    case _ =>
  }

  lemma RoutingKeepsTheKind(n: Net, q: Query)
    ensures BuiltIn(Routed(n, q).selector) <==> BuiltIn(n.selector)
  {
  }

  lemma {:induction false} WalkKeepsTheKind(n: Net, c: Config, names: seq<Name>, ctx: Context, xs: seq<Exchange>)
    requires |xs| == |names|
    ensures BuiltIn(Walk(n, c, names, ctx, xs).0.selector) <==> BuiltIn(n.selector)
    decreases |names|
  {
    if names != [] && AttemptOf(n, names[0], xs[0]).status != SUCCESS {
      WalkKeepsTheKind(AfterTry(n, c, names[0], ctx, xs[0]), c, names[1..], ctx, xs[1..]);
    }
  }
}
