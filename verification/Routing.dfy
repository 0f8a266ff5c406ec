/** Providers, routing and the routed call (atlas/router.py, atlas/_registry.py). */
module Routing {
  import opened Prelude
  import opened ProviderHealths
  import opened Bandits

  type Output(==, !new)    // what a provider returns
  type Problem(==, !new)   // the exception it raises

  datatype Info = Info(capabilities: seq<Name>, tags: seq<Name>)

  datatype Reply = Returned(output: Output) | Threw(problem: Problem)

  /** A selector: none, a built-in one with its arms, or one of the caller's own making. */
  datatype Selector = Unset | Ucb1(tuning: Tuning, arms: Arms) | Thompson(arms: Arms) | Custom

  predicate BuiltIn(s: Selector) {
    s.Ucb1? || s.Thompson?
  }

  /** A selector that comes with a call. */
  type GivenSelector = s: Selector | !s.Unset? witness Custom

  /** One attempt of a cascade; a reason is the exception that made it fail. */
  datatype Attempt = Attempt(name: Name, status: Status, problem: Option<Problem>)

  datatype CascadeResult = CascadeResult(
    attempts: seq<Attempt>, chosen: Option<Name>, output: Option<Output>, status: Status)

  datatype Event =
    | RoutingDecided(decision: Decision)
    | CascadeStarted(providers: seq<Name>)
    | CascadeAttempt(attempt: Attempt)
    | CascadeCompleted(result: CascadeResult)
    | CascadeFailed(result: CascadeResult)

  /** Everything the facade keeps, and what it has published. */
  datatype Net = Net(infos: Dict<Name, Info>, health: map<Name, Health>, selector: Selector, bus: seq<Event>)

  datatype Status = SUCCESS | NO_CANDIDATES | ALL_UNHEALTHY | FAILED

  datatype SkipReason = NotRegistered | NoCapability(capability: Name) | MissingTags(missing: seq<Name>) | InCooldown

  /** Which selector a call asks: the installed one (also when the call passes that very object), one given with the
      call, or one by a name that nobody registered. A built-in name gives a selector without arms, a new one each
      time. */
  datatype Override = Installed | Given(selector: GivenSelector) | UnknownName

  /** What a selector of the caller's own making does when it is asked. */
  datatype Answer = Chooses(name: Name) | Declines | Raises

  /** One routing request. `clock(i)` is the reading of the i-th health check, `draw` stands for a random choice, and
      `answer` is what a selector of the caller's own making does if this call asks one. */
  datatype Query = Query(
    candidates: Option<seq<Name>>, capability: Option<Name>, tags: seq<Name>,
    override: Override, ctx: Context, draw: nat, answer: Answer, clock: nat -> real)

  datatype Decision = Decision(
    chosen: Option<Name>, considered: seq<Name>, skipped: seq<(Name, SkipReason)>, status: Status)

  // ---- the filters -----------------------------------------------------

  predicate Registered(n: Net, name: Name) {
    name in n.infos.entries
  }

  predicate Capable(n: Net, q: Query, name: Name)
    requires Registered(n, name)
  {
    q.capability.Some? ==> q.capability.value in n.infos.entries[name].capabilities
  }

  /** The wanted tags a provider lacks, in the order they were asked for. */
  function Missing(tags: seq<Name>, has: seq<Name>): (r: seq<Name>)
    ensures r == [] <==> forall t :: t in tags ==> t in has
    ensures forall t :: t in r <==> t in tags && t !in has
  {
    if tags == [] then []
    else
      var earlier, last := Missing(tags[..|tags| - 1], has), tags[|tags| - 1];
      if last in has then earlier else earlier + [last]
  }

  predicate Tagged(n: Net, q: Query, name: Name)
    requires Registered(n, name)
  {
    forall t :: t in q.tags ==> t in n.infos.entries[name].tags
  }

  /** Why a name is dropped before the health check; None when it is not. */
  function Objection(n: Net, q: Query, name: Name): Option<SkipReason> {
    if !Registered(n, name) then Some(NotRegistered)
    else if !Capable(n, q, name) then Some(NoCapability(q.capability.value))
    else if !Tagged(n, q, name) then Some(MissingTags(Missing(q.tags, n.infos.entries[name].tags)))
    else None
  }

  /** The names with no objection of the kinds in question. */
  function Kept(names: seq<Name>, objection: Name -> Option<SkipReason>): (r: seq<Name>)
    ensures forall x :: x in r <==> x in names && objection(x) == None
  {
    if names == [] then []
    else
      var earlier, last := Kept(names[..|names| - 1], objection), names[|names| - 1];
      if objection(last) == None then earlier + [last] else earlier
  }

  function Dropped(names: seq<Name>, objection: Name -> Option<SkipReason>): seq<(Name, SkipReason)> {
    if names == [] then []
    else
      var earlier, last := Dropped(names[..|names| - 1], objection), names[|names| - 1];
      if objection(last) == None then earlier else earlier + [(last, objection(last).value)]
  }

  function ByRegistration(n: Net): Name -> Option<SkipReason> {
    name => if Registered(n, name) then None else Some(NotRegistered)
  }

  function ByCapability(n: Net, q: Query): Name -> Option<SkipReason> {
    name => if Registered(n, name) && !Capable(n, q, name) then Some(NoCapability(q.capability.value)) else None
  }

  function ByTags(n: Net, q: Query): Name -> Option<SkipReason> {
    name => if Registered(n, name) && !Tagged(n, q, name)
            then Some(MissingTags(Missing(q.tags, n.infos.entries[name].tags))) else None
  }

  predicate HealthyAt(n: Net, name: Name, now: real) {
    name in n.health ==> IsHealthy(n.health[name], now)
  }

  /** The survivors of the health check; the i-th name is checked at the i-th clock reading. */
  function Survivors(n: Net, names: seq<Name>, clock: nat -> real): (r: seq<Name>)
    ensures forall x :: x in r ==> x in names
  {
    if names == [] then []
    else
      var earlier, i := Survivors(n, names[..|names| - 1], clock), |names| - 1;
      if HealthyAt(n, names[i], clock(i)) then earlier + [names[i]] else earlier
  }

  function Unhealthy(n: Net, names: seq<Name>, clock: nat -> real): seq<(Name, SkipReason)> {
    if names == [] then []
    else
      var earlier, i := Unhealthy(n, names[..|names| - 1], clock), |names| - 1;
      if HealthyAt(n, names[i], clock(i)) then earlier else earlier + [(names[i], InCooldown)]
  }

  // ---- the decision ----------------------------------------------------

  function Considered(n: Net, q: Query): seq<Name> {
    if q.candidates.Some? then q.candidates.value else n.infos.keys
  }

  /** The candidates left by registration, capability and tags. */
  function Pool(n: Net, q: Query): seq<Name> {
    Kept(Kept(Kept(Considered(n, q), ByRegistration(n)), ByCapability(n, q)), ByTags(n, q))
  }

  /** The survivors of all the filters. */
  function Healthy(n: Net, q: Query): (r: seq<Name>)
    ensures forall x :: x in r ==> x in Pool(n, q)
  {
    Survivors(n, Pool(n, q), q.clock)
  }

  function Skipped(n: Net, q: Query): seq<(Name, SkipReason)> {
    var registered := Kept(Considered(n, q), ByRegistration(n));
    var capable := Kept(registered, ByCapability(n, q));
    Dropped(Considered(n, q), ByRegistration(n)) + Dropped(registered, ByCapability(n, q))
    + Dropped(capable, ByTags(n, q)) + Unhealthy(n, Pool(n, q), q.clock)
  }

  /** The selector that decides this call. */
  function InForce(n: Net, q: Query): Selector {
    if q.override.Given? then q.override.selector else n.selector
  }

  /** What a selector makes of the survivors; without one the first is chosen. */
  function AnswerOf(s: Selector, q: Query, survivors: seq<Name>): Answer
    requires survivors != []
  {
    match s
    case Unset => Chooses(survivors[0])
    case Ucb1(t, arms) => Chooses(Pick(t, arms, q.ctx, survivors))
    case Thompson(_) => Chooses(survivors[q.draw % |survivors|])
    case Custom => q.answer
  }

  function Choice(n: Net, q: Query, survivors: seq<Name>): Answer
    requires survivors != []
  {
    AnswerOf(InForce(n, q), q, survivors)
  }

  /** The decision, once the filters are through and the selector, if there are survivors, has been asked. */
  function Settled(considered: seq<Name>, skipped: seq<(Name, SkipReason)>, pool: seq<Name>, survivors: seq<Name>,
                   answer: Answer): Option<Decision>
  {
    if pool == [] then Some(Decision(None, considered, skipped, NO_CANDIDATES))
    else if survivors == [] then Some(Decision(None, considered, skipped, ALL_UNHEALTHY))
    else match answer
      case Chooses(name) => Some(Decision(Some(name), considered, skipped, SUCCESS))
      case Declines => Some(Decision(None, considered, skipped, NO_CANDIDATES))
      case Raises => None
  }

  /** None when the call raises: for an unknown selector name, before anything else, or with a selector that raises. */
  function Decide(n: Net, q: Query): Option<Decision> {
    var survivors := Healthy(n, q);
    if q.override.UnknownName? then None
    else Settled(Considered(n, q), Skipped(n, q), Pool(n, q), survivors,
                 if survivors == [] then Declines else Choice(n, q, survivors))
  }

  function ChosenBy(n: Net, q: Query): Option<Name> {
    var d := Decide(n, q);
    if d.Some? then d.value.chosen else None
  }

  /** A built-in selector that is asked creates the survivors' arms. */
  function Asked(s: Selector, ctx: Context, survivors: seq<Name>): Selector {
    match s
    case Unset => Unset
    case Ucb1(t, arms) => Ucb1(t, EnsureAll(arms, survivors, ctx))
    case Thompson(arms) => Thompson(EnsureAll(arms, survivors, ctx))
    case Custom => Custom
  }

  /** The installed selector after a choice: changed only if it was the one asked. */
  function AfterChoice(s: Selector, q: Query, survivors: seq<Name>): Selector {
    if q.override != Installed || survivors == [] then s else Asked(s, q.ctx, survivors)
  }

  function AfterDecision(n: Net, q: Query): Net {
    n.(selector := AfterChoice(n.selector, q, Healthy(n, q)))
  }

  /** A decision is published; a call that raises changes nothing. */
  function Routed(n: Net, q: Query): Net {
    var d := Decide(n, q);
    if d.None? then n else AfterDecision(n, q).(bus := n.bus + [RoutingDecided(d.value)])
  }

  lemma RaisingChangesNothing(n: Net, q: Query)
    ensures Decide(n, q).None? ==> AfterDecision(n, q) == n
  {
    OutcomeByCase(n, q);
  }

  // ---- what the decision means -----------------------------------------

  function Names(skipped: seq<(Name, SkipReason)>): seq<Name> {
    seq(|skipped|, i requires 0 <= i < |skipped| => skipped[i].0)
  }

  lemma NamesOfBoth(a: seq<(Name, SkipReason)>, b: seq<(Name, SkipReason)>)
    ensures multiset(Names(a + b)) == multiset(Names(a)) + multiset(Names(b))
  {
    assert Names(a + b) == Names(a) + Names(b);
  }

  lemma {:induction false} FilterConserves(names: seq<Name>, objection: Name -> Option<SkipReason>)
    ensures multiset(names) == multiset(Kept(names, objection)) + multiset(Names(Dropped(names, objection)))
  {
    if names != [] {
      var earlier, last := names[..|names| - 1], names[|names| - 1];
      FilterConserves(earlier, objection);
      assert names == earlier + [last];
      if objection(last) != None {
        NamesOfBoth(Dropped(earlier, objection), [(last, objection(last).value)]);
        assert Names([(last, objection(last).value)]) == [last];
      }
    }
  }

  lemma {:induction false} HealthCheckConserves(n: Net, names: seq<Name>, clock: nat -> real)
    ensures multiset(names) == multiset(Survivors(n, names, clock)) + multiset(Names(Unhealthy(n, names, clock)))
  {
    if names != [] {
      var earlier, last := names[..|names| - 1], names[|names| - 1];
      HealthCheckConserves(n, earlier, clock);
      assert names == earlier + [last];
      if !HealthyAt(n, last, clock(|names| - 1)) {
        NamesOfBoth(Unhealthy(n, earlier, clock), [(last, InCooldown)]);
        assert Names([(last, InCooldown)]) == [last];
      }
    }
  }

  lemma DecisionNames(n: Net, q: Query)
    requires Decide(n, q).Some?
    ensures Decide(n, q).value.considered == Considered(n, q) && Decide(n, q).value.skipped == Skipped(n, q)
  {
  }

  /** Every candidate, counted as often as it was listed, is either skipped for a reason or a healthy survivor. */
  lemma RoutingConservesCandidates(n: Net, q: Query)
    requires Decide(n, q).Some?
    ensures multiset(Decide(n, q).value.considered)
         == multiset(Names(Decide(n, q).value.skipped)) + multiset(Healthy(n, q))
  {
    var all := Considered(n, q);
    var registered := Kept(all, ByRegistration(n));
    var capable := Kept(registered, ByCapability(n, q));
    FilterConserves(all, ByRegistration(n));
    FilterConserves(registered, ByCapability(n, q));
    FilterConserves(capable, ByTags(n, q));
    HealthCheckConserves(n, Pool(n, q), q.clock);
    var a, b := Dropped(all, ByRegistration(n)), Dropped(registered, ByCapability(n, q));
    var c, d := Dropped(capable, ByTags(n, q)), Unhealthy(n, Pool(n, q), q.clock);
    NamesOfBoth(a, b);
    NamesOfBoth(a + b, c);
    NamesOfBoth(a + b + c, d);
    DecisionNames(n, q);
  }

  /** A single pass: the first candidate, from the one at place `i` on, without objection and healthy when checked;
      `checks` health checks have been made before. */
  function FirstFit(n: Net, q: Query, names: seq<Name>, i: nat, checks: nat): Option<Name>
    requires i <= |names|
    decreases |names| - i
  {
    if i == |names| then None
    else if Objection(n, q, names[i]) != None then FirstFit(n, q, names, i + 1, checks)
    else if HealthyAt(n, names[i], q.clock(checks)) then Some(names[i])
    else FirstFit(n, q, names, i + 1, checks + 1)
  }

  function ByAny(n: Net, q: Query): Name -> Option<SkipReason> {
    name => Objection(n, q, name)
  }

  lemma KeptOneMore(names: seq<Name>, last: Name, objection: Name -> Option<SkipReason>)
    ensures Kept(names + [last], objection)
         == if objection(last) == None then Kept(names, objection) + [last] else Kept(names, objection)
  {
    assert (names + [last])[..|names|] == names;
  }

  /** The three filters in a row are one filter by the first objection. */
  lemma {:induction false} FiltersCompose(n: Net, q: Query, names: seq<Name>)
    ensures Kept(Kept(Kept(names, ByRegistration(n)), ByCapability(n, q)), ByTags(n, q)) == Kept(names, ByAny(n, q))
  {
    if names != [] {
      var earlier, last := names[..|names| - 1], names[|names| - 1];
      FiltersCompose(n, q, earlier);
      KeptOneMore(Kept(earlier, ByRegistration(n)), last, ByCapability(n, q));
      KeptOneMore(Kept(Kept(earlier, ByRegistration(n)), ByCapability(n, q)), last, ByTags(n, q));
    }
  }

  function FirstOf(names: seq<Name>): Option<Name> {
    if names == [] then None else Some(names[0])
  }

  /** More candidates can only add survivors at the end. */
  lemma {:induction false} SurvivorsExtend(n: Net, q: Query, names: seq<Name>, i: nat)
    requires i <= |names|
    ensures Survivors(n, Kept(names[..i], ByAny(n, q)), q.clock) <= Survivors(n, Kept(names, ByAny(n, q)), q.clock)
    decreases |names|
  {
    if i < |names| {
      var earlier := names[..|names| - 1];
      assert earlier[..i] == names[..i];
      SurvivorsExtend(n, q, earlier, i);
      var kept, last := Kept(earlier, ByAny(n, q)), names[|names| - 1];
      assert (kept + [last])[..|kept|] == kept;
    } else {
      assert names[..i] == names;
    }
  }

  lemma SurvivorsOneMore(n: Net, names: seq<Name>, last: Name, clock: nat -> real)
    ensures Survivors(n, names + [last], clock)
         == Survivors(n, names, clock) + if HealthyAt(n, last, clock(|names|)) then [last] else []
  {
    assert (names + [last])[..|names|] == names;
  }

  lemma OneMoreCandidate(n: Net, q: Query, names: seq<Name>, i: nat)
    requires i < |names|
    ensures var kept, more := Kept(names[..i], ByAny(n, q)), Kept(names[..i + 1], ByAny(n, q));
            if Objection(n, q, names[i]) != None then more == kept
            else |more| == |kept| + 1
                 && Survivors(n, more, q.clock) == Survivors(n, kept, q.clock)
                                                   + if HealthyAt(n, names[i], q.clock(|kept|)) then [names[i]] else []
  {
    Slices(names, i);
    KeptOneMore(names[..i], names[i], ByAny(n, q));
    SurvivorsOneMore(n, Kept(names[..i], ByAny(n, q)), names[i], q.clock);
  }

  lemma {:induction false} FirstFitFindsTheFirstSurvivor(n: Net, q: Query, names: seq<Name>, i: nat)
    requires i <= |names|
    requires Survivors(n, Kept(names[..i], ByAny(n, q)), q.clock) == []
    ensures FirstFit(n, q, names, i, |Kept(names[..i], ByAny(n, q))|)
         == FirstOf(Survivors(n, Kept(names, ByAny(n, q)), q.clock))
    decreases |names| - i
  {
    if i == |names| {
      assert names[..i] == names;
    } else {
      OneMoreCandidate(n, q, names, i);
      if Objection(n, q, names[i]) == None && HealthyAt(n, names[i], q.clock(|Kept(names[..i], ByAny(n, q))|)) {
        SurvivorsExtend(n, q, names, i + 1);
      } else {
        FirstFitFindsTheFirstSurvivor(n, q, names, i + 1);
      }
    }
  }

  /** Without a selector the filters and the pick together are one pass: the first candidate in order that is
      registered, capable, fully tagged and healthy when checked. */
  lemma RoutingRefinesOnePass(n: Net, q: Query)
    requires q.override == Installed && n.selector.Unset?
    ensures Decide(n, q).Some? && ChosenBy(n, q) == FirstFit(n, q, Considered(n, q), 0, 0)
  {
    FirstSurvivorIsFirstFit(n, q);
  }

  lemma FirstSurvivorIsFirstFit(n: Net, q: Query)
    ensures FirstOf(Healthy(n, q)) == FirstFit(n, q, Considered(n, q), 0, 0)
  {
    var names := Considered(n, q);
    FiltersCompose(n, q, names);
    assert names[..0] == [];
    FirstFitFindsTheFirstSurvivor(n, q, names, 0);
  }

  /** Asking for "ucb1" by name is asking for no selector: whatever was learned before, the new bandit has tried nothing
      and takes the first survivor. */
  lemma NamedUcb1IsFirstFit(n: Net, q: Query, t: Tuning)
    requires q.override == Given(Ucb1(t, Table([], map[])))
    ensures Decide(n, q).Some? && ChosenBy(n, q) == FirstFit(n, q, Considered(n, q), 0, 0)
    ensures AfterDecision(n, q) == n
  {
    FirstSurvivorIsFirstFit(n, q);
    var survivors := Healthy(n, q);
    if survivors != [] { UntriedPicksTheFirst(t, q.ctx, survivors); }
  }

  lemma UntriedPicksTheFirst(t: Tuning, ctx: Context, names: seq<Name>)
    requires names != []
    ensures Pick(t, Table([], map[]), ctx, names) == names[0]
  {
    var score := Scorer(t, Table([], map[]), ctx);
    BestIsTheFirstMaximum(score, names);
    assert forall x :: score(x) == Infinite;
    var i :| 0 <= i < |names| && names[i] == Best(score, names)
             && forall j :: 0 <= j < i ==> Below(score(names[j]), score(Best(score, names)));
  }

  /** The call asks this UCB1 bandit: the installed one, or one that comes with it. */
  ghost predicate AsksUcb1(n: Net, q: Query, t: Tuning, arms: Arms) {
    q.override == Given(Ucb1(t, arms)) || (q.override == Installed && n.selector == Ucb1(t, arms))
  }

  lemma Ucb1IsAsked(n: Net, q: Query, t: Tuning, arms: Arms)
    requires AsksUcb1(n, q, t, arms) && Healthy(n, q) != []
    ensures ChosenBy(n, q) == Some(Pick(t, arms, q.ctx, Healthy(n, q)))
  {
    OutcomeByCase(n, q);
    assert Choice(n, q, Healthy(n, q)) == Chooses(Pick(t, arms, q.ctx, Healthy(n, q)));
  }

  /** A UCB1 bandit has its way: the choice is the first survivor, in order, whose score in the query's context no
      survivor beats. */
  lemma Ucb1DecidesTheRoute(n: Net, q: Query, t: Tuning, arms: Arms)
    requires AsksUcb1(n, q, t, arms) && Healthy(n, q) != []
    ensures exists i :: 0 <= i < |Healthy(n, q)| && ChosenBy(n, q) == Some(Healthy(n, q)[i])
              && FirstBestScore(t, arms, q.ctx, Healthy(n, q), i)
  {
    var survivors := Healthy(n, q);
    BestIsTheFirstMaximum(Scorer(t, arms, q.ctx), survivors);
    Ucb1IsAsked(n, q, t, arms);
    var i :| 0 <= i < |survivors| && survivors[i] == Best(Scorer(t, arms, q.ctx), survivors)
             && forall j :: 0 <= j < i ==>
               Below(Scorer(t, arms, q.ctx)(survivors[j]), Scorer(t, arms, q.ctx)(survivors[i]));
    assert FirstBestScore(t, arms, q.ctx, survivors, i);
  }

  /** Name `i` has the largest score, and every name before it a smaller one. */
  ghost predicate FirstBestScore(t: Tuning, arms: Arms, ctx: Context, names: seq<Name>, i: int)
    requires 0 <= i < |names|
  {
    && (forall x :: x in names ==> !Below(ScoreOf(t, arms, ctx, names[i]), ScoreOf(t, arms, ctx, x)))
    && (forall j :: 0 <= j < i ==> Below(ScoreOf(t, arms, ctx, names[j]), ScoreOf(t, arms, ctx, names[i])))
  }

  /** Of two survivors called equally often, the one that earned less in this context is not chosen. */
  lemma LesserEarnerIsNotRouted(n: Net, q: Query, t: Tuning, arms: Arms, p: Name, better: Name)
    requires AsksUcb1(n, q, t, arms) && p in Healthy(n, q) && better in Healthy(n, q)
    requires ArmOf(arms, p, q.ctx).pulls == ArmOf(arms, better, q.ctx).pulls > 0
    requires ArmOf(arms, p, q.ctx).totalReward < ArmOf(arms, better, q.ctx).totalReward
    ensures ChosenBy(n, q).Some? && ChosenBy(n, q) != Some(p)
  {
    Ucb1IsAsked(n, q, t, arms);
    LesserEarnerIsNeverPicked(t, arms, q.ctx, Healthy(n, q), p, better);
  }

  /** The filters in plain terms: what each objection means, and that a survivor's cooldown is over when it is
      checked. */
  lemma FiltersInPlainTerms(n: Net, q: Query, x: Name)
    ensures Objection(n, q, x) == Some(NotRegistered) <==> x !in n.infos.entries
    ensures Objection(n, q, x).Some? && Objection(n, q, x).value.NoCapability? <==>
              x in n.infos.entries && q.capability.Some? && q.capability.value !in n.infos.entries[x].capabilities
    ensures x in Pool(n, q) <==>
              && x in Considered(n, q) && x in n.infos.entries
              && (q.capability.Some? ==> q.capability.value in n.infos.entries[x].capabilities)
              && (forall t :: t in q.tags ==> t in n.infos.entries[x].tags)
    ensures x in Healthy(n, q) <==>
              exists i: nat :: i < |Pool(n, q)| && Pool(n, q)[i] == x && CooledDown(n, x, q.clock(i))
  {
    PoolIsWithoutObjection(n, q);
    SurvivorsAreHealthy(n, Pool(n, q), q.clock, x);
  }

  /** Every skipped name has its reason: the objection to it, or a cooldown that was not over when it was checked. */
  lemma SkippedInPlainTerms(n: Net, q: Query, x: Name, reason: SkipReason)
    requires (x, reason) in Skipped(n, q)
    ensures x in Considered(n, q)
    ensures Objection(n, q, x) == Some(reason)
            || (reason == InCooldown && Objection(n, q, x) == None
                && exists i: nat :: i < |Pool(n, q)| && Pool(n, q)[i] == x && !CooledDown(n, x, q.clock(i)))
  {
    var all := Considered(n, q);
    var registered := Kept(all, ByRegistration(n));
    var capable := Kept(registered, ByCapability(n, q));
    if (x, reason) in Dropped(all, ByRegistration(n)) {
      DroppedHaveReasons(all, ByRegistration(n), x, reason);
    } else if (x, reason) in Dropped(registered, ByCapability(n, q)) {
      DroppedHaveReasons(registered, ByCapability(n, q), x, reason);
    } else if (x, reason) in Dropped(capable, ByTags(n, q)) {
      DroppedHaveReasons(capable, ByTags(n, q), x, reason);
    } else {
      UnhealthyHaveReasons(n, Pool(n, q), q.clock, x, reason);
    }
    PoolIsWithoutObjection(n, q);
  }

  lemma {:induction false} DroppedHaveReasons(names: seq<Name>, objection: Name -> Option<SkipReason>, x: Name,
                                              reason: SkipReason)
    requires (x, reason) in Dropped(names, objection)
    ensures x in names && objection(x) == Some(reason)
  {
    var earlier := names[..|names| - 1];
    if (x, reason) in Dropped(earlier, objection) { DroppedHaveReasons(earlier, objection, x, reason); }
  }

  lemma {:induction false} UnhealthyHaveReasons(n: Net, names: seq<Name>, clock: nat -> real, x: Name,
                                                reason: SkipReason)
    requires (x, reason) in Unhealthy(n, names, clock)
    ensures reason == InCooldown
    ensures exists i: nat :: i < |names| && names[i] == x && !CooledDown(n, x, clock(i))
  {
    var last: nat := |names| - 1;
    if (x, reason) in Unhealthy(n, names[..last], clock) {
      UnhealthyHaveReasons(n, names[..last], clock, x, reason);
      var i: nat :| i < last && names[..last][i] == x && !CooledDown(n, x, clock(i));
      assert names[i] == x;
    } else {
      assert names[last] == x && !CooledDown(n, x, clock(last));
    }
  }

  /** No record, or a cooldown that is over. */
  predicate CooledDown(n: Net, x: Name, now: real) {
    x !in n.health || n.health[x].cooldownUntil <= now
  }

  lemma {:induction false} SurvivorsAreHealthy(n: Net, names: seq<Name>, clock: nat -> real, x: Name)
    ensures x in Survivors(n, names, clock) <==>
              exists i: nat :: i < |names| && names[i] == x && CooledDown(n, x, clock(i))
  {
    if names != [] {
      var last: nat := |names| - 1;
      SurvivorsAreHealthy(n, names[..last], clock, x);
      assert HealthyAt(n, names[last], clock(last)) <==> CooledDown(n, names[last], clock(last));
      if i: nat :| i < last && names[..last][i] == x && CooledDown(n, x, clock(i)) {
        assert names[i] == x;
      }
      if i: nat :| i < |names| && names[i] == x && CooledDown(n, x, clock(i)) {
        assert i < last ==> names[..last][i] == x;
      }
    }
  }

  /** The selector the call asks is of the caller's own making, and it is asked. */
  predicate AsksCustom(n: Net, q: Query) {
    !q.override.UnknownName? && InForce(n, q).Custom? && Healthy(n, q) != []
  }

  /** The outcome, by what the filters left and what a selector of the caller's own making answered. */
  lemma OutcomeByCase(n: Net, q: Query)
    ensures Decide(n, q) == None <==> q.override.UnknownName? || (AsksCustom(n, q) && q.answer.Raises?)
    ensures Decide(n, q).Some? ==>
              var d, survivors := Decide(n, q).value, Healthy(n, q);
              && (d.status == NO_CANDIDATES <==> Pool(n, q) == [] || (AsksCustom(n, q) && q.answer.Declines?))
              && (d.status == ALL_UNHEALTHY <==> survivors == [] && Pool(n, q) != [])
              && (d.status == SUCCESS <==> survivors != [] && (AsksCustom(n, q) ==> q.answer.Chooses?))
              && (d.status == SUCCESS <==> d.chosen.Some?)
              && (d.chosen.Some? ==>
                    if AsksCustom(n, q) then q.answer == Chooses(d.chosen.value) else d.chosen.value in survivors)
  {
    var survivors := Healthy(n, q);
    assert survivors != [] ==> survivors[0] in Pool(n, q);
    var answer := if survivors == [] then Declines else Choice(n, q, survivors);
    SettledByCase(Considered(n, q), Skipped(n, q), Pool(n, q), survivors, answer);
    if survivors != [] && !InForce(n, q).Custom? { ChoiceIsASurvivor(n, q, survivors); }
  }

  lemma SettledByCase(considered: seq<Name>, skipped: seq<(Name, SkipReason)>, pool: seq<Name>, survivors: seq<Name>,
                      answer: Answer)
    requires survivors != [] ==> pool != []
    ensures var r := Settled(considered, skipped, pool, survivors, answer);
            && (r == None <==> survivors != [] && answer.Raises?)
            && (r.Some? ==>
                  && (r.value.status == NO_CANDIDATES <==> pool == [] || (survivors != [] && answer.Declines?))
                  && (r.value.status == ALL_UNHEALTHY <==> survivors == [] && pool != [])
                  && (r.value.status == SUCCESS <==> survivors != [] && answer.Chooses?)
                  && r.value.chosen == if survivors != [] && answer.Chooses? then Some(answer.name) else None)
  {
  }

  /** When each outcome arises. A choice is a healthy candidate without objections, unless a selector of the caller's
      own making was asked: then it is whatever that one answered. */
  lemma DecisionIsExact(n: Net, q: Query)
    ensures Decide(n, q) == None <==> q.override.UnknownName? || (AsksCustom(n, q) && q.answer.Raises?)
    ensures Decide(n, q).Some? ==>
              var d, survivors := Decide(n, q).value, Healthy(n, q);
              && (d.status == NO_CANDIDATES <==>
                    || (forall x :: x in Considered(n, q) ==> Objection(n, q, x) != None)
                    || (AsksCustom(n, q) && q.answer.Declines?))
              && (d.status == ALL_UNHEALTHY <==>
                    survivors == [] && exists x :: x in Considered(n, q) && Objection(n, q, x) == None)
              && (d.status == SUCCESS <==> survivors != [] && (AsksCustom(n, q) ==> q.answer.Chooses?))
              && (d.status == SUCCESS <==> d.chosen.Some?)
              && (d.chosen.Some? ==>
                    if AsksCustom(n, q) then q.answer == Chooses(d.chosen.value)
                    else d.chosen.value in survivors && d.chosen.value in Considered(n, q)
                         && Objection(n, q, d.chosen.value) == None)
  {
    OutcomeByCase(n, q);
    PoolIsWithoutObjection(n, q);
    assert Pool(n, q) != [] ==> Pool(n, q)[0] in Pool(n, q);
  }

  lemma PoolIsWithoutObjection(n: Net, q: Query)
    ensures forall x :: x in Pool(n, q) <==> x in Considered(n, q) && Objection(n, q, x) == None
  {
    FiltersCompose(n, q, Considered(n, q));
    assert forall x :: x in Pool(n, q) <==> x in Considered(n, q) && ByAny(n, q)(x) == None;
  }

  /** Without a selector, and with a built-in one, a survivor is chosen. */
  lemma ChoiceIsASurvivor(n: Net, q: Query, survivors: seq<Name>)
    requires survivors != [] && !InForce(n, q).Custom?
    ensures Choice(n, q, survivors).Chooses? && Choice(n, q, survivors).name in survivors
  {
    if InForce(n, q).Ucb1? {
      BestIsTheFirstMaximum(Scorer(InForce(n, q).tuning, InForce(n, q).arms, q.ctx), survivors);
    }
  }

  // ---- the routed call -------------------------------------------------

  const DEFAULT_FAILURE_COOLDOWN := 30.0

  /** What the installed selector makes of an outcome. */
  function Learns(s: Selector, o: Outcome): Selector {
    match s
    case Unset => Unset
    case Ucb1(t, arms) => Ucb1(t, Learn(arms, o))
    case Thompson(arms) => Thompson(LearnCounts(arms, o))
    case Custom => Custom
  }

  function OutcomeOf(name: Name, success: bool, ctx: Context, stamp: real): Outcome {
    Outcome(name, success, if success then 1.0 else 0.0, ctx, stamp)
  }

  function HealthAfter(h: Health, reply: Reply, now: real): Health {
    if reply.Returned? then AfterSuccess(h) else AfterFailure(h, now, DEFAULT_FAILURE_COOLDOWN)
  }

  /** Books the reply of the provider `name` on its health and, unless the call brought its own selector, on the
      installed one. */
  function Booked(n: Net, q: Query, name: Name, reply: Reply, now: real, stamp: real): Net
    requires name in n.health
  {
    var o := OutcomeOf(name, reply.Returned?, q.ctx, stamp);
    n.(health := n.health[name := HealthAfter(n.health[name], reply, now)],
       selector := if q.override == Installed then Learns(n.selector, o) else n.selector)
  }

  /** What an invocation comes to: an exception, or the chosen provider and its output, either of which may be
      missing. */
  datatype Report = Raised | Answered(name: Option<Name>, output: Option<Output>)

  /** Calls the chosen provider, if there is one, and books its reply. */
  function Dispatched(n: Net, q: Query, chosen: Option<Name>, reply: Reply, now: real, stamp: real): (Net, Report) {
    if chosen.None? then (n, Answered(None, None))
    else if chosen.value !in n.health then (n, Answered(chosen, None))
    else (Booked(n, q, chosen.value, reply, now, stamp),
          Answered(chosen, if reply.Returned? then Some(reply.output) else None))
  }

  /** Route, then call; `now` is the clock when the call ended. */
  function Invoked(n: Net, q: Query, reply: Reply, now: real, stamp: real): (Net, Report) {
    if Decide(n, q).None? then (n, Raised)
    else Dispatched(Routed(n, q), q, ChosenBy(n, q), reply, now, stamp)
  }

  /** One arm has counted one call, in plain terms: UCB1 adds a pull and a reward of one or nothing, both kinds the
      success or failure and the time; no other arm changes, and other selectors learn nothing the model knows of. */
  ghost predicate Taught(s: Selector, s': Selector, p: Name, ctx: Context, success: bool, stamp: real) {
    if !BuiltIn(s) then s' == s
    else
      && (s.Ucb1? <==> s'.Ucb1?) && BuiltIn(s') && (s.Ucb1? ==> s'.tuning == s.tuning)
      && (forall x, c :: x != p || c != ctx ==> ArmOf(s'.arms, x, c) == ArmOf(s.arms, x, c))
      && var a, a' := ArmOf(s.arms, p, ctx), ArmOf(s'.arms, p, ctx);
         && a'.successes == a.successes + (if success then 1 else 0)
         && a'.failures == a.failures + (if success then 0 else 1)
         && a'.pulls == a.pulls + (if s.Ucb1? then 1 else 0)
         && a'.totalReward == a.totalReward + (if s.Ucb1? && success then 1.0 else 0.0)
         && a'.lastUpdated == stamp
  }

  lemma LearningIsTeaching(s: Selector, p: Name, success: bool, ctx: Context, stamp: real)
    ensures Taught(s, Learns(s, OutcomeOf(p, success, ctx, stamp)), p, ctx, success, stamp)
  {
    if BuiltIn(s) {
      var o := OutcomeOf(p, success, ctx, stamp);
      SetArmIsExact(s.arms, p, ctx, Learned(ArmOf(s.arms, p, ctx), o));
      SetArmIsExact(s.arms, p, ctx, Counted(ArmOf(s.arms, p, ctx), o));
    }
  }

  lemma AskingTeachesNothing(s: Selector, q: Query, survivors: seq<Name>, after: Selector, p: Name, ctx: Context,
                             success: bool, stamp: real)
    requires Taught(AfterChoice(s, q, survivors), after, p, ctx, success, stamp)
    ensures BuiltIn(s) ==> Taught(s, after, p, ctx, success, stamp)
  {
    if BuiltIn(s) && q.override == Installed { EnsuringChangesNoStatistic(s.arms, survivors, q.ctx); }
  }

  /** One call has been booked on one health record, in plain terms. */
  ghost predicate OnlyMoved(health: map<Name, Health>, health': map<Name, Health>, p: Name, success: bool) {
    && health'.Keys == health.Keys && p in health
    && (forall x :: x in health && x != p ==> health'[x] == health[x])
    && health'[p].totalCalls == health[p].totalCalls + 1
    && health'[p].totalFailures == health[p].totalFailures + (if success then 0 else 1)
    && health'[p].consecutiveFailures == if success then 0 else health[p].consecutiveFailures + 1
  }

  /** An invocation that calls a provider, in plain terms: the output is reported, a success ends any cooldown, a
      failure starts one of thirty seconds, and the installed selector, unless the call brought its own, is taught the
      outcome. */
  lemma InvocationInPlainTerms(n: Net, q: Query, reply: Reply, now: real, stamp: real, p: Name)
    requires ChosenBy(n, q) == Some(p) && p in n.health
    ensures var (n', r) := Invoked(n, q, reply, now, stamp);
            && n'.infos == n.infos && OnlyMoved(n.health, n'.health, p, reply.Returned?)
            && r == Answered(Some(p), if reply.Returned? then Some(reply.output) else None)
            && n'.health[p].cooldownUntil == (if reply.Returned? then 0.0 else now + 30.0)
            && (q.override != Installed ==> n'.selector == n.selector)
            && (q.override == Installed && BuiltIn(n.selector) ==>
                  Taught(n.selector, n'.selector, p, q.ctx, reply.Returned?, stamp))
  {
    BookingInPlainTerms(Routed(n, q), q, p, reply, now, stamp);
    if q.override == Installed && BuiltIn(n.selector) {
      AskingTeachesNothing(n.selector, q, Healthy(n, q), Invoked(n, q, reply, now, stamp).0.selector,
                           p, q.ctx, reply.Returned?, stamp);
    }
  }

  /** The other ends of an invocation: an exception changes nothing; without a choice, or with one that is not
      registered, nobody is called; every decision is published once. */
  lemma UncalledInPlainTerms(n: Net, q: Query, reply: Reply, now: real, stamp: real)
    ensures Decide(n, q) == None ==> Invoked(n, q, reply, now, stamp) == (n, Raised) && Routed(n, q) == n
    ensures Decide(n, q).Some? ==>
              && Routed(n, q).bus == n.bus + [RoutingDecided(Decide(n, q).value)]
              && Routed(n, q).infos == n.infos && Routed(n, q).health == n.health
              && Invoked(n, q, reply, now, stamp).0.bus == Routed(n, q).bus
    ensures Decide(n, q).Some? && ChosenBy(n, q) == None ==>
              Invoked(n, q, reply, now, stamp) == (Routed(n, q), Answered(None, None))
    ensures ChosenBy(n, q).Some? && ChosenBy(n, q).value !in n.health ==>
              Invoked(n, q, reply, now, stamp) == (Routed(n, q), Answered(ChosenBy(n, q), None))
  {
  }

  lemma BookingInPlainTerms(n: Net, q: Query, p: Name, reply: Reply, now: real, stamp: real)
    requires p in n.health
    ensures var n' := Booked(n, q, p, reply, now, stamp);
            && n'.infos == n.infos && OnlyMoved(n.health, n'.health, p, reply.Returned?)
            && n'.health[p].cooldownUntil == (if reply.Returned? then 0.0 else now + 30.0)
            && (q.override != Installed ==> n'.selector == n.selector)
            && (q.override == Installed ==> Taught(n.selector, n'.selector, p, q.ctx, reply.Returned?, stamp))
  {
    LearningIsTeaching(n.selector, p, reply.Returned?, q.ctx, stamp);
  }

  /** A new provider starts with unused health. */
  function Registering(n: Net, name: Name, info: Info): Net {
    n.(infos := n.infos.Put(name, info), health := n.health[name := UNUSED])
  }

  /** The provider's health goes with it. */
  function Unregistering(n: Net, name: Name): Net {
    n.(infos := n.infos.Remove(name), health := n.health - {name})
  }

  /** A new provider has been called never and is healthy at once; one unregistered is gone; the others stay. */
  lemma RegistrationInPlainTerms(n: Net, name: Name, info: Info)
    ensures var more, fewer := Registering(n, name, info), Unregistering(n, name);
            && more.infos.Get(name) == Some(info) && more.health == n.health[name := Health(0, 0, 0, 0.0)]
            && name !in fewer.infos.entries && name !in fewer.health
            && (forall x :: x != name ==> more.infos.Get(x) == n.infos.Get(x) && fewer.infos.Get(x) == n.infos.Get(x))
            && (forall x :: x in n.health && x != name ==> x in fewer.health && fewer.health[x] == n.health[x])
            && more.selector == n.selector && fewer.selector == n.selector
  {
  }

  /** The health of the `names` forgotten, all other as it was. */
  function Forgotten(health: map<Name, Health>, names: seq<Name>): map<Name, Health> {
    map x | x in health :: if x in names then AfterReset(health[x]) else health[x]
  }

  lemma ForgottenOneMore(health: map<Name, Health>, names: seq<Name>, name: Name)
    requires name in health && name !in names
    ensures Forgotten(health, names + [name]) == Forgotten(health, names)[name := AfterReset(health[name])]
  {
  }

  /** An unknown name, like no name, resets every provider. */
  function Reset(n: Net, name: Option<Name>): Net {
    n.(health := Forgotten(n.health, if name.Some? && name.value in n.health then [name.value] else n.infos.keys))
  }

  /** Resetting a registered name clears that provider's streak and cooldown, and nothing else. */
  lemma ResetInPlainTerms(n: Net, name: Name)
    requires name in n.health
    ensures var after := Reset(n, Some(name));
            && after.health == n.health[name := n.health[name].(consecutiveFailures := 0, cooldownUntil := 0.0)]
            && after.infos == n.infos && after.selector == n.selector
  {
  }

  /** A name that is not registered clears the cooldown of every provider that is. */
  lemma ResettingAStrangerResetsAll(n: Net, stranger: Name, p: Name, now: real)
    requires n.health.Keys == n.infos.entries.Keys && stranger !in n.health && p in n.health && now >= 0.0
    ensures var after := Reset(n, Some(stranger));
            p in after.health && IsHealthy(after.health[p], now)
                && after.health[p].totalFailures == n.health[p].totalFailures
  {
  }
}
