/** Ordered fallback with back-off (atlas/cascade.py). */
module Cascading {
  import opened Prelude
  import opened ProviderHealths
  import opened Backoff
  import opened Bandits
  import opened Routing
  import opened Facade

  datatype Config = Config(providers: seq<Name>, base: real, max: real)

  /** What happens when a provider's turn comes: the clock at the health check and at the end of the call, and the
      reply. */
  datatype Exchange = Exchange(checked: real, ended: real, stamp: real, reply: Reply)

  /** A provider's turn is a visit to its health. */
  function VisitOf(x: Exchange): Visit {
    Visit(x.checked, x.ended, x.reply.Returned?)
  }

  /** How a provider's turn ends. */
  function AttemptOf(n: Net, name: Name, x: Exchange): Attempt {
    if name !in n.infos.entries then Attempt(name, NO_CANDIDATES, None)
    else if name in n.health && !IsHealthy(n.health[name], x.checked) then Attempt(name, ALL_UNHEALTHY, None)
    else match x.reply
      case Threw(p) => Attempt(name, FAILED, Some(p))
      case Returned(_) => Attempt(name, SUCCESS, None)
  }

  /** The provider was called. */
  predicate Called(a: Attempt) {
    a.status == SUCCESS || a.status == FAILED
  }

  /** A call moves the provider's health and teaches the installed selector; every turn is published. */
  function AfterTry(n: Net, c: Config, name: Name, ctx: Context, x: Exchange): Net {
    var a := AttemptOf(n, name, x);
    var bus := n.bus + [CascadeAttempt(a)];
    if !Called(a) then n.(bus := bus)
    else
      Net(n.infos,
          if name in n.health then n.health[name := AfterVisit(n.health[name], c.base, c.max, VisitOf(x))]
          else n.health,
          Learns(n.selector, OutcomeOf(name, x.reply.Returned?, ctx, x.stamp)),
          bus)
  }

  /** The providers in order, up to the first success. */
  function Walk(n: Net, c: Config, names: seq<Name>, ctx: Context, xs: seq<Exchange>): (Net, seq<Attempt>)
    requires |xs| == |names|
    decreases |names|
  {
    if names == [] then (n, [])
    else
      var a, n1 := AttemptOf(n, names[0], xs[0]), AfterTry(n, c, names[0], ctx, xs[0]);
      if a.status == SUCCESS then (n1, [a])
      else
        var (n2, rest) := Walk(n1, c, names[1..], ctx, xs[1..]);
        (n2, [a] + rest)
  }

  predicate AllUnhealthy(attempts: seq<Attempt>) {
    attempts != [] && forall i :: 0 <= i < |attempts| ==> attempts[i].status == ALL_UNHEALTHY
  }

  function Succeeded(attempts: seq<Attempt>): bool {
    attempts != [] && attempts[|attempts| - 1].status == SUCCESS
  }

  /** The result of a run with these attempts; the output is the reply of the last one. */
  function Concluded(attempts: seq<Attempt>, xs: seq<Exchange>): CascadeResult
    requires |attempts| <= |xs|
  {
    if Succeeded(attempts) then
      var reply := xs[|attempts| - 1].reply;
      CascadeResult(attempts, Some(attempts[|attempts| - 1].name),
                    if reply.Returned? then Some(reply.output) else None, SUCCESS)
    else CascadeResult(attempts, None, None, if AllUnhealthy(attempts) then ALL_UNHEALTHY else FAILED)
  }

  /** A whole run, with its first and last event. */
  function RunOf(n: Net, c: Config, ctx: Context, xs: seq<Exchange>): (Net, CascadeResult)
    requires |xs| == |c.providers|
  {
    var (n1, attempts) := Walk(n.(bus := n.bus + [CascadeStarted(c.providers)]), c, c.providers, ctx, xs);
    WalkIsAPrefix(n.(bus := n.bus + [CascadeStarted(c.providers)]), c, c.providers, ctx, xs);
    var result := Concluded(attempts, xs);
    (n1.(bus := n1.bus + [if result.status == SUCCESS then CascadeCompleted(result) else CascadeFailed(result)]),
        result)
  }

  // ---- the attempts ----------------------------------------------------

  /** The attempts name a prefix of the providers; only the last can be a success, and the walk stops early only
      there. */
  lemma {:induction false} WalkIsAPrefix(n: Net, c: Config, names: seq<Name>, ctx: Context, xs: seq<Exchange>)
    requires |xs| == |names|
    ensures var attempts := Walk(n, c, names, ctx, xs).1;
            && |attempts| <= |names|
            && (forall i :: 0 <= i < |attempts| ==> attempts[i].name == names[i])
            && (forall i :: 0 <= i < |attempts| - 1 ==> attempts[i].status != SUCCESS)
            && (|attempts| < |names| ==> Succeeded(attempts))
            && (Succeeded(attempts) ==> xs[|attempts| - 1].reply.Returned?)
    decreases |names|
  {
    if names != [] {
      var n1 := AfterTry(n, c, names[0], ctx, xs[0]);
      WalkIsAPrefix(n1, c, names[1..], ctx, xs[1..]);
    }
  }

  function AttemptEvents(attempts: seq<Attempt>): seq<Event> {
    seq(|attempts|, i requires 0 <= i < |attempts| => CascadeAttempt(attempts[i]))
  }

  lemma {:induction false} WalkPublishesItsAttempts(n: Net, c: Config, names: seq<Name>, ctx: Context,
                                                    xs: seq<Exchange>)
    requires |xs| == |names|
    ensures var (n', attempts) := Walk(n, c, names, ctx, xs);
            n'.bus == n.bus + AttemptEvents(attempts)
    decreases |names|
  {
    if names != [] {
      var a, n1 := AttemptOf(n, names[0], xs[0]), AfterTry(n, c, names[0], ctx, xs[0]);
      if a.status == SUCCESS {
        assert AttemptEvents([a]) == [CascadeAttempt(a)];
      } else {
        WalkPublishesItsAttempts(n1, c, names[1..], ctx, xs[1..]);
        var rest := Walk(n1, c, names[1..], ctx, xs[1..]).1;
        assert AttemptEvents([a] + rest) == [CascadeAttempt(a)] + AttemptEvents(rest);
      }
    }
  }

  /** What a run's result says of its attempts, and what it published. */
  lemma CascadeOutcomeIsExact(n: Net, c: Config, ctx: Context, xs: seq<Exchange>)
    requires |xs| == |c.providers|
    ensures var (n', r) := RunOf(n, c, ctx, xs);
            var k := |r.attempts|;
            && k <= |c.providers|
            && (forall i :: 0 <= i < k ==> r.attempts[i].name == c.providers[i])
            && (forall i :: 0 <= i < k && r.attempts[i].status == SUCCESS ==> i == k - 1)
            && (k < |c.providers| ==> r.status == SUCCESS)
            && (r.status == SUCCESS <==> k > 0 && r.attempts[k - 1].status == SUCCESS)
            && (r.status == SUCCESS ==>
                r.chosen == Some(c.providers[k - 1]) && r.output.Some? && xs[k - 1].reply == Returned(r.output.value))
            && (r.status != SUCCESS ==> r.chosen == None && r.output == None)
            && (r.status == ALL_UNHEALTHY <==>
                  k > 0 && forall i :: 0 <= i < k ==> r.attempts[i].status == ALL_UNHEALTHY)
            && (r.status == SUCCESS || r.status == ALL_UNHEALTHY || r.status == FAILED)
            && n'.bus == n.bus + [CascadeStarted(c.providers)] + AttemptEvents(r.attempts)
                         + [if r.status == SUCCESS then CascadeCompleted(r) else CascadeFailed(r)]
  {
    var started := n.(bus := n.bus + [CascadeStarted(c.providers)]);
    WalkIsAPrefix(started, c, c.providers, ctx, xs);
    WalkPublishesItsAttempts(started, c, c.providers, ctx, xs);
    var r := RunOf(n, c, ctx, xs).1;
    assert r.status == ALL_UNHEALTHY ==> r.attempts[0].status == ALL_UNHEALTHY;
  }

  /** What becomes of one turn, told from registration, cooldown and reply alone. */
  ghost predicate TurnEndsAs(n: Net, name: Name, x: Exchange, a: Attempt) {
    && a.name == name
    && (a.status == NO_CANDIDATES <==> name !in n.infos.entries)
    && (a.status == ALL_UNHEALTHY <==>
          name in n.infos.entries && name in n.health && x.checked < n.health[name].cooldownUntil)
    && (a.status == SUCCESS <==>
          name in n.infos.entries && (name in n.health ==> n.health[name].cooldownUntil <= x.checked)
              && x.reply.Returned?)
    && (a.status == FAILED ==> x.reply.Threw? && a.problem == Some(x.reply.problem))
  }

  /** A turn depends on its own provider only. */
  ghost predicate SameFor(n: Net, n': Net, names: seq<Name>) {
    && n'.infos == n.infos
    && forall x :: x in names ==> (x in n'.health <==> x in n.health) && (x in n.health ==> n'.health[x] == n.health[x])
  }

  lemma {:induction false} WalkTurns(n0: Net, n: Net, c: Config, names: seq<Name>, ctx: Context, xs: seq<Exchange>)
    requires |xs| == |names| && Distinct(names) && SameFor(n0, n, names)
    ensures var attempts := Walk(n, c, names, ctx, xs).1;
            |attempts| <= |names| && forall i :: 0 <= i < |attempts| ==> TurnEndsAs(n0, names[i], xs[i], attempts[i])
    decreases |names|
  {
    if names != [] {
      var a, n1 := AttemptOf(n, names[0], xs[0]), AfterTry(n, c, names[0], ctx, xs[0]);
      if a.status != SUCCESS {
        assert SameFor(n0, n1, names[1..]) by {
          forall x | x in names[1..] ensures x != names[0] {
            var i :| 0 <= i < |names[1..]| && names[1..][i] == x;
            assert names[i + 1] == x;
          }
        }
        WalkTurns(n0, n1, c, names[1..], ctx, xs[1..]);
      }
    }
  }

  /** A cascade over distinct providers, told from the state it starts in: each attempt says whether the provider was
      unregistered, cooling down, or called with what reply, and the chosen one is the first that could be called and
      returned. */
  lemma CascadeInPlainTerms(n: Net, c: Config, ctx: Context, xs: seq<Exchange>)
    requires |xs| == |c.providers| && Distinct(c.providers)
    ensures var r := RunOf(n, c, ctx, xs).1;
            && |r.attempts| <= |c.providers|
            && (forall i :: 0 <= i < |r.attempts| ==> TurnEndsAs(n, c.providers[i], xs[i], r.attempts[i]))
            && (|r.attempts| < |c.providers| ==> r.attempts != [] && r.attempts[|r.attempts| - 1].status == SUCCESS)
            && (r.chosen.Some? <==> r.attempts != [] && r.attempts[|r.attempts| - 1].status == SUCCESS)
            && (r.chosen.Some? ==>
                  r.chosen == Some(c.providers[|r.attempts| - 1])
                      && xs[|r.attempts| - 1].reply == Returned(r.output.value))
  {
    var started := n.(bus := n.bus + [CascadeStarted(c.providers)]);
    WalkTurns(n, started, c, c.providers, ctx, xs);
    CascadeOutcomeIsExact(n, c, ctx, xs);
  }

  /** One turn that calls its provider, in plain terms: a success ends the streak and any cooldown, a failure starts the
      base cooldown doubled once per earlier failure of the streak,
          at most the cap; the selector is taught the outcome. */
  lemma CallInPlainTerms(n: Net, c: Config, name: Name, ctx: Context, x: Exchange)
    requires name in n.infos.entries && name in n.health && n.health[name].cooldownUntil <= x.checked
    ensures var n' := AfterTry(n, c, name, ctx, x);
            && n'.infos == n.infos && OnlyMoved(n.health, n'.health, name, x.reply.Returned?)
            && (x.reply.Returned? ==> n'.health[name].cooldownUntil == 0.0)
            && (x.reply.Threw? ==>
                  var doubled := c.base * Pow2(n.health[name].consecutiveFailures) as real;
                  n'.health[name].cooldownUntil == x.ended + if doubled <= c.max then doubled else c.max)
            && Taught(n.selector, n'.selector, name, ctx, x.reply.Returned?, x.stamp)
  {
    LearningIsTeaching(n.selector, name, x.reply.Returned?, ctx, x.stamp);
  }

  /** A turn that calls nobody changes nothing but the bus. */
  lemma IdleTurnInPlainTerms(n: Net, c: Config, name: Name, ctx: Context, x: Exchange)
    requires name !in n.infos.entries || (name in n.health && x.checked < n.health[name].cooldownUntil)
    ensures AfterTry(n, c, name, ctx, x) == n.(bus := n.bus + [CascadeAttempt(AttemptOf(n, name, x))])
  {
  }

  // ---- each provider's health ------------------------------------------

  /** The turns that a provider got in a walk: one for each of the first `|attempts|` places that name it. */
  function VisitsTo(p: Name, names: seq<Name>, xs: seq<Exchange>): seq<Visit>
    requires |xs| == |names|
    decreases |names|
  {
    if names == [] then []
    else (if names[0] == p then [VisitOf(xs[0])] else []) + VisitsTo(p, names[1..], xs[1..])
  }

  lemma {:induction false} VisitsInTwoParts(h: Health, base: real, max: real, a: seq<Visit>, b: seq<Visit>)
    ensures AfterVisits(h, base, max, a + b) == AfterVisits(AfterVisits(h, base, max, a), base, max, b)
  {
    if b == [] {
      assert a + b == a;
    } else {
      assert (a + b)[..|a + b| - 1] == a + b[..|b| - 1];
      VisitsInTwoParts(h, base, max, a, b[..|b| - 1]);
    }
  }

  lemma OneVisit(h: Health, base: real, max: real, v: Visit)
    ensures AfterVisits(h, base, max, [v]) == AfterVisit(h, base, max, v)
  {
    assert [v][..0] == [];
    assert AfterVisits(h, base, max, []) == h;
  }

  /** What one turn does to a registered provider's health. */
  lemma TryVisits(n: Net, c: Config, name: Name, ctx: Context, x: Exchange, p: Name)
    requires n.health.Keys == n.infos.entries.Keys && p in n.health
    ensures var n' := AfterTry(n, c, name, ctx, x);
            && n'.infos == n.infos && n'.health.Keys == n.health.Keys
            && n'.health[p] == if name == p then AfterVisit(n.health[p], c.base, c.max, VisitOf(x)) else n.health[p]
  {
  }

  /** A walk is, for each registered provider, exactly the sequence of its turns: no other health changes. */
  lemma {:induction false} WalkVisits(n: Net, c: Config, names: seq<Name>, ctx: Context, xs: seq<Exchange>, p: Name)
    requires |xs| == |names| && n.health.Keys == n.infos.entries.Keys && p in n.health
    ensures var (n', attempts) := Walk(n, c, names, ctx, xs);
            && |attempts| <= |names| && n'.infos == n.infos && n'.health.Keys == n.health.Keys
            && n'.health[p] == AfterVisits(n.health[p], c.base, c.max,
                VisitsTo(p, names[..|attempts|], xs[..|attempts|]))
    decreases |names|
  {
    WalkIsAPrefix(n, c, names, ctx, xs);
    if names != [] {
      var a, n1 := AttemptOf(n, names[0], xs[0]), AfterTry(n, c, names[0], ctx, xs[0]);
      TryVisits(n, c, names[0], ctx, xs[0], p);
      var rest: seq<Attempt> := [];
      if a.status != SUCCESS {
        WalkVisits(n1, c, names[1..], ctx, xs[1..], p);
        rest := Walk(n1, c, names[1..], ctx, xs[1..]).1;
      }
      var k := 1 + |rest|;
      assert names[..k][1..] == names[1..][..|rest|] && xs[..k][1..] == xs[1..][..|rest|];
      var first := if names[0] == p then [VisitOf(xs[0])] else [];
      var later := VisitsTo(p, names[1..][..|rest|], xs[1..][..|rest|]);
      assert VisitsTo(p, names[..k], xs[..k]) == first + later;
      VisitsInTwoParts(n.health[p], c.base, c.max, first, later);
      OneVisit(n.health[p], c.base, c.max, VisitOf(xs[0]));
      assert AfterVisits(n.health[p], c.base, c.max, []) == n.health[p];
    }
  }

  /** How many of the attempts called the provider. */
  function CallsTo(p: Name, attempts: seq<Attempt>): nat {
    if attempts == [] then 0
    else (if attempts[0].name == p && Called(attempts[0]) then 1 else 0) + CallsTo(p, attempts[1..])
  }

  /** The call total rises by exactly the attempts that called the provider. */
  lemma {:induction false} WalkCountsCalls(n: Net, c: Config, names: seq<Name>, ctx: Context, xs: seq<Exchange>,
                                           p: Name)
    requires |xs| == |names| && n.health.Keys == n.infos.entries.Keys && p in n.health
    ensures var (n', attempts) := Walk(n, c, names, ctx, xs);
            p in n'.health && n'.health[p].totalCalls == n.health[p].totalCalls + CallsTo(p, attempts)
    decreases |names|
  {
    if names != [] {
      var a, n1 := AttemptOf(n, names[0], xs[0]), AfterTry(n, c, names[0], ctx, xs[0]);
      TryVisits(n, c, names[0], ctx, xs[0], p);
      if a.status != SUCCESS {
        WalkCountsCalls(n1, c, names[1..], ctx, xs[1..], p);
        var rest := Walk(n1, c, names[1..], ctx, xs[1..]).1;
        assert ([a] + rest)[1..] == rest;
      }
    }
  }

  // ---- runs in a row ---------------------------------------------------

  /** One run of the cascade: its context and what each provider's turn brings. */
  datatype Request = Request(ctx: Context, xs: seq<Exchange>)

  function RunAll(n: Net, c: Config, requests: seq<Request>): Net
    requires forall i :: 0 <= i < |requests| ==> |requests[i].xs| == |c.providers|
  {
    if requests == [] then n
    else
      var last := requests[|requests| - 1];
      RunOf(RunAll(n, c, requests[..|requests| - 1]), c, last.ctx, last.xs).0
  }

  /** All the turns a provider got in the runs. */
  function AllVisitsTo(p: Name, n: Net, c: Config, requests: seq<Request>): seq<Visit>
    requires forall i :: 0 <= i < |requests| ==> |requests[i].xs| == |c.providers|
  {
    if requests == [] then []
    else
      var earlier, last := requests[..|requests| - 1], requests[|requests| - 1];
      var before := RunAll(n, c, earlier);
      WalkIsAPrefix(before.(bus := before.bus + [CascadeStarted(c.providers)]), c, c.providers, last.ctx, last.xs);
      var k := |RunOf(before, c, last.ctx, last.xs).1.attempts|;
      AllVisitsTo(p, n, c, earlier) + VisitsTo(p, c.providers[..k], last.xs[..k])
  }

  lemma {:induction false} RunsAreVisits(n: Net, c: Config, requests: seq<Request>, p: Name)
    requires forall i :: 0 <= i < |requests| ==> |requests[i].xs| == |c.providers|
    requires n.health.Keys == n.infos.entries.Keys && p in n.health
    ensures var n' := RunAll(n, c, requests);
            && n'.health.Keys == n'.infos.entries.Keys && p in n'.health
            && n'.health[p] == AfterVisits(n.health[p], c.base, c.max, AllVisitsTo(p, n, c, requests))
  {
    if requests != [] {
      var earlier, last := requests[..|requests| - 1], requests[|requests| - 1];
      RunsAreVisits(n, c, earlier, p);
      var before := RunAll(n, c, earlier);
      var started := before.(bus := before.bus + [CascadeStarted(c.providers)]);
      WalkVisits(started, c, c.providers, last.ctx, last.xs, p);
      var k := |Walk(started, c, c.providers, last.ctx, last.xs).1|;
      VisitsInTwoParts(n.health[p], c.base, c.max, AllVisitsTo(p, n, c, earlier),
          VisitsTo(p, c.providers[..k], last.xs[..k]));
    }
  }

  /** Over any runs of one cascade, one after another, in which a provider with no failures counted never succeeds:
      its failures are exactly those counted in its health, and the k-th one after the first is at least the first k
      cooldowns later. */
  lemma BackoffSpacesRetries(n: Net, c: Config, requests: seq<Request>, p: Name, k: nat)
    requires forall i :: 0 <= i < |requests| ==> |requests[i].xs| == |c.providers|
    requires n.health.Keys == n.infos.entries.Keys && p in n.health && n.health[p].consecutiveFailures == 0
    requires Streak(AllVisitsTo(p, n, c, requests)) && Sequential(AllVisitsTo(p, n, c, requests))
    ensures p in RunAll(n, c, requests).health
    ensures var f := FailureTimes(n.health[p], c.base, c.max, AllVisitsTo(p, n, c, requests));
            && RunAll(n, c, requests).health[p].consecutiveFailures == |f|
            && (k < |f| ==> Waited(f, c.base, c.max, k))
  {
    var visits := AllVisitsTo(p, n, c, requests);
    RunsAreVisits(n, c, requests, p);
    StreakState(n.health[p], c.base, c.max, visits);
    if k < |FailureTimes(n.health[p], c.base, c.max, visits)| {
      RetriesAreSpaced(n.health[p], c.base, c.max, visits, k);
    }
  }

  /** The rest of a walk, from the provider at place `i` on. */
  lemma WalkFrom(n: Net, c: Config, names: seq<Name>, ctx: Context, xs: seq<Exchange>, i: nat)
    requires i < |names| == |xs|
    ensures var a, n1 := AttemptOf(n, names[i], xs[i]), AfterTry(n, c, names[i], ctx, xs[i]);
            var (n2, rest) := Walk(n1, c, names[i + 1..], ctx, xs[i + 1..]);
            Walk(n, c, names[i..], ctx, xs[i..]) == if a.status == SUCCESS then (n1, [a]) else (n2, [a] + rest)
  {
    assert names[i..][1..] == names[i + 1..] && xs[i..][1..] == xs[i + 1..];
  }

  lemma TurnIsPublished(n: Net, c: Config, name: Name, ctx: Context, x: Exchange)
    ensures AfterTry(n, c, name, ctx, x).bus == n.bus + [CascadeAttempt(AttemptOf(n, name, x))]
  {
  }

  // ---- the cascade itself ----------------------------------------------

  class Cascade {
    const config: Config

    constructor (config: Config)
      ensures this.config == config
    {
      this.config := config;
    }

    /** Tries the providers in order on `atlas`; never raises. */
    method Run(atlas: Atlas, ctx: Context, xs: seq<Exchange>) returns (r: CascadeResult)
      requires atlas.Valid() && |xs| == |config.providers|
      modifies atlas`selector, atlas`bus, atlas.records.Values
      ensures atlas.Valid()
      ensures (atlas.Now(), r) == RunOf(old(atlas.Now()), config, ctx, xs)
    {
      atlas.bus := atlas.bus + [CascadeStarted(config.providers)];
      ghost var started := atlas.Now();
      WalkIsAPrefix(started, config, config.providers, ctx, xs);
      var attempts := TryAll(atlas, ctx, xs);
      r := Concluded(attempts, xs);
      atlas.bus := atlas.bus + [if r.status == SUCCESS then CascadeCompleted(r) else CascadeFailed(r)];
    }

    /** The loop over the providers. */
    method TryAll(atlas: Atlas, ctx: Context, xs: seq<Exchange>) returns (attempts: seq<Attempt>)
      requires atlas.Valid() && |xs| == |config.providers|
      modifies atlas`selector, atlas`bus, atlas.records.Values
      ensures (atlas.Now(), attempts) == Walk(old(atlas.Now()), config, config.providers, ctx, xs)
    {
      attempts := [];
      ghost var before := atlas.Now();
      assert config.providers[0..] == config.providers && xs[0..] == xs;
      assert forall rest: seq<Attempt> :: attempts + rest == rest;
      for i := 0 to |config.providers|
        invariant var (n, rest) := Walk(atlas.Now(), config, config.providers[i..], ctx, xs[i..]);
                  Walk(before, config, config.providers, ctx, xs) == (n, attempts + rest)
      {
        WalkFrom(atlas.Now(), config, config.providers, ctx, xs, i);
        var attempt := TryProvider(atlas, config.providers[i], ctx, xs[i]);
        ghost var rest := Walk(atlas.Now(), config, config.providers[i + 1..], ctx, xs[i + 1..]).1;
        Regroup(attempts, [attempt], rest);
        attempts := attempts + [attempt];
        if attempt.status == SUCCESS {
          return attempts;
        }
      }
      assert attempts + [] == attempts;
    }

    /** One turn, and its event. */
    method TryProvider(atlas: Atlas, name: Name, ctx: Context, x: Exchange) returns (a: Attempt)
      requires atlas.Valid()
      modifies atlas`selector, atlas`bus, atlas.records.Values
      ensures a == AttemptOf(old(atlas.Now()), name, x)
      ensures atlas.Now() == AfterTry(old(atlas.Now()), config, name, ctx, x)
    {
      TurnIsPublished(atlas.Now(), config, name, ctx, x);
      a := TakeTurn(atlas, name, ctx, x);
      atlas.bus := atlas.bus + [CascadeAttempt(a)];
    }

    /** Skips an unknown or cooling provider, otherwise calls it and books the reply. */
    method TakeTurn(atlas: Atlas, name: Name, ctx: Context, x: Exchange) returns (a: Attempt)
      requires atlas.Valid()
      modifies atlas`selector, atlas.records.Values
      ensures a == AttemptOf(old(atlas.Now()), name, x)
      ensures atlas.Now() == AfterTry(old(atlas.Now()), config, name, ctx, x).(bus := old(atlas.bus))
    {
      if name !in atlas.infos.entries {
        return Attempt(name, NO_CANDIDATES, None);
      }
      var healthy := atlas.records[name].CheckHealthy(x.checked);
      if !healthy {
        return Attempt(name, ALL_UNHEALTHY, None);
      }
      a := CallProvider(atlas, name, ctx, x);
    }

    /** Calls a provider whose cooldown is over, and books its reply on health and selector. */
    method CallProvider(atlas: Atlas, name: Name, ctx: Context, x: Exchange) returns (a: Attempt)
      requires atlas.Valid() && name in atlas.records && IsHealthy(atlas.records[name].Now(), x.checked)
      modifies atlas`selector, atlas.records[name]
      ensures a == AttemptOf(old(atlas.Now()), name, x)
      ensures atlas.Now() == AfterTry(old(atlas.Now()), config, name, ctx, x).(bus := old(atlas.bus))
    {
      match x.reply
      case Threw(p) =>
        ApplyExponentialCooldown(atlas, name, x.ended);
        atlas.UpdateSelector(OutcomeOf(name, false, ctx, x.stamp));
        a := Attempt(name, FAILED, Some(p));
      case Returned(_) =>
        atlas.BookSuccess(name);
        atlas.UpdateSelector(OutcomeOf(name, true, ctx, x.stamp));
        a := Attempt(name, SUCCESS, None);
    }

    /** Books a failure with the base cooldown doubled once per earlier failure of the streak, up to the cap. For a
        provider that is gone by now nothing is booked. */
    method ApplyExponentialCooldown(atlas: Atlas, name: Name, now: real)
      requires atlas.Valid()
      modifies if name in atlas.records then {atlas.records[name]} else {}
      ensures name !in atlas.records ==> atlas.Healths() == old(atlas.Healths())
      ensures name in atlas.records ==>
                var h := old(atlas.Healths())[name];
                atlas.Healths() == old(atlas.Healths())[name :=
                  AfterFailure(h, now, Cooldown(config.base, config.max, h.consecutiveFailures))]
    {
      if name !in atlas.records {
        return;
      }
      var n := atlas.records[name].consecutiveFailures;
      var cooldown := AtMost(Doubled(config.base, n), config.max);
      atlas.BookFailure(name, now, cooldown);
    }
  }
}
