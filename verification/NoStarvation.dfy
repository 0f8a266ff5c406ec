/** UCB1 over whole runs: exploration never ends, in the first rounds and for ever (atlas/bandit.py). */
module NoStarvation {
  import opened Prelude
  import opened Bandits

  /** What the caller reports about the call it was routed to. */
  datatype Feedback = Feedback(success: bool, reward: real, timestamp: real)

  /** One event at a selector: a round served in the run's context, any other outcome fed to it, or a selection, among
      any names and in any context, whose outcome is not reported. */
  datatype Event = Serve(feedback: Feedback) | Observe(outcome: Outcome) | Look(names: seq<Name>, at: Context)

  /** Select among the candidates, then update with the chosen one's outcome. */
  function Round(t: Tuning, arms: Arms, candidates: seq<Name>, ctx: Context, f: Feedback): Arms
    requires candidates != []
  {
    Learn(EnsureAll(arms, candidates, ctx),
        Outcome(Pick(t, arms, ctx, candidates), f.success, f.reward, ctx, f.timestamp))
  }

  function Step(t: Tuning, arms: Arms, candidates: seq<Name>, ctx: Context, e: Event): Arms
    requires candidates != []
  {
    match e
    case Serve(f) => Round(t, arms, candidates, ctx, f)
    case Observe(o) => Learn(arms, o)
    case Look(names, at) => EnsureAll(arms, names, at)
  }

  function Run(t: Tuning, arms: Arms, candidates: seq<Name>, ctx: Context, events: seq<Event>): Arms
    requires candidates != []
  {
    if events == [] then arms
    else Step(t, Run(t, arms, candidates, ctx, events[..|events| - 1]), candidates, ctx, events[|events| - 1])
  }

  function Rounds(events: seq<Event>): nat {
    if events == [] then 0
    else Rounds(events[..|events| - 1]) + if events[|events| - 1].Serve? then 1 else 0
  }

  /** Rewards are documented to lie between zero and one. */
  ghost predicate Bounded(e: Event) {
    match e
    case Serve(f) => 0.0 <= f.reward <= 1.0
    case Observe(o) => 0.0 <= o.reward <= 1.0
    case Look(_, _) => true
  }

  ghost predicate AllBounded(events: seq<Event>) {
    forall i :: 0 <= i < |events| ==> Bounded(events[i])
  }

  /** Every arm's mean reward lies between zero and one, and it counts one success or failure per pull. */
  ghost predicate Sound(arms: Arms) {
    forall p, c :: SoundArm(ArmOf(arms, p, c))
  }

  ghost predicate SoundArm(arm: ArmState) {
    0.0 <= arm.totalReward <= arm.pulls as real && arm.pulls == arm.successes + arm.failures
  }

  // ---- one round -------------------------------------------------------

  /** A round changes the statistics of the picked arm only. */
  lemma RoundLearnsThePick(t: Tuning, arms: Arms, candidates: seq<Name>, ctx: Context, f: Feedback)
    requires candidates != []
    ensures var picked, after := Pick(t, arms, ctx, candidates), Round(t, arms, candidates, ctx, f);
            && ArmOf(after, picked, ctx)
               == Learned(ArmOf(arms, picked, ctx), Outcome(picked, f.success, f.reward, ctx, f.timestamp))
            && (forall p, c :: p != picked || c != ctx ==> ArmOf(after, p, c) == ArmOf(arms, p, c))
            && (forall c :: TotalPulls(after, c) == TotalPulls(arms, c) + if c == ctx then 1 else 0)
  {
    var o := Outcome(Pick(t, arms, ctx, candidates), f.success, f.reward, ctx, f.timestamp);
    EnsuringChangesNoStatistic(arms, candidates, ctx);
    LearnChangesOneArm(EnsureAll(arms, candidates, ctx), o);
  }

  lemma LearnedIsSound(arm: ArmState, o: Outcome)
    requires SoundArm(arm) && 0.0 <= o.reward <= 1.0
    ensures SoundArm(Learned(arm, o)) && Learned(arm, o).pulls == arm.pulls + 1
  {
  }

  /** Some arm has learned an outcome; all others are as before. */
  ghost predicate OneArmLearned(before: Arms, after: Arms, p: Name, ctx: Context, o: Outcome) {
    && ArmOf(after, p, ctx) == Learned(ArmOf(before, p, ctx), o)
    && forall q, c :: q != p || c != ctx ==> ArmOf(after, q, c) == ArmOf(before, q, c)
  }

  lemma OneArmLearnedKeepsSound(before: Arms, after: Arms, p: Name, ctx: Context, o: Outcome)
    requires Sound(before) && OneArmLearned(before, after, p, ctx, o) && 0.0 <= o.reward <= 1.0
    ensures Sound(after) && forall q, c :: ArmOf(before, q, c).pulls <= ArmOf(after, q, c).pulls
  {
    LearnedIsSound(ArmOf(before, p, ctx), o);
  }

  /** Soundness is kept by every event, and pulls never fall. */
  lemma StepKeepsSound(t: Tuning, arms: Arms, candidates: seq<Name>, ctx: Context, e: Event)
    requires candidates != [] && Sound(arms) && Bounded(e)
    ensures var after := Step(t, arms, candidates, ctx, e);
            && Sound(after)
            && TotalPulls(arms, ctx) + (if e.Serve? then 1 else 0) <= TotalPulls(after, ctx)
            && forall p, c :: ArmOf(arms, p, c).pulls <= ArmOf(after, p, c).pulls
  {
    var after := Step(t, arms, candidates, ctx, e);
    match e
    case Serve(f) =>
      RoundLearnsThePick(t, arms, candidates, ctx, f);
      var picked := Pick(t, arms, ctx, candidates);
      OneArmLearnedKeepsSound(arms, after, picked, ctx, Outcome(picked, f.success, f.reward, ctx, f.timestamp));
    case Observe(o) =>
      LearnChangesOneArm(arms, o);
      OneArmLearnedKeepsSound(arms, after, o.providerName, o.contextKey, o);
    case Look(names, at) => EnsuringChangesNoStatistic(arms, names, at);
  }

  // ---- the exploration argument ----------------------------------------

  /** The total is large enough that `ln(total) >= 4m / c^2`. */
  ghost predicate Enough(t: Tuning, total: nat, m: nat) {
    t.ln(Max(total, 1)) * t.c * t.c >= 4.0 * m as real
  }

  lemma DivideMore(x: real, a: real, b: real)
    requires x >= 0.0 && 0.0 < a <= b
    ensures x / b <= x / a
  {
    assert x / a - x / b == x * (b - a) / (a * b);
    assert x * (b - a) >= 0.0 && a * b > 0.0;
  }

  lemma SquaresCompare(x: real, y: real)
    requires x >= 0.0 && y >= 0.0 && x * x < y * y
    ensures x < y
  {
    assert (y - x) * (y + x) > 0.0;
  }

  /** With enough total pulls, an arm pulled over four times as often cannot tie with one pulled at most `m` times. */
  lemma OftenPulledLoses(t: Tuning, total: nat, m: nat, rare: ArmState, often: ArmState)
    requires Faithful(t) && t.c > 0.0 && SoundArm(rare) && SoundArm(often)
    requires Enough(t, total, m)
    requires rare.pulls <= m && often.pulls > 4 * m
    ensures Below(ScoreOfArm(t, total, often), ScoreOfArm(t, total, rare))
  {
    if rare.pulls > 0 {
      var x, y := Root(t, total, rare.pulls), Root(t, total, often.pulls);
      RootIsFaithful(t, total, rare.pulls);
      RootIsFaithful(t, total, often.pulls);
      TermsCompare(t.ln(Max(total, 1)), t.c, m as real, rare.pulls as real, often.pulls as real, x, y);
      assert 1.0 + Exploration(t, total, often.pulls) < Exploration(t, total, rare.pulls);
      MeanWithinBounds(rare);
      MeanWithinBounds(often);
    }
  }

  lemma RootIsFaithful(t: Tuning, total: nat, pulls: nat)
    requires Faithful(t) && pulls > 0
    ensures Root(t, total, pulls) >= 0.0
    ensures Root(t, total, pulls) * Root(t, total, pulls) == t.ln(Max(total, 1)) / pulls as real
  {
    var x := t.ln(Max(total, 1)) / pulls as real;
    assert x >= 0.0;
    assert t.sqrt(x) >= 0.0 && t.sqrt(x) * t.sqrt(x) == x;
  }

  lemma MeanWithinBounds(arm: ArmState)
    requires SoundArm(arm) && arm.pulls > 0
    ensures 0.0 <= Mean(arm) <= 1.0
  {
  }

  /** The arithmetic: the rare arm's exploration term exceeds the other's by more than one. */
  lemma TermsCompare(l: real, c: real, m: real, rare: real, often: real, x: real, y: real)
    requires l >= 0.0 && c > 0.0 && l * c * c >= 4.0 * m
    requires 1.0 <= rare <= m && often >= 4.0 * m + 1.0
    requires x >= 0.0 && y >= 0.0 && x * x == l / rare && y * y == l / often
    ensures 1.0 + c * y < c * x
  {
    assert l * (c * c) > 0.0;
    DivideMore(l, rare, m);
    // the often-pulled arm's root is less than half the rare arm's
    assert 2.0 * y < x by {
      DivideStrictly(l, 4.0 * m, often);
      assert 4.0 * (l / (4.0 * m)) == l / m;
      assert (2.0 * y) * (2.0 * y) == 4.0 * (y * y);
      SquaresCompare(2.0 * y, x);
    }
    // the rare arm's term is at least two
    assert c * x >= 2.0 by {
      assert (c * x) * (c * x) == c * c * (l / rare) by { assert (c * x) * (c * x) == c * c * (x * x); }
      ScaledQuotient(l, c, m, rare);
      AtLeastTwo(c * x);
    }
    assert c * (2.0 * y) < c * x;
  }

  lemma AtLeastTwo(z: real)
    requires z >= 0.0 && z * z >= 4.0
    ensures z >= 2.0
  {
    var a, b := z - 2.0, z + 2.0;
    assert a * b == z * z - 4.0;
    assert b > 0.0 && a * b >= 0.0;
  }

  lemma DivideStrictly(x: real, a: real, b: real)
    requires x > 0.0 && 0.0 < a < b
    ensures x / b < x / a
  {
    assert x / a - x / b == x * (b - a) / (a * b);
    assert x * (b - a) > 0.0 && a * b > 0.0;
  }

  lemma ScaledQuotient(l: real, c: real, m: real, rare: real)
    requires l >= 0.0 && c > 0.0 && l * c * c >= 4.0 * m && 0.0 < rare <= m
    ensures c * c * (l / rare) >= 4.0
  {
    assert c * c * (l / rare) == (l * c * c) / rare;
    assert (l * c * c) / rare >= (4.0 * m) / rare;
    assert (4.0 * m) / rare >= 4.0;
  }

  /** The picked arm is never one that the exploration argument rules out. */
  lemma PickIsNotOftenPulled(t: Tuning, arms: Arms, candidates: seq<Name>, ctx: Context, m: nat)
    requires Faithful(t) && t.c > 0.0 && Sound(arms)
    requires Enough(t, TotalPulls(arms, ctx), m)
    requires exists n :: n in candidates && ArmOf(arms, n, ctx).pulls <= m
    ensures candidates != [] && ArmOf(arms, Pick(t, arms, ctx, candidates), ctx).pulls <= 4 * m
  {
    var rare :| rare in candidates && ArmOf(arms, rare, ctx).pulls <= m;
    var picked := Pick(t, arms, ctx, candidates);
    PickIsMaximal(t, arms, ctx, candidates, rare);
    if ArmOf(arms, picked, ctx).pulls > 4 * m {
      OftenPulledLoses(t, TotalPulls(arms, ctx), m, ArmOf(arms, rare, ctx), ArmOf(arms, picked, ctx));
    }
  }

  // ---- the measure -----------------------------------------------------

  function Missing(pulls: nat, goal: nat): nat {
    if pulls < goal then goal - pulls else 0
  }

  /** How many pulls the candidates still lack, together, to have `goal` each. */
  function Deficit(arms: Arms, candidates: seq<Name>, ctx: Context, goal: nat): nat {
    if candidates == [] then 0
    else
      Deficit(arms, candidates[..|candidates| - 1], ctx, goal)
      + Missing(ArmOf(arms, candidates[|candidates| - 1], ctx).pulls, goal)
  }

  lemma {:induction false} DeficitBound(arms: Arms, candidates: seq<Name>, ctx: Context, goal: nat)
    ensures Deficit(arms, candidates, ctx, goal) <= |candidates| * goal
  {
    if candidates != [] {
      DeficitBound(arms, candidates[..|candidates| - 1], ctx, goal);
      assert |candidates| * goal == (|candidates| - 1) * goal + goal;
    }
  }

  /** More pulls mean a smaller deficit, strictly when a candidate short of the goal got one. */
  lemma {:induction false} DeficitFalls(before: Arms, after: Arms, candidates: seq<Name>, ctx: Context, goal: nat)
    requires forall n :: n in candidates ==> ArmOf(before, n, ctx).pulls <= ArmOf(after, n, ctx).pulls
    ensures Deficit(after, candidates, ctx, goal) <= Deficit(before, candidates, ctx, goal)
    ensures (exists n :: n in candidates && ArmOf(before, n, ctx).pulls < ArmOf(after, n, ctx).pulls
                      && ArmOf(before, n, ctx).pulls < goal)
            ==> Deficit(after, candidates, ctx, goal) < Deficit(before, candidates, ctx, goal)
  {
    if candidates != [] {
      DeficitFalls(before, after, candidates[..|candidates| - 1], ctx, goal);
      forall n | n in candidates && n !in candidates[..|candidates| - 1]
        ensures n == candidates[|candidates| - 1] {
      }
    }
  }

  lemma {:induction false} DeficitOfOne(arms: Arms, candidates: seq<Name>, ctx: Context, goal: nat, n: Name)
    requires n in candidates
    ensures Missing(ArmOf(arms, n, ctx).pulls, goal) <= Deficit(arms, candidates, ctx, goal)
  {
    if n != candidates[|candidates| - 1] {
      DeficitOfOne(arms, candidates[..|candidates| - 1], ctx, goal, n);
    }
  }

  // ---- whole runs ------------------------------------------------------

  lemma {:induction false} RunKeepsSound(t: Tuning, arms: Arms, candidates: seq<Name>, ctx: Context, events: seq<Event>)
    requires candidates != [] && Sound(arms) && AllBounded(events)
    ensures var after := Run(t, arms, candidates, ctx, events);
            && Sound(after)
            && TotalPulls(arms, ctx) + Rounds(events) <= TotalPulls(after, ctx)
  {
    if events != [] {
      var earlier := events[..|events| - 1];
      RunKeepsSound(t, arms, candidates, ctx, earlier);
      StepKeepsSound(t, Run(t, arms, candidates, ctx, earlier), candidates, ctx, events[|events| - 1]);
    }
  }

  lemma MoreTotalIsEnough(t: Tuning, total: nat, more: nat, m: nat)
    requires Faithful(t) && t.c > 0.0 && total <= more
    requires Enough(t, total, m)
    ensures Enough(t, more, m)
  {
    assert t.ln(Max(total, 1)) * (t.c * t.c) <= t.ln(Max(more, 1)) * (t.c * t.c);
  }

  /** With a candidate stuck and enough pulls in all, the picked arm's new pull shrinks the deficit. */
  lemma PickedPullCounts(t: Tuning, arms: Arms, after: Arms, candidates: seq<Name>, ctx: Context, o: Outcome, m: nat,
                         stuck: Name)
    requires Faithful(t) && t.c > 0.0 && Sound(arms) && Enough(t, TotalPulls(arms, ctx), m)
    requires stuck in candidates && ArmOf(arms, stuck, ctx).pulls <= m
    requires OneArmLearned(arms, after, Pick(t, arms, ctx, candidates), ctx, o)
    ensures Deficit(after, candidates, ctx, 4 * m + 1) < Deficit(arms, candidates, ctx, 4 * m + 1)
  {
    PickIsNotOftenPulled(t, arms, candidates, ctx, m);
    PickIsMaximal(t, arms, ctx, candidates, stuck);
    var picked := Pick(t, arms, ctx, candidates);
    assert ArmOf(arms, picked, ctx).pulls < ArmOf(after, picked, ctx).pulls;
    DeficitFalls(arms, after, candidates, ctx, 4 * m + 1);
  }

  /** With a candidate stuck, a round after the total has reached `start` shrinks the deficit. */
  lemma StuckRoundCosts(t: Tuning, arms: Arms, candidates: seq<Name>, ctx: Context, f: Feedback, m: nat, start: nat,
                        stuck: Name)
    requires Faithful(t) && t.c > 0.0 && Sound(arms) && Enough(t, start, m) && TotalPulls(arms, ctx) >= start
    requires stuck in candidates && ArmOf(arms, stuck, ctx).pulls <= m
    ensures Deficit(Round(t, arms, candidates, ctx, f), candidates, ctx, 4 * m + 1) < Deficit(arms, candidates, ctx,
                4 * m + 1)
  {
    var picked := Pick(t, arms, ctx, candidates);
    MoreTotalIsEnough(t, start, TotalPulls(arms, ctx), m);
    RoundLearnsThePick(t, arms, candidates, ctx, f);
    PickedPullCounts(t, arms, Round(t, arms, candidates, ctx, f), candidates, ctx,
                     Outcome(picked, f.success, f.reward, ctx, f.timestamp), m, stuck);
  }

  /** While some candidate is still at `m` pulls or fewer, every round after the total reaches `start` has shrunk the
      deficit. */
  lemma {:induction false} StuckRoundsCost(t: Tuning, arms: Arms, candidates: seq<Name>, ctx: Context,
                                           events: seq<Event>,
                                           m: nat, start: nat, stuck: Name)
    requires Faithful(t) && t.c > 0.0 && Sound(arms) && AllBounded(events)
    requires Enough(t, start, m)
    requires stuck in candidates
    requires ArmOf(Run(t, arms, candidates, ctx, events), stuck, ctx).pulls <= m
    ensures Deficit(Run(t, arms, candidates, ctx, events), candidates, ctx, 4 * m + 1) + Rounds(events)
            <= Deficit(arms, candidates, ctx, 4 * m + 1) + Missing(TotalPulls(arms, ctx), start)
  {
    if events != [] {
      var earlier, e := events[..|events| - 1], events[|events| - 1];
      var before := Run(t, arms, candidates, ctx, earlier);
      RunKeepsSound(t, arms, candidates, ctx, earlier);
      StepKeepsSound(t, before, candidates, ctx, e);
      StuckRoundsCost(t, arms, candidates, ctx, earlier, m, start, stuck);
      if e.Serve? && TotalPulls(before, ctx) >= start {
        StuckRoundCosts(t, before, candidates, ctx, e.feedback, m, start, stuck);
      }
      DeficitFalls(before, Step(t, before, candidates, ctx, e), candidates, ctx, 4 * m + 1);
      DeficitNeverGrows(t, arms, candidates, ctx, events, 4 * m + 1);
    }
  }

  lemma {:induction false} DeficitNeverGrows(t: Tuning, arms: Arms, candidates: seq<Name>, ctx: Context,
                                             events: seq<Event>,
                                             goal: nat)
    requires candidates != [] && Sound(arms) && AllBounded(events)
    ensures Deficit(Run(t, arms, candidates, ctx, events), candidates, ctx, goal) 
            <= Deficit(arms, candidates, ctx, goal)
  {
    if events != [] {
      var earlier, e := events[..|events| - 1], events[|events| - 1];
      var before := Run(t, arms, candidates, ctx, earlier);
      DeficitNeverGrows(t, arms, candidates, ctx, earlier, goal);
      RunKeepsSound(t, arms, candidates, ctx, earlier);
      StepKeepsSound(t, before, candidates, ctx, e);
      DeficitFalls(before, Step(t, before, candidates, ctx, e), candidates, ctx, goal);
    }
  }

  ghost predicate AllAbove(arms: Arms, candidates: seq<Name>, ctx: Context, m: nat) {
    forall n :: n in candidates ==> ArmOf(arms, n, ctx).pulls > m
  }

  /** When `ln(start) * c^2 >= 4m`: once the context's total has reached `start`, `k * (4m + 1)` more rounds among
      `k` candidates leave none with `m` pulls or fewer, whatever else the selector learns between the rounds. */
  lemma EveryCandidateIsPulledAgain(t: Tuning, arms: Arms, candidates: seq<Name>, ctx: Context, events: seq<Event>,
                                    m: nat, start: nat)
    requires Faithful(t) && t.c > 0.0 && Sound(arms) && AllBounded(events)
    requires Enough(t, start, m)
    requires candidates != [] && Rounds(events) >= Missing(TotalPulls(arms, ctx), start) + |candidates| * (4 * m + 1)
    ensures AllAbove(Run(t, arms, candidates, ctx, events), candidates, ctx, m)
  {
    var after := Run(t, arms, candidates, ctx, events);
    forall n | n in candidates ensures ArmOf(after, n, ctx).pulls > m {
      if ArmOf(after, n, ctx).pulls <= m {
        StuckRoundsCost(t, arms, candidates, ctx, events, m, start, n);
        DeficitBound(arms, candidates, ctx, 4 * m + 1);
        DeficitOfOne(after, candidates, ctx, 4 * m + 1, n);
      }
    }
  }

  // ---- the first rounds ------------------------------------------------

  ghost predicate OnlyRounds(events: seq<Event>) {
    forall i :: 0 <= i < |events| ==> events[i].Serve?
  }

  lemma RootsCompare(x: real, y: real)
    requires x >= 0.0 && y >= 0.0 && x * x <= y * y
    ensures x <= y
  {
    var a, b := y - x, y + x;
    assert a * b == y * y - x * x;
  }

  /** When the first untried candidate is at place `i`, it is the one picked. */
  lemma FirstUntriedIsPicked(t: Tuning, arms: Arms, candidates: seq<Name>, ctx: Context, i: nat)
    requires i < |candidates| && ArmOf(arms, candidates[i], ctx).pulls == 0
    requires forall j :: 0 <= j < i ==> ArmOf(arms, candidates[j], ctx).pulls > 0
    ensures Pick(t, arms, ctx, candidates) == candidates[i]
  {
    var score := Scorer(t, arms, ctx);
    BestIsTheFirstMaximum(score, candidates);
    var best := Best(score, candidates);
    assert !Below(score(best), score(candidates[i]));
    var at :| 0 <= at < |candidates| && candidates[at] == best
              && forall j :: 0 <= j < at ==> Below(score(candidates[j]), score(best));
  }

  /** Exactly the first `tried` candidates have been pulled, once each. */
  ghost predicate TriedOnce(arms: Arms, candidates: seq<Name>, ctx: Context, tried: nat) {
    forall i :: 0 <= i < |candidates| ==> ArmOf(arms, candidates[i], ctx).pulls == if i < tried then 1 else 0
  }

  lemma RoundTriesOneMore(t: Tuning, arms: Arms, candidates: seq<Name>, ctx: Context, f: Feedback, tried: nat)
    requires Distinct(candidates) && tried < |candidates| && TriedOnce(arms, candidates, ctx, tried)
    ensures TriedOnce(Round(t, arms, candidates, ctx, f), candidates, ctx, tried + 1)
    ensures Pick(t, arms, ctx, candidates) == candidates[tried]
  {
    FirstUntriedIsPicked(t, arms, candidates, ctx, tried);
    RoundLearnsThePick(t, arms, candidates, ctx, f);
    var picked := candidates[tried];
    OneMoreTried(arms, Round(t, arms, candidates, ctx, f), candidates, ctx, tried,
        Outcome(picked, f.success, f.reward, ctx, f.timestamp));
  }

  lemma OneMoreTried(before: Arms, after: Arms, candidates: seq<Name>, ctx: Context, tried: nat, o: Outcome)
    requires Distinct(candidates) && tried < |candidates| && TriedOnce(before, candidates, ctx, tried)
    requires OneArmLearned(before, after, candidates[tried], ctx, o)
    ensures TriedOnce(after, candidates, ctx, tried + 1)
  {
  }

  lemma {:induction false} FirstRoundsState(t: Tuning, arms: Arms, candidates: seq<Name>, ctx: Context,
                                            events: seq<Event>)
    requires candidates != [] && Distinct(candidates) && |events| <= |candidates| && OnlyRounds(events)
    requires TriedOnce(arms, candidates, ctx, 0)
    ensures TriedOnce(Run(t, arms, candidates, ctx, events), candidates, ctx, |events|)
  {
    if events != [] {
      var earlier, last := events[..|events| - 1], events[|events| - 1];
      FirstRoundsState(t, arms, candidates, ctx, earlier);
      var before := Run(t, arms, candidates, ctx, earlier);
      RoundTriesOneMore(t, before, candidates, ctx, last.feedback, |earlier|);
      assert Run(t, arms, candidates, ctx, events) == Step(t, before, candidates, ctx, last);
    }
  }

  /** In a fresh context the first rounds pick the candidates once each, in order. */
  lemma FirstRoundsTryEachCandidate(t: Tuning, arms: Arms, candidates: seq<Name>, ctx: Context, events: seq<Event>)
    requires candidates != [] && Distinct(candidates) && |events| <= |candidates| && OnlyRounds(events)
    requires forall n :: n in candidates ==> ArmOf(arms, n, ctx).pulls == 0
    ensures var after := Run(t, arms, candidates, ctx, events);
            && TriedOnce(after, candidates, ctx, |events|)
            && (|events| < |candidates| ==> Pick(t, after, ctx, candidates) == candidates[|events|])
  {
    FirstRoundsState(t, arms, candidates, ctx, events);
    if |events| < |candidates| {
      FirstUntriedIsPicked(t, Run(t, arms, candidates, ctx, events), candidates, ctx, |events|);
    }
  }

  // ---- exactly when no arm starves -------------------------------------

  ghost predicate LnReaches(t: Tuning, x: real) {
    exists n: nat :: n >= 1 && t.ln(n) >= x
  }

  ghost predicate LnUnbounded(t: Tuning) {
    forall x :: LnReaches(t, x)
  }

  /** However the run goes, `rounds` rounds give every candidate more than `m` pulls. */
  ghost predicate RoundsSuffice(t: Tuning, candidates: seq<Name>, ctx: Context, m: nat, rounds: nat)
    requires candidates != []
  {
    forall arms, events :: Sound(arms) && AllBounded(events) && Rounds(events) >= rounds ==>
      AllAbove(Run(t, arms, candidates, ctx, events), candidates, ctx, m)
  }

  ghost predicate NeverStarves(t: Tuning, candidates: seq<Name>, ctx: Context)
    requires candidates != []
  {
    forall m: nat :: SomeRoundsSuffice(t, candidates, ctx, m)
  }

  ghost predicate SomeRoundsSuffice(t: Tuning, candidates: seq<Name>, ctx: Context, m: nat)
    requires candidates != []
  {
    exists rounds: nat :: RoundsSuffice(t, candidates, ctx, m, rounds)
  }

  lemma ExplorationSuffices(t: Tuning, candidates: seq<Name>, ctx: Context, m: nat) returns (rounds: nat)
    requires Faithful(t) && LnUnbounded(t) && t.c > 0.0 && candidates != []
    ensures RoundsSuffice(t, candidates, ctx, m, rounds)
  {
    var x := 4.0 * m as real / (t.c * t.c);
    assert LnReaches(t, x);
    var start: nat :| start >= 1 && t.ln(start) >= x;
    assert Enough(t, start, m) by {
      assert t.ln(start) * (t.c * t.c) >= x * (t.c * t.c);
      assert x * (t.c * t.c) == 4.0 * m as real;
    }
    rounds := start + |candidates| * (4 * m + 1);
    forall arms, events | Sound(arms) && AllBounded(events) && Rounds(events) >= rounds
      ensures AllAbove(Run(t, arms, candidates, ctx, events), candidates, ctx, m)
    {
      EveryCandidateIsPulledAgain(t, arms, candidates, ctx, events, m, start);
    }
  }

  /** Feedback that rewards the first candidate always and the other `k - 1` never. */
  function FavouringFeedback(k: nat, n: nat): Feedback {
    if n == 0 || n >= k then Feedback(true, 1.0, 0.0) else Feedback(false, 0.0, 0.0)
  }

  /** Without exploration a perfect mean beats a mean of zero. */
  lemma GreedyPrefersThePerfectArm(t: Tuning, total: nat, perfect: ArmState, worthless: ArmState)
    requires Faithful(t) && t.c <= 0.0
    requires Perfect(perfect, 1) && Worthless(worthless, 1)
    ensures Below(ScoreOfArm(t, total, worthless), ScoreOfArm(t, total, perfect))
  {
    var x, y := Root(t, total, perfect.pulls), Root(t, total, 1);
    DivideMore(t.ln(Max(total, 1)), 1.0, perfect.pulls as real);
    RootIsFaithful(t, total, perfect.pulls);
    RootIsFaithful(t, total, 1);
    RootsCompare(x, y);
    assert t.c * x >= t.c * y;
    assert Mean(perfect) == 1.0 && Mean(worthless) == 0.0;
  }

  /** After `n` favouring rounds: the first arm is perfect, every other one has been tried at most once, to no avail. */
  ghost predicate FirstFavoured(arms: Arms, candidates: seq<Name>, ctx: Context, n: nat)
    requires candidates != []
  {
    && Perfect(ArmOf(arms, candidates[0], ctx), if n >= 1 then 1 else 0)
    && (n == 0 ==> ArmOf(arms, candidates[0], ctx).pulls == 0)
    && (forall i :: 1 <= i < |candidates| ==> Worthless(ArmOf(arms, candidates[i], ctx), if i < n then 1 else 0))
  }

  ghost predicate Perfect(arm: ArmState, atLeast: nat) {
    arm.totalReward == arm.pulls as real && arm.pulls >= atLeast
  }

  ghost predicate Worthless(arm: ArmState, pulls: nat) {
    arm.totalReward == 0.0 && arm.pulls == pulls
  }

  /** Once each candidate has been tried, an unexploring selector picks the first again. */
  lemma GreedyPicksTheFirst(t: Tuning, arms: Arms, candidates: seq<Name>, ctx: Context, n: nat)
    requires Faithful(t) && t.c <= 0.0 && candidates != [] && n >= |candidates|
                && FirstFavoured(arms, candidates, ctx, n)
    ensures Pick(t, arms, ctx, candidates) == candidates[0]
  {
    PickIsMaximal(t, arms, ctx, candidates, candidates[0]);
    forall i | 1 <= i < |candidates|
        ensures Below(ScoreOf(t, arms, ctx, candidates[i]), ScoreOf(t, arms, ctx, candidates[0])) {
      GreedyPrefersThePerfectArm(t, TotalPulls(arms, ctx), ArmOf(arms, candidates[0], ctx),
          ArmOf(arms, candidates[i], ctx));
    }
  }

  /** The first rounds try each candidate in order; after them the first one is picked. */
  lemma FavouredPick(t: Tuning, arms: Arms, candidates: seq<Name>, ctx: Context, n: nat)
    requires Faithful(t) && t.c <= 0.0 && candidates != [] && FirstFavoured(arms, candidates, ctx, n)
    ensures Pick(t, arms, ctx, candidates) == candidates[if n < |candidates| then n else 0]
  {
    if n < |candidates| {
      FirstUntriedIsPicked(t, arms, candidates, ctx, n);
    } else {
      GreedyPicksTheFirst(t, arms, candidates, ctx, n);
    }
  }

  lemma FavouredRound(arms: Arms, after: Arms, candidates: seq<Name>, ctx: Context, n: nat, o: Outcome)
    requires Distinct(candidates) && candidates != [] && FirstFavoured(arms, candidates, ctx, n)
    requires o.providerName == candidates[if n < |candidates| then n else 0]
    requires o.success == FavouringFeedback(|candidates|, n).success
                && o.reward == FavouringFeedback(|candidates|, n).reward
    requires ArmOf(after, o.providerName, ctx) == Learned(ArmOf(arms, o.providerName, ctx), o)
    requires forall p :: p != o.providerName ==> ArmOf(after, p, ctx) == ArmOf(arms, p, ctx)
    ensures FirstFavoured(after, candidates, ctx, n + 1)
  {
    var at := if n < |candidates| then n else 0;
    assert forall i :: 0 <= i < |candidates| && i != at ==> candidates[i] != candidates[at];
  }

  lemma FavouredRoundOf(t: Tuning, arms: Arms, candidates: seq<Name>, ctx: Context, n: nat) returns (after: Arms)
    requires Distinct(candidates) && candidates != [] && FirstFavoured(arms, candidates, ctx, n)
    requires Pick(t, arms, ctx, candidates) == candidates[if n < |candidates| then n else 0]
    ensures after == Round(t, arms, candidates, ctx, FavouringFeedback(|candidates|, n))
    ensures FirstFavoured(after, candidates, ctx, n + 1)
  {
    var f := FavouringFeedback(|candidates|, n);
    after := Round(t, arms, candidates, ctx, f);
    RoundLearnsThePick(t, arms, candidates, ctx, f);
    FavouredRound(arms, after, candidates, ctx, n,
        Outcome(Pick(t, arms, ctx, candidates), f.success, f.reward, ctx, f.timestamp));
  }

  ghost predicate Untried(arms: Arms, candidates: seq<Name>, ctx: Context) {
    forall n :: n in candidates ==> ArmOf(arms, n, ctx).pulls == 0 && ArmOf(arms, n, ctx).totalReward == 0.0
  }

  /** Under that feedback an unexploring selector returns to the first candidate for ever. */
  lemma {:induction false} GreedyStaysWithTheFirst(t: Tuning, arms: Arms, candidates: seq<Name>, ctx: Context, n: nat)
    returns (events: seq<Event>)
    requires Faithful(t) && t.c <= 0.0 && candidates != [] && Distinct(candidates) && Untried(arms, candidates, ctx)
    ensures |events| == n && OnlyRounds(events) && AllBounded(events)
    ensures FirstFavoured(Run(t, arms, candidates, ctx, events), candidates, ctx, n)
  {
    events := [];
    if n > 0 {
      var earlier := GreedyStaysWithTheFirst(t, arms, candidates, ctx, n - 1);
      var last := Serve(FavouringFeedback(|candidates|, n - 1));
      OneMoreFavoured(t, Run(t, arms, candidates, ctx, earlier), candidates, ctx, n - 1);
      RunOneMore(t, arms, candidates, ctx, earlier, last);
      OneMoreRound(earlier, last);
      events := earlier + [last];
    }
  }

  lemma OneMoreFavoured(t: Tuning, arms: Arms, candidates: seq<Name>, ctx: Context, n: nat)
    requires Faithful(t) && t.c <= 0.0 && candidates != [] && Distinct(candidates)
    requires FirstFavoured(arms, candidates, ctx, n)
    ensures FirstFavoured(Round(t, arms, candidates, ctx, FavouringFeedback(|candidates|, n)), candidates, ctx, n + 1)
  {
    FavouredPick(t, arms, candidates, ctx, n);
    var after := FavouredRoundOf(t, arms, candidates, ctx, n);
  }

  lemma RunOneMore(t: Tuning, arms: Arms, candidates: seq<Name>, ctx: Context, events: seq<Event>, e: Event)
    requires candidates != []
    ensures Run(t, arms, candidates, ctx, events + [e])
         == Step(t, Run(t, arms, candidates, ctx, events), candidates, ctx, e)
  {
    assert (events + [e])[..|events|] == events;
  }

  lemma OneMoreRound(events: seq<Event>, e: Event)
    requires OnlyRounds(events) && AllBounded(events) && e.Serve? && Bounded(e)
    ensures OnlyRounds(events + [e]) && AllBounded(events + [e])
  {
  }

  lemma {:induction false} EveryEventIsARound(events: seq<Event>)
    requires OnlyRounds(events)
    ensures Rounds(events) == |events|
  {
    if events != [] { EveryEventIsARound(events[..|events| - 1]); }
  }

  /** Without exploration no number of rounds is enough to pull every candidate twice. */
  lemma GreedyStarves(t: Tuning, candidates: seq<Name>, ctx: Context, rounds: nat)
    requires Faithful(t) && t.c <= 0.0 && |candidates| >= 2 && Distinct(candidates)
    ensures !RoundsSuffice(t, candidates, ctx, 1, rounds)
  {
    var arms: Arms := Table([], map[]);
    var events := GreedyStaysWithTheFirst(t, arms, candidates, ctx, rounds);
    var after := Run(t, arms, candidates, ctx, events);
    EveryEventIsARound(events);
    assert Sound(arms);
    assert candidates[1] in candidates && ArmOf(after, candidates[1], ctx).pulls <= 1;
    assert !AllAbove(after, candidates, ctx, 1);
  }

  /** No candidate ever starves exactly when the exploration constant is positive. */
  lemma NeverStarvesIffExploring(t: Tuning, candidates: seq<Name>, ctx: Context)
    requires Faithful(t) && LnUnbounded(t) && |candidates| >= 2 && Distinct(candidates)
    ensures NeverStarves(t, candidates, ctx) <==> t.c > 0.0
  {
    if t.c > 0.0 {
      forall m: nat ensures SomeRoundsSuffice(t, candidates, ctx, m) {
        var rounds := ExplorationSuffices(t, candidates, ctx, m);
      }
    } else {
      assert NeverStarves(t, candidates, ctx) ==> SomeRoundsSuffice(t, candidates, ctx, 1);
      forall rounds: nat ensures !RoundsSuffice(t, candidates, ctx, 1, rounds) {
        GreedyStarves(t, candidates, ctx, rounds);
      }
    }
  }

  // ---- partitions ------------------------------------------------------

  /** Outcomes in other contexts leave a context's scores, and so its choices, as they were. */
  lemma {:induction false} OtherContextsDoNotInterfere(t: Tuning, arms: Arms, outcomes: seq<Outcome>, ctx: Context)
    requires forall i :: 0 <= i < |outcomes| ==> outcomes[i].contextKey != ctx
    ensures forall n :: ScoreOf(t, LearnAll(arms, outcomes), ctx, n) == ScoreOf(t, arms, ctx, n)
  {
    if outcomes != [] {
      OtherContextsDoNotInterfere(t, arms, outcomes[..|outcomes| - 1], ctx);
      LearnChangesOneArm(LearnAll(arms, outcomes[..|outcomes| - 1]), outcomes[|outcomes| - 1]);
    }
  }

  function LearnAll(arms: Arms, outcomes: seq<Outcome>): Arms {
    if outcomes == [] then arms
    else Learn(LearnAll(arms, outcomes[..|outcomes| - 1]), outcomes[|outcomes| - 1])
  }
}
