/** Bandit selectors with per-context arms (atlas/bandit.py). */
module Bandits {
  import opened Prelude

  /** The statistics kept for one provider in one context. */
  datatype ArmState = ArmState(
    providerName: Name, contextKey: Context,
    successes: nat, failures: nat, totalReward: real, pulls: nat, lastUpdated: real)

  datatype Outcome = Outcome(providerName: Name, success: bool, reward: real, contextKey: Context, timestamp: real)

  /** provider name -> context key -> arm. */
  type Arms = Dict<Name, Dict<Context, ArmState>>

  function Blank(provider: Name, ctx: Context): ArmState {
    ArmState(provider, ctx, 0, 0, 0.0, 0, 0.0)
  }

  /** The arm of a provider in a context; one never created counts as blank. */
  function ArmOf(arms: Arms, provider: Name, ctx: Context): ArmState {
    if provider in arms.entries && ctx in arms.entries[provider].entries
    then arms.entries[provider].entries[ctx]
    else Blank(provider, ctx)
  }

  function SetArm(arms: Arms, provider: Name, ctx: Context, arm: ArmState): Arms {
    var byContext := if provider in arms.entries then arms.entries[provider] else Table([], map[]);
    arms.Put(provider, byContext.Put(ctx, arm))
  }

  /** Setting an arm changes that arm alone. */
  lemma SetArmIsExact(arms: Arms, provider: Name, ctx: Context, arm: ArmState)
    ensures var r := SetArm(arms, provider, ctx, arm);
            && ArmOf(r, provider, ctx) == arm
            && (forall p, c :: p != provider || c != ctx ==> ArmOf(r, p, c) == ArmOf(arms, p, c))
            && r.keys == if provider in arms.keys then arms.keys else arms.keys + [provider]
  {
    var byContext := if provider in arms.entries then arms.entries[provider] else Table([], map[]);
    var r := SetArm(arms, provider, ctx, arm);
    assert r.entries[provider] == byContext.Put(ctx, arm);
    forall p, c | p != provider || c != ctx ensures ArmOf(r, p, c) == ArmOf(arms, p, c) {
      assert p != provider ==> (p in r.entries <==> p in arms.entries);
    }
  }

  /** Creating an arm that already exists changes nothing. */
  function EnsureArm(arms: Arms, provider: Name, ctx: Context): Arms {
    SetArm(arms, provider, ctx, ArmOf(arms, provider, ctx))
  }

  function EnsureAll(arms: Arms, candidates: seq<Name>, ctx: Context): Arms {
    if candidates == [] then arms
    else EnsureArm(EnsureAll(arms, candidates[..|candidates| - 1], ctx), candidates[|candidates| - 1], ctx)
  }

  /** The pulls of the providers in `keys`, in one context. */
  function PullsOf(arms: Arms, keys: seq<Name>, ctx: Context): nat {
    if keys == [] then 0
    else PullsOf(arms, keys[..|keys| - 1], ctx) + ArmOf(arms, keys[|keys| - 1], ctx).pulls
  }

  function TotalPulls(arms: Arms, ctx: Context): nat {
    PullsOf(arms, arms.keys, ctx)
  }

  // ---- learning --------------------------------------------------------

  /** A success reported without a reward is worth one. */
  function Reward(o: Outcome): real {
    if o.reward == 0.0 && o.success then 1.0 else o.reward
  }

  function Counted(arm: ArmState, o: Outcome): ArmState {
    if o.success then arm.(successes := arm.successes + 1, lastUpdated := o.timestamp)
    else arm.(failures := arm.failures + 1, lastUpdated := o.timestamp)
  }

  function Learned(arm: ArmState, o: Outcome): ArmState {
    Counted(arm.(pulls := arm.pulls + 1, totalReward := arm.totalReward + Reward(o)), o)
  }

  function Learn(arms: Arms, o: Outcome): Arms {
    SetArm(arms, o.providerName, o.contextKey, Learned(ArmOf(arms, o.providerName, o.contextKey), o))
  }

  /** Thompson sampling learns from successes and failures alone. */
  function LearnCounts(arms: Arms, o: Outcome): Arms {
    SetArm(arms, o.providerName, o.contextKey, Counted(ArmOf(arms, o.providerName, o.contextKey), o))
  }

  lemma SetArmTwice(arms: Arms, provider: Name, ctx: Context, first: ArmState, second: ArmState)
    ensures SetArm(SetArm(arms, provider, ctx, first), provider, ctx, second) == SetArm(arms, provider, ctx, second)
  {
    var byContext := if provider in arms.entries then arms.entries[provider] else Table([], map[]);
    PutTwice(byContext, ctx, first, second);
    PutTwice(arms, provider, byContext.Put(ctx, first), byContext.Put(ctx, second));
  }

  // ---- sums over the providers -----------------------------------------

  lemma {:induction false} SamePulls(arms: Arms, arms': Arms, keys: seq<Name>, ctx: Context)
    requires forall p :: p in keys ==> ArmOf(arms', p, ctx).pulls == ArmOf(arms, p, ctx).pulls
    ensures PullsOf(arms', keys, ctx) == PullsOf(arms, keys, ctx)
  {
    if keys != [] { SamePulls(arms, arms', keys[..|keys| - 1], ctx); }
  }

  lemma {:induction false} OneMorePull(arms: Arms, arms': Arms, keys: seq<Name>, ctx: Context, provider: Name)
    requires Distinct(keys) && provider in keys
    requires forall p :: p != provider ==> ArmOf(arms', p, ctx).pulls == ArmOf(arms, p, ctx).pulls
    requires ArmOf(arms', provider, ctx).pulls == ArmOf(arms, provider, ctx).pulls + 1
    ensures PullsOf(arms', keys, ctx) == PullsOf(arms, keys, ctx) + 1
  {
    var last := |keys| - 1;
    if keys[last] == provider {
      assert forall i :: 0 <= i < last ==> keys[i] != keys[last];
      SamePulls(arms, arms', keys[..last], ctx);
    } else {
      OneMorePull(arms, arms', keys[..last], ctx, provider);
    }
  }

  /** Replacing an arm by one with as many pulls leaves every context's total alone. */
  lemma SetArmKeepsTotal(arms: Arms, provider: Name, ctx: Context, arm: ArmState, c: Context)
    requires c != ctx || arm.pulls == ArmOf(arms, provider, ctx).pulls
    ensures TotalPulls(SetArm(arms, provider, ctx, arm), c) == TotalPulls(arms, c)
  {
    var r := SetArm(arms, provider, ctx, arm);
    SetArmIsExact(arms, provider, ctx, arm);
    SamePulls(arms, r, arms.keys, c);
    if provider !in arms.keys {
      assert r.keys[..|r.keys| - 1] == arms.keys;
    }
  }

  lemma LearnAddsOnePull(arms: Arms, o: Outcome)
    ensures TotalPulls(Learn(arms, o), o.contextKey) == TotalPulls(arms, o.contextKey) + 1
  {
    var p, ctx, r := o.providerName, o.contextKey, Learn(arms, o);
    SetArmIsExact(arms, p, ctx, Learned(ArmOf(arms, p, ctx), o));
    if p in arms.keys {
      OneMorePull(arms, r, arms.keys, ctx, p);
    } else {
      assert r.keys[..|r.keys| - 1] == arms.keys;
      SamePulls(arms, r, arms.keys, ctx);
    }
  }

  /** What one outcome changes: its own arm, and its own context's total, by one pull. */
  lemma LearnChangesOneArm(arms: Arms, o: Outcome)
    ensures forall p, c :: p != o.providerName || c != o.contextKey ==> ArmOf(Learn(arms, o), p, c) == ArmOf(arms, p, c)
    ensures ArmOf(Learn(arms, o), o.providerName, o.contextKey) == Learned(ArmOf(arms, o.providerName, o.contextKey), o)
    ensures forall c :: TotalPulls(Learn(arms, o), c) == TotalPulls(arms, c) + if c == o.contextKey then 1 else 0
  {
    var p, ctx, arm := o.providerName, o.contextKey, Learned(ArmOf(arms, o.providerName, o.contextKey), o);
    SetArmIsExact(arms, p, ctx, arm);
    LearnAddsOnePull(arms, o);
    forall c | c != ctx ensures TotalPulls(Learn(arms, o), c) == TotalPulls(arms, c) {
      SetArmKeepsTotal(arms, p, ctx, arm, c);
    }
  }

  /** Creating arms changes no statistic. */
  lemma {:induction false} EnsuringChangesNoStatistic(arms: Arms, candidates: seq<Name>, ctx: Context)
    ensures forall p, c :: ArmOf(EnsureAll(arms, candidates, ctx), p, c) == ArmOf(arms, p, c)
    ensures forall c :: TotalPulls(EnsureAll(arms, candidates, ctx), c) == TotalPulls(arms, c)
  {
    if candidates != [] {
      var earlier, name := candidates[..|candidates| - 1], candidates[|candidates| - 1];
      var mid := EnsureAll(arms, earlier, ctx);
      EnsuringChangesNoStatistic(arms, earlier, ctx);
      SetArmIsExact(mid, name, ctx, ArmOf(mid, name, ctx));
      forall c ensures TotalPulls(EnsureArm(mid, name, ctx), c) == TotalPulls(mid, c) {
        SetArmKeepsTotal(mid, name, ctx, ArmOf(mid, name, ctx), c);
      }
    }
  }

  // ---- UCB1 scores -----------------------------------------------------

  /** The exploration constant, and the logarithm and square root the scores use. */
  datatype Tuning = Tuning(c: real, ln: nat -> real, sqrt: real -> real)

  /** All the model assumes of the two: a nondecreasing, nonnegative logarithm and a nonnegative root. */
  ghost predicate Faithful(t: Tuning) {
    && (forall n: nat :: n >= 1 ==> t.ln(n) >= 0.0)
    && (forall n: nat, m: nat :: 1 <= n <= m ==> t.ln(n) <= t.ln(m))
    && (forall x: real :: x >= 0.0 ==> t.sqrt(x) >= 0.0 && t.sqrt(x) * t.sqrt(x) == x)
  }

  datatype Score = Infinite | Finite(value: real)

  predicate Below(a: Score, b: Score) {
    a.Finite? && (b.Infinite? || a.value < b.value)
  }

  /** A nonnegative number whose square is ln(total) over the arm's pulls. */
  ghost predicate IsRoot(t: Tuning, total: nat, pulls: nat, x: real) {
    x >= 0.0 && x * x * pulls as real == t.ln(if total >= 1 then total else 1)
  }

  /** The score the formula asks for: the mean reward plus `c` times such a number; endless for an untried arm. */
  ghost predicate IsUcb1Score(t: Tuning, total: nat, arm: ArmState, s: Score) {
    if arm.pulls == 0 then s.Infinite?
    else s.Finite? && exists x ::
      IsRoot(t, total, arm.pulls, x) && (s.value - t.c * x) * arm.pulls as real == arm.totalReward
  }

  /** The exploration term alone; none for an untried arm. */
  ghost predicate IsUcb1Term(t: Tuning, total: nat, arm: ArmState, e: Option<real>) {
    if arm.pulls == 0 then e == None else e.Some? && exists x :: IsRoot(t, total, arm.pulls, x) && e.value == t.c * x
  }

  function Max(a: nat, b: nat): nat {
    if a >= b then a else b
  }

  function Root(t: Tuning, total: nat, pulls: nat): real
    requires pulls > 0
  {
    t.sqrt(t.ln(Max(total, 1)) / pulls as real)
  }

  function Exploration(t: Tuning, total: nat, pulls: nat): real
    requires pulls > 0
  {
    t.c * Root(t, total, pulls)
  }

  function Mean(arm: ArmState): real
    requires arm.pulls > 0
  {
    arm.totalReward / arm.pulls as real
  }

  function ScoreOfArm(t: Tuning, total: nat, arm: ArmState): Score {
    if arm.pulls == 0 then Infinite
    else Finite(Mean(arm) + Exploration(t, total, arm.pulls))
  }

  /** The exploration term reported beside a choice; an untried arm has none. */
  function TermOfArm(t: Tuning, total: nat, arm: ArmState): Option<real> {
    if arm.pulls == 0 then None else Some(Exploration(t, total, arm.pulls))
  }

  function ScoreOf(t: Tuning, arms: Arms, ctx: Context, name: Name): Score {
    ScoreOfArm(t, TotalPulls(arms, ctx), ArmOf(arms, name, ctx))
  }

  function Scorer(t: Tuning, arms: Arms, ctx: Context): Name -> Score {
    name => ScoreOf(t, arms, ctx, name)
  }

  function Termer(t: Tuning, arms: Arms, ctx: Context): Name -> Option<real> {
    name => TermOfArm(t, TotalPulls(arms, ctx), ArmOf(arms, name, ctx))
  }

  lemma RootIsARoot(t: Tuning, total: nat, pulls: nat)
    requires Faithful(t) && pulls > 0
    ensures IsRoot(t, total, pulls, Root(t, total, pulls))
  {
    var l := t.ln(Max(total, 1)) / pulls as real;
    assert l >= 0.0 && t.sqrt(l) * t.sqrt(l) == l;
  }

  /** Every score is the formula's, and so is every exploration term. */
  lemma ScoresFollowTheFormula(t: Tuning, total: nat, arm: ArmState)
    requires Faithful(t)
    ensures IsUcb1Score(t, total, arm, ScoreOfArm(t, total, arm))
    ensures IsUcb1Term(t, total, arm, TermOfArm(t, total, arm))
  {
    if arm.pulls > 0 {
      RootIsARoot(t, total, arm.pulls);
      var x := Root(t, total, arm.pulls);
      assert ScoreOfArm(t, total, arm).value - t.c * x == Mean(arm);
      assert Mean(arm) * arm.pulls as real == arm.totalReward;
    }
  }

  /** Of two candidates pulled equally often the one that earned less is never the pick. */
  lemma LesserEarnerIsNeverPicked(t: Tuning, arms: Arms, ctx: Context, candidates: seq<Name>, p: Name, better: Name)
    requires p in candidates && better in candidates
    requires ArmOf(arms, p, ctx).pulls == ArmOf(arms, better, ctx).pulls > 0
    requires ArmOf(arms, p, ctx).totalReward < ArmOf(arms, better, ctx).totalReward
    ensures Pick(t, arms, ctx, candidates) != p
  {
    PickIsMaximal(t, arms, ctx, candidates, better);
    DivideLess(ArmOf(arms, p, ctx).totalReward, ArmOf(arms, better, ctx).totalReward,
        ArmOf(arms, p, ctx).pulls as real);
  }

  lemma DivideLess(x: real, y: real, n: real)
    requires x < y && n > 0.0
    ensures x / n < y / n
  {
    assert (y - x) / n > 0.0;
  }

  /** The first name with the largest score. */
  function Best(score: Name -> Score, names: seq<Name>): Name
    requires names != []
  {
    var last := names[|names| - 1];
    if |names| == 1 then last
    else
      var best := Best(score, names[..|names| - 1]);
      if Below(score(best), score(last)) then last else best
  }

  function Pick(t: Tuning, arms: Arms, ctx: Context, candidates: seq<Name>): Name
    requires candidates != []
  {
    Best(Scorer(t, arms, ctx), candidates)
  }

  /** No name beats the best one, and every name before its first place is strictly worse. */
  lemma {:induction false} BestIsTheFirstMaximum(score: Name -> Score, names: seq<Name>)
    requires names != []
    ensures var best := Best(score, names);
            && best in names
            && (forall n :: n in names ==> !Below(score(best), score(n)))
            && (exists i :: 0 <= i < |names| && names[i] == best
                  && forall j :: 0 <= j < i ==> Below(score(names[j]), score(best)))
  {
    var last := |names| - 1;
    if last > 0 {
      BestIsTheFirstMaximum(score, names[..last]);
      var best := Best(score, names[..last]);
      var i :| 0 <= i < last && names[i] == best
               && forall j :: 0 <= j < i ==> Below(score(names[..last][j]), score(best));
      assert forall j :: 0 <= j < last ==> names[j] == names[..last][j] && names[..last][j] in names[..last];
      var at := if Below(score(best), score(names[last])) then last else i;
      assert names[at] == Best(score, names) && forall j :: 0 <= j < at ==> Below(score(names[j]), score(names[at]));
    }
  }

  lemma PickIsMaximal(t: Tuning, arms: Arms, ctx: Context, candidates: seq<Name>, n: Name)
    requires n in candidates
    ensures Pick(t, arms, ctx, candidates) in candidates
    ensures !Below(ScoreOf(t, arms, ctx, Pick(t, arms, ctx, candidates)), ScoreOf(t, arms, ctx, n))
  {
    var score := Scorer(t, arms, ctx);
    BestIsTheFirstMaximum(score, candidates);
    assert !Below(score(Best(score, candidates)), score(n));
  }

  /** The names, each at its first place only. */
  function Deduplicated(names: seq<Name>): seq<Name> {
    if names == [] then []
    else
      var earlier, last := Deduplicated(names[..|names| - 1]), names[|names| - 1];
      if last in earlier then earlier else earlier + [last]
  }

  lemma {:induction false} DeduplicatedMembers(names: seq<Name>)
    ensures forall n :: n in Deduplicated(names) <==> n in names
  {
    if names != [] {
      DeduplicatedMembers(names[..|names| - 1]);
      assert names == names[..|names| - 1] + [names[|names| - 1]];
    }
  }

  /** Listing a name again does not change the choice. */
  lemma {:induction false} BestOfDeduplicated(score: Name -> Score, names: seq<Name>)
    requires names != []
    ensures Deduplicated(names) != [] && Best(score, Deduplicated(names)) == Best(score, names)
  {
    var earlier, last := names[..|names| - 1], names[|names| - 1];
    if earlier != [] {
      BestOfDeduplicated(score, earlier);
      BestIsTheFirstMaximum(score, earlier);
      DeduplicatedMembers(earlier);
      var d := Deduplicated(earlier);
      assert (d + [last])[..|d|] == d;
    } else {
      assert Deduplicated(names) == [last];
    }
  }

  lemma EnsuredOneMore(arms: Arms, names: seq<Name>, name: Name, ctx: Context)
    ensures EnsureAll(arms, names + [name], ctx) == EnsureArm(EnsureAll(arms, names, ctx), name, ctx)
  {
    assert (names + [name])[..|names|] == names;
  }

  /** `score` and `term` give the score and the exploration term of every arm of the context. */
  ghost predicate ScoresArms(t: Tuning, total: nat, arms: Arms, ctx: Context,
                             score: Name -> Score, term: Name -> Option<real>)
  {
    forall n ::
      score(n) == ScoreOfArm(t, total, ArmOf(arms, n, ctx)) && term(n) == TermOfArm(t, total, ArmOf(arms, n, ctx))
  }

  lemma ScorersScore(t: Tuning, arms: Arms, ctx: Context)
    ensures ScoresArms(t, TotalPulls(arms, ctx), arms, ctx, Scorer(t, arms, ctx), Termer(t, arms, ctx))
  {
    forall n
      ensures Scorer(t, arms, ctx)(n) == ScoreOf(t, arms, ctx, n)
      ensures Termer(t, arms, ctx)(n) == TermOfArm(t, TotalPulls(arms, ctx), ArmOf(arms, n, ctx)) {
    }
  }

  lemma StillScores(t: Tuning, total: nat, arms: Arms, arms': Arms, ctx: Context,
                    score: Name -> Score, term: Name -> Option<real>)
    requires ScoresArms(t, total, arms, ctx, score, term)
    requires forall n :: ArmOf(arms', n, ctx) == ArmOf(arms, n, ctx)
    ensures ScoresArms(t, total, arms', ctx, score, term)
  {
  }

  /** The two dictionaries hold the score and the exploration term of each of `names`. */
  ghost predicate Scored(score: Name -> Score, term: Name -> Option<real>, names: seq<Name>,
                         scores: Dict<Name, Score>, terms: map<Name, Option<real>>)
  {
    scores.keys == Deduplicated(names) && RightEntries(score, term, scores.entries, terms)
  }

  ghost predicate RightEntries(score: Name -> Score, term: Name -> Option<real>,
                               scores: map<Name, Score>, terms: map<Name, Option<real>>)
  {
    forall n :: n in scores ==> scores[n] == score(n) && n in terms && terms[n] == term(n)
  }

  lemma KeysOneMore(names: seq<Name>, name: Name, scores: Dict<Name, Score>, s: Score)
    requires scores.keys == Deduplicated(names)
    ensures scores.Put(name, s).keys == Deduplicated(names + [name])
  {
    assert (names + [name])[..|names|] == names;
  }

  lemma EntriesOneMore(score: Name -> Score, term: Name -> Option<real>, name: Name,
                       scores: map<Name, Score>, terms: map<Name, Option<real>>)
    requires RightEntries(score, term, scores, terms)
    ensures RightEntries(score, term, scores[name := score(name)], terms[name := term(name)])
  {
  }

  // ---- the selector ----------------------------------------------------

  class UCB1Bandit {
    const name: Name
    const tuning: Tuning
    var arms: Arms

    constructor (name: Name, tuning: Tuning)
      ensures this.name == name && this.tuning == tuning && arms == Table([], map[])
    {
      this.name, this.tuning := name, tuning;
      arms := Table([], map[]);
    }

    /** Sums the pulls of every arm filed under `ctx`. */
    method CountPulls(ctx: Context) returns (total: nat)
      ensures total == TotalPulls(arms, ctx)
    {
      total := 0;
      for i := 0 to |arms.keys|
        invariant total == PullsOf(arms, arms.keys[..i], ctx)
      {
        var byContext := arms.entries[arms.keys[i]];
        var before := total;
        for j := 0 to |byContext.keys|
          invariant total == before + if ctx in byContext.keys[..j] then byContext.entries[ctx].pulls else 0
        {
          if byContext.keys[j] == ctx {
            total := total + byContext.entries[byContext.keys[j]].pulls;
          }
        }
        assert byContext.keys[..|byContext.keys|] == byContext.keys;
        assert arms.keys[..i + 1][..i] == arms.keys[..i];
      }
      assert arms.keys[..|arms.keys|] == arms.keys;
    }

    /** The first candidate with the largest score, every candidate's score, and the chosen exploration term. */
    method SelectWithMetadata(candidates: seq<Name>, ctx: Context)
      returns (chosen: Option<Name>, scores: Dict<Name, Score>, exploration: Option<real>)
      modifies this`arms
      ensures arms == EnsureAll(old(arms), candidates, ctx)
      ensures chosen == if candidates == [] then None else Some(Pick(tuning, old(arms), ctx, candidates))
      ensures scores.keys == Deduplicated(candidates)
      ensures forall n :: n in scores.entries ==> scores.entries[n] == ScoreOf(tuning, old(arms), ctx, n)
      ensures exploration == if chosen == None then None
                             else TermOfArm(tuning, TotalPulls(old(arms), ctx), ArmOf(old(arms), chosen.value, ctx))
      ensures Faithful(tuning) ==> forall n :: n in scores.entries ==>
                IsUcb1Score(tuning, TotalPulls(old(arms), ctx), ArmOf(old(arms), n, ctx), scores.entries[n])
      ensures chosen.Some? ==> chosen.value in scores.entries
      ensures chosen.Some? ==> forall n :: n in scores.entries ==>
                  !Below(scores.entries[chosen.value], scores.entries[n])
      ensures Faithful(tuning) && chosen.Some? ==>
                IsUcb1Term(tuning, TotalPulls(old(arms), ctx), ArmOf(old(arms), chosen.value, ctx), exploration)
    {
      if candidates == [] {
        return None, Table([], map[]), None;
      }
      ghost var before, pulls := arms, TotalPulls(arms, ctx);
      ghost var score, term := Scorer(tuning, arms, ctx), Termer(tuning, arms, ctx);
      ScorersScore(tuning, arms, ctx);
      var total := CountPulls(ctx);
      var terms;
      scores, terms := ScoreAll(candidates, ctx, total, score, term);
      BestOfDeduplicated(score, candidates);
      var best := MaxKey(scores, score);
      chosen, exploration := Some(best), terms[best];
      BestIsTheFirstMaximum(score, scores.keys);
      if Faithful(tuning) {
        forall n ensures IsUcb1Score(tuning, pulls, ArmOf(before, n, ctx), ScoreOf(tuning, before, ctx, n)) {
          ScoresFollowTheFormula(tuning, pulls, ArmOf(before, n, ctx));
        }
        ScoresFollowTheFormula(tuning, pulls, ArmOf(before, best, ctx));
      }
    }

    /** The loop over the candidates. */
    method ScoreAll(candidates: seq<Name>, ctx: Context, total: nat,
                    ghost score: Name -> Score, ghost term: Name -> Option<real>)
      returns (scores: Dict<Name, Score>, terms: map<Name, Option<real>>)
      requires ScoresArms(tuning, total, arms, ctx, score, term)
      modifies this`arms
      ensures arms == EnsureAll(old(arms), candidates, ctx)
      ensures Scored(score, term, candidates, scores, terms)
    {
      scores, terms := Table([], map[]), map[];
      ghost var before := arms;
      for i := 0 to |candidates|
        invariant arms == EnsureAll(before, candidates[..i], ctx)
        invariant Scored(score, term, candidates[..i], scores, terms)
      {
        EnsuringChangesNoStatistic(before, candidates[..i], ctx);
        Slices(candidates, i);
        KeysOneMore(candidates[..i], candidates[i], scores, score(candidates[i]));
        EntriesOneMore(score, term, candidates[i], scores.entries, terms);
        EnsuredOneMore(before, candidates[..i], candidates[i], ctx);
        StillScores(tuning, total, before, arms, ctx, score, term);
        var s, e := ScoreCandidate(candidates[i], ctx, total, score, term);
        scores, terms := scores.Put(candidates[i], s), terms[candidates[i] := e];
      }
      Whole(candidates);
    }

    /** The loop body over the candidates: creates the arm if needed, then scores it. */
    method ScoreCandidate(name: Name, ctx: Context, total: nat,
                          ghost score: Name -> Score, ghost term: Name -> Option<real>)
      returns (s: Score, e: Option<real>)
      requires ScoresArms(tuning, total, arms, ctx, score, term)
      modifies this`arms
      ensures arms == EnsureArm(old(arms), name, ctx)
      ensures s == score(name) && e == term(name)
    {
      ghost var was := ArmOf(arms, name, ctx);
      arms := EnsureArm(arms, name, ctx);
      var arm := arms.entries[name].entries[ctx];
      assert arm == was;
      if arm.pulls == 0 {
        return Infinite, None;
      }
      var mean := arm.totalReward / arm.pulls as real;
      var exploration := tuning.c * Root(tuning, total, arm.pulls);
      return Finite(mean + exploration), Some(exploration);
    }

    /** Adds one pull and its reward to the outcome's arm, and counts the success or failure. */
    method Update(o: Outcome)
      modifies this`arms
      ensures arms == Learn(old(arms), o)
    {
      ghost var before := arms;
      arms := EnsureArm(arms, o.providerName, o.contextKey);
      var arm := arms.entries[o.providerName].entries[o.contextKey];
      assert arm == ArmOf(before, o.providerName, o.contextKey);
      SetArmTwice(before, o.providerName, o.contextKey, arm, Learned(arm, o));
      arm := LearnArm(arm, o);
      arms := SetArm(arms, o.providerName, o.contextKey, arm);
    }
  }

  /** The sampling selector, without its sampling: only what it learns. */
  class ThompsonBandit {
    var arms: Arms

    constructor ()
      ensures arms == Table([], map[])
    {
      arms := Table([], map[]);
    }

    method Update(o: Outcome)
      modifies this`arms
      ensures arms == LearnCounts(old(arms), o)
    {
      ghost var before := arms;
      arms := EnsureArm(arms, o.providerName, o.contextKey);
      var arm := arms.entries[o.providerName].entries[o.contextKey];
      assert arm == ArmOf(before, o.providerName, o.contextKey);
      SetArmTwice(before, o.providerName, o.contextKey, arm, Counted(arm, o));
      arm := CountOutcome(arm, o);
      arms := SetArm(arms, o.providerName, o.contextKey, arm);
    }
  }

  /** One more pull and its reward, then the counters. */
  method LearnArm(arm: ArmState, o: Outcome) returns (r: ArmState)
    ensures r == Learned(arm, o)
  {
    var reward := o.reward;
    if reward == 0.0 && o.success {
      reward := 1.0;
    }
    r := arm.(pulls := arm.pulls + 1, totalReward := arm.totalReward + reward);
    r := CountOutcome(r, o);
  }

  /** The success and failure counters both selectors keep. */
  method CountOutcome(arm: ArmState, o: Outcome) returns (r: ArmState)
    ensures r == Counted(arm, o)
  {
    r := arm;
    if o.success {
      r := r.(successes := r.successes + 1);
    } else {
      r := r.(failures := r.failures + 1);
    }
    r := r.(lastUpdated := o.timestamp);
  }

  /** `max` over a dictionary's keys: the first key with the largest entry. */
  method MaxKey(scores: Dict<Name, Score>, ghost score: Name -> Score) returns (best: Name)
    requires scores.keys != []
    requires forall n :: n in scores.entries ==> scores.entries[n] == score(n)
    ensures best == Best(score, scores.keys) && best in scores.entries
  {
    best := scores.keys[0];
    assert scores.keys[..1] == [best];
    for i := 1 to |scores.keys|
      invariant best == Best(score, scores.keys[..i]) && best in scores.keys
    {
      assert scores.keys[..i + 1][..i] == scores.keys[..i];
      if Below(scores.entries[best], scores.entries[scores.keys[i]]) {
        best := scores.keys[i];
      }
    }
    assert scores.keys[..|scores.keys|] == scores.keys;
  }
}
