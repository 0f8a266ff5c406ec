/** What a selector's arms remember of the outcomes it was given (atlas/bandit.py). */
module BanditHistory {
  import opened Prelude
  import opened Bandits
  import opened NoStarvation

  datatype Which = ANY | GOOD | BAD

  /** The places of the outcomes of a kind that are reported for one provider in one context. */
  ghost function Places(outcomes: seq<Outcome>, p: Name, ctx: Context, which: Which): set<int> {
    set i | 0 <= i < |outcomes| && Counts(outcomes[i], p, ctx, which)
  }

  predicate Counts(o: Outcome, p: Name, ctx: Context, which: Which) {
    Concerns(o, p, ctx) && (which.GOOD? ==> o.success) && (which.BAD? ==> !o.success)
  }

  predicate Concerns(o: Outcome, p: Name, ctx: Context) {
    o.providerName == p && o.contextKey == ctx
  }

  /** The sum of their rewards, where a success reported without one is worth one. */
  function Earned(outcomes: seq<Outcome>, p: Name, ctx: Context): real {
    if outcomes == [] then 0.0
    else
      var o := outcomes[|outcomes| - 1];
      Earned(outcomes[..|outcomes| - 1], p, ctx)
      + if !Concerns(o, p, ctx) then 0.0 else if o.success && o.reward == 0.0 then 1.0 else o.reward
  }

  /** No outcome after place `i` concerns the arm. */
  ghost predicate LastAbout(outcomes: seq<Outcome>, p: Name, ctx: Context, i: int) {
    0 <= i < |outcomes| && Concerns(outcomes[i], p, ctx)
    && forall j :: i < j < |outcomes| ==> !Concerns(outcomes[j], p, ctx)
  }

  lemma PlacesOneMore(outcomes: seq<Outcome>, o: Outcome, p: Name, ctx: Context, which: Which)
    ensures |Places(outcomes + [o], p, ctx, which)|
         == |Places(outcomes, p, ctx, which)| + if Counts(o, p, ctx, which) then 1 else 0
  {
    var before, after := Places(outcomes, p, ctx, which), Places(outcomes + [o], p, ctx, which);
    assert |outcomes| !in before;
    assert after == before + if Counts(o, p, ctx, which) then {|outcomes|} else {};
  }

  lemma LastAboutOneMore(outcomes: seq<Outcome>, o: Outcome, p: Name, ctx: Context)
    ensures forall i :: LastAbout(outcomes + [o], p, ctx, i)
              <==> if Concerns(o, p, ctx) then i == |outcomes| else LastAbout(outcomes, p, ctx, i)
  {
    var more := outcomes + [o];
    forall i ensures LastAbout(more, p, ctx, i)
              <==> if Concerns(o, p, ctx) then i == |outcomes| else LastAbout(outcomes, p, ctx, i) {
      assert more[|outcomes|] == o;
      assert forall j :: 0 <= j < |outcomes| ==> more[j] == outcomes[j];
    }
  }

  /** The arm has counted the successes and failures reported for it. */
  ghost predicate CountsKinds(outcomes: seq<Outcome>, p: Name, ctx: Context, arm: ArmState) {
    arm.successes == |Places(outcomes, p, ctx, GOOD)| && arm.failures == |Places(outcomes, p, ctx, BAD)|
  }

  /** It has the time of the last of them. */
  ghost predicate HasLastTime(outcomes: seq<Outcome>, p: Name, ctx: Context, arm: ArmState) {
    forall i :: LastAbout(outcomes, p, ctx, i) ==> arm.lastUpdated == outcomes[i].timestamp
  }

  lemma TimeOneMore(outcomes: seq<Outcome>, o: Outcome, p: Name, ctx: Context, before: ArmState, after: ArmState)
    requires HasLastTime(outcomes, p, ctx, before)
    requires after.lastUpdated == if Concerns(o, p, ctx) then o.timestamp else before.lastUpdated
    ensures HasLastTime(outcomes + [o], p, ctx, after)
  {
    LastAboutOneMore(outcomes, o, p, ctx);
  }

  lemma {:induction false} ArmHasLastTime(arm: ArmState, outcomes: seq<Outcome>, p: Name, ctx: Context, sampling: bool)
    ensures HasLastTime(outcomes, p, ctx, ArmAfter(arm, outcomes, p, ctx, sampling))
  {
    if outcomes != [] {
      var earlier, o := outcomes[..|outcomes| - 1], outcomes[|outcomes| - 1];
      ArmHasLastTime(arm, earlier, p, ctx, sampling);
      TimeOneMore(earlier, o, p, ctx, ArmAfter(arm, earlier, p, ctx, sampling),
          ArmAfter(arm, outcomes, p, ctx, sampling));
      assert outcomes == earlier + [o];
    }
  }

  lemma KindsOneMore(outcomes: seq<Outcome>, o: Outcome, p: Name, ctx: Context, arm: ArmState)
    requires CountsKinds(outcomes, p, ctx, arm)
    ensures CountsKinds(outcomes + [o], p, ctx, if Concerns(o, p, ctx) then Counted(arm, o) else arm)
    ensures CountsKinds(outcomes + [o], p, ctx, if Concerns(o, p, ctx) then Learned(arm, o) else arm)
  {
    PlacesOneMore(outcomes, o, p, ctx, GOOD);
    PlacesOneMore(outcomes, o, p, ctx, BAD);
  }

  /** The arm has a pull for each outcome reported for it, and earned the sum of their rewards. */
  ghost predicate CountsPulls(outcomes: seq<Outcome>, p: Name, ctx: Context, arm: ArmState) {
    arm.pulls == |Places(outcomes, p, ctx, ANY)| && arm.totalReward == Earned(outcomes, p, ctx)
  }

  lemma PullsOneMore(outcomes: seq<Outcome>, o: Outcome, p: Name, ctx: Context, arm: ArmState)
    requires CountsPulls(outcomes, p, ctx, arm)
    ensures CountsPulls(outcomes + [o], p, ctx, if Concerns(o, p, ctx) then Learned(arm, o) else arm)
  {
    PlacesOneMore(outcomes, o, p, ctx, ANY);
    assert (outcomes + [o])[..|outcomes|] == outcomes;
  }

  lemma ArmAfterOne(arms: Arms, o: Outcome, p: Name, ctx: Context)
    ensures ArmOf(Learn(arms, o), p, ctx)
         == if Concerns(o, p, ctx) then Learned(ArmOf(arms, p, ctx), o) else ArmOf(arms, p, ctx)
    ensures ArmOf(LearnCounts(arms, o), p, ctx)
         == if Concerns(o, p, ctx) then Counted(ArmOf(arms, p, ctx), o) else ArmOf(arms, p, ctx)
  {
    var arm := ArmOf(arms, o.providerName, o.contextKey);
    SetArmIsExact(arms, o.providerName, o.contextKey, Learned(arm, o));
    SetArmIsExact(arms, o.providerName, o.contextKey, Counted(arm, o));
  }

  /** One arm alone through a run of outcomes. */
  function ArmAfter(arm: ArmState, outcomes: seq<Outcome>, p: Name, ctx: Context, sampling: bool): ArmState {
    if outcomes == [] then arm
    else
      var before, o := ArmAfter(arm, outcomes[..|outcomes| - 1], p, ctx, sampling), outcomes[|outcomes| - 1];
      if !Concerns(o, p, ctx) then before else if sampling then Counted(before, o) else Learned(before, o)
  }

  lemma {:induction false} ArmsLearnAlone(arms: Arms, outcomes: seq<Outcome>, p: Name, ctx: Context)
    ensures ArmOf(LearnAll(arms, outcomes), p, ctx) == ArmAfter(ArmOf(arms, p, ctx), outcomes, p, ctx, false)
  {
    if outcomes != [] {
      ArmsLearnAlone(arms, outcomes[..|outcomes| - 1], p, ctx);
      ArmAfterOne(LearnAll(arms, outcomes[..|outcomes| - 1]), outcomes[|outcomes| - 1], p, ctx);
    }
  }

  lemma {:induction false} ArmCountsKinds(arm: ArmState, outcomes: seq<Outcome>, p: Name, ctx: Context, sampling: bool)
    requires arm == Blank(p, ctx)
    ensures CountsKinds(outcomes, p, ctx, ArmAfter(arm, outcomes, p, ctx, sampling))
  {
    if outcomes != [] {
      var earlier, o := outcomes[..|outcomes| - 1], outcomes[|outcomes| - 1];
      ArmCountsKinds(arm, earlier, p, ctx, sampling);
      KindsOneMore(earlier, o, p, ctx, ArmAfter(arm, earlier, p, ctx, sampling));
      assert outcomes == earlier + [o];
    }
  }

  lemma {:induction false} ArmCountsPulls(arm: ArmState, outcomes: seq<Outcome>, p: Name, ctx: Context)
    requires arm == Blank(p, ctx)
    ensures CountsPulls(outcomes, p, ctx, ArmAfter(arm, outcomes, p, ctx, false))
    ensures ArmAfter(arm, outcomes, p, ctx, true).pulls == 0 && ArmAfter(arm, outcomes, p, ctx, true).totalReward == 0.0
  {
    if outcomes != [] {
      var earlier, o := outcomes[..|outcomes| - 1], outcomes[|outcomes| - 1];
      ArmCountsPulls(arm, earlier, p, ctx);
      PullsOneMore(earlier, o, p, ctx, ArmAfter(arm, earlier, p, ctx, false));
      assert outcomes == earlier + [o];
    }
  }

  /** Over any run of outcomes that begins before an arm has any: its pulls are the outcomes reported for it, its
      successes and failures those of either kind, its reward the sum of theirs, and its time the last one's. */
  lemma ArmsCountTheRun(arms: Arms, outcomes: seq<Outcome>, p: Name, ctx: Context)
    requires ArmOf(arms, p, ctx) == Blank(p, ctx)
    ensures CountsPulls(outcomes, p, ctx, ArmOf(LearnAll(arms, outcomes), p, ctx))
    ensures CountsKinds(outcomes, p, ctx, ArmOf(LearnAll(arms, outcomes), p, ctx))
    ensures HasLastTime(outcomes, p, ctx, ArmOf(LearnAll(arms, outcomes), p, ctx))
  {
    ArmsLearnAlone(arms, outcomes, p, ctx);
    ArmCountsKinds(Blank(p, ctx), outcomes, p, ctx, false);
    ArmHasLastTime(Blank(p, ctx), outcomes, p, ctx, false);
    ArmCountsPulls(Blank(p, ctx), outcomes, p, ctx);
  }

  function LearnAllCounts(arms: Arms, outcomes: seq<Outcome>): Arms {
    if outcomes == [] then arms
    else LearnCounts(LearnAllCounts(arms, outcomes[..|outcomes| - 1]), outcomes[|outcomes| - 1])
  }

  lemma {:induction false} SamplingArmsLearnAlone(arms: Arms, outcomes: seq<Outcome>, p: Name, ctx: Context)
    ensures ArmOf(LearnAllCounts(arms, outcomes), p, ctx) == ArmAfter(ArmOf(arms, p, ctx), outcomes, p, ctx, true)
  {
    if outcomes != [] {
      SamplingArmsLearnAlone(arms, outcomes[..|outcomes| - 1], p, ctx);
      ArmAfterOne(LearnAllCounts(arms, outcomes[..|outcomes| - 1]), outcomes[|outcomes| - 1], p, ctx);
    }
  }

  /** The sampling selector's arms count successes and failures, and nothing else. */
  lemma SamplingArmsCountTheRun(arms: Arms, outcomes: seq<Outcome>, p: Name, ctx: Context)
    requires ArmOf(arms, p, ctx) == Blank(p, ctx)
    ensures CountsKinds(outcomes, p, ctx, ArmOf(LearnAllCounts(arms, outcomes), p, ctx))
    ensures HasLastTime(outcomes, p, ctx, ArmOf(LearnAllCounts(arms, outcomes), p, ctx))
    ensures ArmOf(LearnAllCounts(arms, outcomes), p, ctx).pulls == 0
    ensures ArmOf(LearnAllCounts(arms, outcomes), p, ctx).totalReward == 0.0
  {
    SamplingArmsLearnAlone(arms, outcomes, p, ctx);
    ArmCountsKinds(Blank(p, ctx), outcomes, p, ctx, true);
    ArmHasLastTime(Blank(p, ctx), outcomes, p, ctx, true);
    ArmCountsPulls(Blank(p, ctx), outcomes, p, ctx);
  }
}
