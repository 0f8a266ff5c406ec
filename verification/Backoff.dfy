/** The exponential back-off over whole runs (atlas/cascade.py, atlas/_health.py). */
module Backoff {
  import opened Prelude
  import opened ProviderHealths

  function Pow2(n: nat): nat {
    if n == 0 then 1 else 2 * Pow2(n - 1)
  }

  /** The cooldown after the failure that follows `n` others in a row. */
  function Cooldown(base: real, max: real, n: nat): real {
    AtMost(Doubled(base, n), max)
  }

  function Doubled(base: real, n: nat): real {
    base * Pow2(n) as real
  }

  function AtMost(x: real, max: real): real {
    if x <= max then x else max
  }

  /** One visit of a cascade to a provider: when its health was checked, when the call ended, and how. */
  datatype Visit = Visit(checked: real, ended: real, ok: bool)

  /** A provider in cooldown is skipped; a failed call doubles the cooldown, a good one clears it. */
  function AfterVisit(h: Health, base: real, max: real, v: Visit): Health {
    if !IsHealthy(h, v.checked) then h
    else if v.ok then AfterSuccess(h)
    else AfterFailure(h, v.ended, Cooldown(base, max, h.consecutiveFailures))
  }

  function AfterVisits(h: Health, base: real, max: real, visits: seq<Visit>): Health {
    if visits == [] then h
    else AfterVisit(AfterVisits(h, base, max, visits[..|visits| - 1]), base, max, visits[|visits| - 1])
  }

  /** When the failures of a run were recorded. */
  function FailureTimes(h: Health, base: real, max: real, visits: seq<Visit>): seq<real> {
    if visits == [] then []
    else
      var earlier, v := FailureTimes(h, base, max, visits[..|visits| - 1]), visits[|visits| - 1];
      if IsHealthy(AfterVisits(h, base, max, visits[..|visits| - 1]), v.checked) && !v.ok
      then earlier + [v.ended] else earlier
  }

  /** Visits one after another: no call ends before its check, no check comes before the previous call's end. */
  ghost predicate Sequential(visits: seq<Visit>) {
    && (forall i :: 0 <= i < |visits| ==> visits[i].checked <= visits[i].ended)
    && (forall i, j :: 0 <= i < j < |visits| ==> visits[i].ended <= visits[j].checked)
  }

  /** No call of the run succeeds: every visit is skipped or fails. */
  ghost predicate Streak(visits: seq<Visit>) {
    forall i :: 0 <= i < |visits| ==> !visits[i].ok
  }

  /** The cooldowns after the `from`-th to the last but one of `k` more failures, together. */
  function CooldownSum(base: real, max: real, from: nat, k: nat): real {
    if k == 0 then 0.0 else CooldownSum(base, max, from, k - 1) + Cooldown(base, max, from + k - 1)
  }

  /** In a streak, the health always shows the failures so far and the cooldown of the last one. */
  lemma {:induction false} StreakState(h: Health, base: real, max: real, visits: seq<Visit>)
    requires Streak(visits)
    ensures var after, f := AfterVisits(h, base, max, visits), FailureTimes(h, base, max, visits);
            && after.consecutiveFailures == h.consecutiveFailures + |f|
            && after.cooldownUntil == (if f == [] then h.cooldownUntil
                                       else f[|f| - 1] + Cooldown(base, max, h.consecutiveFailures + |f| - 1))
            && after.totalCalls == h.totalCalls + |f| && after.totalFailures == h.totalFailures + |f|
  {
    if visits != [] { StreakState(h, base, max, visits[..|visits| - 1]); }
  }

  /** The gaps between the failures of a streak are at least the cooldowns. */
  ghost predicate SpacedBy(f: seq<real>, base: real, max: real, from: nat) {
    forall i :: 0 <= i < |f| - 1 ==> f[i + 1] - f[i] >= Cooldown(base, max, from + i)
  }

  lemma {:induction false} FailuresAreSpaced(h: Health, base: real, max: real, visits: seq<Visit>)
    requires Streak(visits) && Sequential(visits)
    ensures SpacedBy(FailureTimes(h, base, max, visits), base, max, h.consecutiveFailures)
  {
    if visits != [] {
      var earlier := visits[..|visits| - 1];
      FailuresAreSpaced(h, base, max, earlier);
      StreakState(h, base, max, earlier);
    }
  }

  lemma {:induction false} GapsAddUp(f: seq<real>, base: real, max: real, from: nat, k: nat)
    requires SpacedBy(f, base, max, from) && k < |f|
    ensures f[k] - f[0] >= CooldownSum(base, max, from, k)
  {
    if k > 0 {
      GapsAddUp(f, base, max, from, k - 1);
      assert f[k - 1 + 1] - f[k - 1] >= Cooldown(base, max, from + (k - 1));
    }
  }

  /** Failure `k` comes at least the first `k` cooldowns after the first failure: with a nonnegative base, at least
      `(2^k - 1) * base` while the cap is not reached. */
  ghost predicate Waited(f: seq<real>, base: real, max: real, k: nat)
    requires k < |f|
  {
    && f[k] - f[0] >= CooldownSum(base, max, 0, k)
    && (k > 0 && base >= 0.0 && Doubled(base, k - 1) <= max ==> f[k] - f[0] >= base * (Pow2(k) - 1) as real)
  }

  /** In a streak that starts with no failures counted, failure `k` comes at least the sum of the first `k` cooldowns
      after the first failure, whatever the base and the cap. */
  lemma RetriesAreSpaced(h: Health, base: real, max: real, visits: seq<Visit>, k: nat)
    requires h.consecutiveFailures == 0 && Streak(visits) && Sequential(visits)
    requires k < |FailureTimes(h, base, max, visits)|
    ensures Waited(FailureTimes(h, base, max, visits), base, max, k)
  {
    var f := FailureTimes(h, base, max, visits);
    FailuresAreSpaced(h, base, max, visits);
    GapsAddUp(f, base, max, 0, k);
    if k > 0 && base >= 0.0 && Doubled(base, k - 1) <= max { BelowTheCapTheSumIsGeometric(base, max, k); }
  }

  lemma {:induction false} Pow2Grows(n: nat, m: nat)
    requires n <= m
    ensures 1 <= Pow2(n) <= Pow2(m)
    decreases m
  {
    if n < m { Pow2Grows(n, m - 1); } else if n > 0 { Pow2Grows(n - 1, m - 1); }
  }

  lemma ScaledPowersGrow(base: real, n: nat, m: nat)
    requires base >= 0.0 && n <= m
    ensures Doubled(base, n) <= Doubled(base, m)
  {
    Pow2Grows(n, m);
  }

  lemma {:induction false} BelowTheCapTheSumIsGeometric(base: real, max: real, k: nat)
    requires base >= 0.0 && k > 0 && Doubled(base, k - 1) <= max
    ensures CooldownSum(base, max, 0, k) == base * (Pow2(k) - 1) as real
  {
    if k > 1 {
      ScaledPowersGrow(base, k - 2, k - 1);
      BelowTheCapTheSumIsGeometric(base, max, k - 1);
    }
  }

  /** With a nonnegative base the cooldowns of a streak never shrink; they never exceed the cap. */
  lemma CooldownsNeverShrink(base: real, max: real, n: nat, m: nat)
    requires base >= 0.0 && n <= m
    ensures Cooldown(base, max, n) <= Cooldown(base, max, m) <= max
  {
    ScaledPowersGrow(base, n, m);
  }
}
