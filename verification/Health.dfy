/** Per-provider health and its cooldown (atlas/_health.py). */
module ProviderHealths {

  datatype Health = Health(consecutiveFailures: nat, totalCalls: nat, totalFailures: nat, cooldownUntil: real)

  const UNUSED := Health(0, 0, 0, 0.0)

  predicate IsHealthy(h: Health, now: real) {
    now >= h.cooldownUntil
  }

  function AfterSuccess(h: Health): Health {
    Health(0, h.totalCalls + 1, h.totalFailures, 0.0)
  }

  function AfterFailure(h: Health, now: real, cooldown: real): Health {
    Health(h.consecutiveFailures + 1, h.totalCalls + 1, h.totalFailures + 1, now + cooldown)
  }

  /** Forgets the streak and the cooldown, not the totals. */
  function AfterReset(h: Health): Health {
    h.(consecutiveFailures := 0, cooldownUntil := 0.0)
  }

  /** A streak is part of the failures, and the failures part of the calls. */
  predicate Consistent(h: Health) {
    h.consecutiveFailures <= h.totalFailures <= h.totalCalls
  }

  class ProviderHealth {
    var consecutiveFailures: nat
    var totalCalls: nat
    var totalFailures: nat
    var cooldownUntil: real

    function Now(): Health
      reads this
    {
      Health(consecutiveFailures, totalCalls, totalFailures, cooldownUntil)
    }

    constructor ()
      ensures Now() == UNUSED
    {
      consecutiveFailures, totalCalls, totalFailures, cooldownUntil := 0, 0, 0, 0.0;
    }

    method CheckHealthy(now: real) returns (healthy: bool)
      ensures healthy <==> IsHealthy(Now(), now)
      ensures healthy <==> now >= cooldownUntil
    {
      return now >= cooldownUntil;
    }

    method RecordSuccess()
      modifies this
      ensures Now() == AfterSuccess(old(Now()))
      ensures consecutiveFailures == 0 && cooldownUntil == 0.0
      ensures totalCalls == old(totalCalls) + 1 && totalFailures == old(totalFailures)
      ensures old(Consistent(Now())) ==> Consistent(Now())
    {
      consecutiveFailures := 0;
      totalCalls := totalCalls + 1;
      cooldownUntil := 0.0;
    }

    method RecordFailure(now: real, cooldown: real)
      modifies this
      ensures Now() == AfterFailure(old(Now()), now, cooldown)
      ensures consecutiveFailures == old(consecutiveFailures) + 1 && cooldownUntil == now + cooldown
      ensures totalCalls == old(totalCalls) + 1 && totalFailures == old(totalFailures) + 1
      ensures old(Consistent(Now())) ==> Consistent(Now())
      ensures forall t :: IsHealthy(Now(), t) <==> t - now >= cooldown
    {
      consecutiveFailures := consecutiveFailures + 1;
      totalCalls := totalCalls + 1;
      totalFailures := totalFailures + 1;
      cooldownUntil := now + cooldown;
    }

    method Reset()
      modifies this
      ensures Now() == AfterReset(old(Now()))
      ensures consecutiveFailures == 0 && cooldownUntil == 0.0
      ensures totalCalls == old(totalCalls) && totalFailures == old(totalFailures)
      ensures old(Consistent(Now())) ==> Consistent(Now())
    {
      consecutiveFailures := 0;
      cooldownUntil := 0.0;
    }
  }
}
