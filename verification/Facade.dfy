/** The facade's state and its operations, updated in place (atlas/router.py, atlas/_registry.py). */
module Facade {
  import opened Prelude
  import opened ProviderHealths
  import opened Bandits
  import opened Routing

  class Atlas {
    var infos: Dict<Name, Info>
    var records: map<Name, ProviderHealth>
    var selector: Selector
    var bus: seq<Event>

    /** A provider and its health record are filed together, and no two providers share a record. */
    ghost predicate Valid()
      reads this`infos, this`records
    {
      && records.Keys == infos.entries.Keys
      && forall x, y :: x in records && y in records && x != y ==> records[x] != records[y]
    }

    ghost function Healths(): map<Name, Health>
      reads this`records, records.Values
    {
      map x | x in records :: records[x].Now()
    }

    ghost function Now(): Net
      reads this, records.Values
    {
      Net(infos, Healths(), selector, bus)
    }

    constructor ()
      ensures Valid() && Now() == Net(Table([], map[]), map[], Unset, [])
    {
      infos, records, selector, bus := Table([], map[]), map[], Unset, [];
    }

    /** Refuses a name that is taken; `ok` is false for the ValueError. A new provider starts with unused health. */
    method RegisterProvider(name: Name, info: Info) returns (ok: bool)
      requires Valid()
      modifies this
      ensures Valid()
      ensures ok <==> name !in old(infos).entries
      ensures Now() == if ok then Registering(old(Now()), name, info) else old(Now())
    {
      if name in infos.entries {
        return false;
      }
      var record := new ProviderHealth();
      infos := infos.Put(name, info);
      File(name, record);
      return true;
    }

    /** Forgets the provider and its health; a name not registered changes nothing. */
    method UnregisterProvider(name: Name)
      requires Valid()
      modifies this
      ensures Valid()
      ensures Now() == Unregistering(old(Now()), name)
    {
      infos := infos.Remove(name);
      Discard(name);
    }

    method File(name: Name, record: ProviderHealth)
      modifies this`records
      ensures records == old(records)[name := record]
      ensures Healths() == old(Healths())[name := record.Now()]
    {
      records := records[name := record];
    }

    method Discard(name: Name)
      modifies this`records
      ensures records == old(records) - {name}
      ensures Healths() == old(Healths()) - {name}
    {
      records := records - {name};
    }

    /** Installs a selector, or none. */
    method SetSelector(s: Selector)
      modifies this`selector
      ensures Now() == old(Now()).(selector := s)
    {
      selector := s;
    }

    /** Clears cooldowns and streaks. As the code has it, an unknown name resets every provider. */
    method ResetHealth(name: Option<Name>)
      requires Valid()
      modifies records.Values
      ensures Valid() && Now() == Reset(old(Now()), name)
    {
      if name.Some? && name.value in records {
        ResetRecords([name.value]);
      } else {
        ResetRecords(infos.keys);
      }
    }

    method ResetRecords(names: seq<Name>)
      requires Valid() && Distinct(names) && forall n :: n in names ==> n in records
      modifies records.Values
      ensures Healths() == Forgotten(old(Healths()), names)
    {
      ghost var before := Healths();
      for i := 0 to |names|
        invariant Healths() == Forgotten(before, names[..i])
      {
        assert names[i] !in names[..i];
        Slices(names, i);
        ForgottenOneMore(before, names[..i], names[i]);
        ResetRecord(names[i]);
      }
      Whole(names);
    }

    method ResetRecord(name: Name)
      requires Valid() && name in records
      modifies records[name]
      ensures Healths() == old(Healths())[name := AfterReset(old(Healths())[name])]
    {
      records[name].Reset();
    }

    /** Books a call on one provider's record; the other records stay. */
    method BookSuccess(name: Name)
      requires Valid() && name in records
      modifies records[name]
      ensures Healths() == old(Healths())[name := AfterSuccess(old(Healths())[name])]
    {
      records[name].RecordSuccess();
    }

    method BookFailure(name: Name, now: real, cooldown: real)
      requires Valid() && name in records
      modifies records[name]
      ensures Healths() == old(Healths())[name := AfterFailure(old(Healths())[name], now, cooldown)]
    {
      records[name].RecordFailure(now, cooldown);
    }

    /** `_safe_update` on the installed selector. */
    method UpdateSelector(o: Outcome)
      modifies this`selector
      ensures selector == Learns(old(selector), o)
    {
      match selector
      case Unset =>
      case Ucb1(t, arms) => selector := Ucb1(t, Learn(arms, o));
      case Thompson(arms) => selector := Thompson(LearnCounts(arms, o));
      case Custom =>
    }

    // ---- the four filters ----------------------------------------------

    /** Step 1: the registered candidates, and the others as skipped. */
    method ResolveCandidates(ghost n: Net, names: seq<Name>) returns (pool: seq<Name>, skipped: seq<(Name, SkipReason)>)
      requires n == Now()
      ensures pool == Kept(names, ByRegistration(n)) && skipped == Dropped(names, ByRegistration(n))
    {
      pool, skipped := [], [];
      for i := 0 to |names|
        invariant pool == Kept(names[..i], ByRegistration(n)) && skipped == Dropped(names[..i], ByRegistration(n))
      {
        Slices(names, i);
        if names[i] in infos.entries {
          pool := pool + [names[i]];
        } else {
          skipped := skipped + [(names[i], NotRegistered)];
        }
      }
      Whole(names);
    }

    /** Step 2a. */
    method FilterCapability(ghost n: Net, q: Query, names: seq<Name>)
        returns (pool: seq<Name>, skipped: seq<(Name, SkipReason)>)
      requires forall x :: x in names ==> x in infos.entries
      requires n == Now()
      ensures pool == Kept(names, ByCapability(n, q)) && skipped == Dropped(names, ByCapability(n, q))
    {
      pool, skipped := [], [];
      for i := 0 to |names|
        invariant pool == Kept(names[..i], ByCapability(n, q)) && skipped == Dropped(names[..i], ByCapability(n, q))
      {
        Slices(names, i);
        if q.capability.None? || q.capability.value in infos.entries[names[i]].capabilities {
          pool := pool + [names[i]];
        } else {
          skipped := skipped + [(names[i], NoCapability(q.capability.value))];
        }
      }
      Whole(names);
    }

    /** Step 2b. */
    method FilterTags(ghost n: Net, q: Query, names: seq<Name>)
        returns (pool: seq<Name>, skipped: seq<(Name, SkipReason)>)
      requires forall x :: x in names ==> x in infos.entries
      requires n == Now()
      ensures pool == Kept(names, ByTags(n, q)) && skipped == Dropped(names, ByTags(n, q))
    {
      pool, skipped := [], [];
      for i := 0 to |names|
        invariant pool == Kept(names[..i], ByTags(n, q)) && skipped == Dropped(names[..i], ByTags(n, q))
      {
        Slices(names, i);
        var missing := Missing(q.tags, infos.entries[names[i]].tags);
        if missing == [] {
          pool := pool + [names[i]];
        } else {
          skipped := skipped + [(names[i], MissingTags(missing))];
        }
      }
      Whole(names);
    }

    /** Step 3. */
    method FilterHealthy(ghost n: Net, names: seq<Name>, clock: nat -> real)
        returns (pool: seq<Name>, skipped: seq<(Name, SkipReason)>)
      requires n == Now()
      ensures pool == Survivors(n, names, clock) && skipped == Unhealthy(n, names, clock)
    {
      pool, skipped := [], [];
      for i := 0 to |names|
        invariant pool == Survivors(n, names[..i], clock) && skipped == Unhealthy(n, names[..i], clock)
      {
        Slices(names, i);
        var healthy := true;
        if names[i] in records {
          healthy := records[names[i]].CheckHealthy(clock(i));
        }
        if healthy {
          pool := pool + [names[i]];
        } else {
          skipped := skipped + [(names[i], InCooldown)];
        }
      }
      Whole(names);
    }

    /** The whole decision; the installed selector, when it is asked, creates the survivors' arms. None is an
        exception. */
    method MakeDecision(q: Query) returns (d: Option<Decision>)
      modifies this`selector
      ensures selector == AfterChoice(old(selector), q, Healthy(old(Now()), q)) && d == Decide(old(Now()), q)
    {
      ghost var n := Now();
      var considered := if q.candidates.Some? then q.candidates.value else infos.keys;
      var pool, healthy, skipped := Filter(n, q, considered);
      if q.override.UnknownName? {
        return None;
      }
      if pool == [] {
        return Some(Decision(None, considered, skipped, NO_CANDIDATES));
      }
      if healthy == [] {
        return Some(Decision(None, considered, skipped, ALL_UNHEALTHY));
      }
      var answer := Select(q, healthy);
      match answer
      case Chooses(name) => return Some(Decision(Some(name), considered, skipped, SUCCESS));
      case Declines => return Some(Decision(None, considered, skipped, NO_CANDIDATES));
      case Raises => return None;
    }

    /** Steps 1 to 3 in a row. */
    method Filter(ghost n: Net, q: Query, considered: seq<Name>)
      returns (pool: seq<Name>, healthy: seq<Name>, skipped: seq<(Name, SkipReason)>)
      requires n == Now() && considered == Considered(n, q)
      ensures pool == Pool(n, q) && healthy == Survivors(n, pool, q.clock) && skipped == Skipped(n, q)
    {
      var registered, s1 := ResolveCandidates(n, considered);
      var capable, s2 := FilterCapability(n, q, registered);
      var s3;
      pool, s3 := FilterTags(n, q, capable);
      var s4;
      healthy, s4 := FilterHealthy(n, pool, q.clock);
      skipped := s1 + s2 + s3 + s4;
    }

    /** Step 4: asks the selector in force. What one given with the call becomes is its owner's. */
    method Select(q: Query, healthy: seq<Name>) returns (answer: Answer)
      requires healthy != []
      modifies this`selector
      ensures answer == Choice(old(Now()), q, healthy) && selector == AfterChoice(old(selector), q, healthy)
    {
      if q.override.Given? {
        var given;
        answer, given := Ask(q.override.selector, q, healthy);
      } else {
        var asked;
        answer, asked := Ask(selector, q, healthy);
        selector := if q.override == Installed then asked else selector;
      }
    }

    /** Asks one selector, which creates the arms it misses. */
    method Ask(s: Selector, q: Query, healthy: seq<Name>) returns (answer: Answer, asked: Selector)
      requires healthy != []
      ensures answer == AnswerOf(s, q, healthy) && asked == Asked(s, q.ctx, healthy)
    {
      asked := s;
      match s
      case Unset => answer := Chooses(healthy[0]);
      case Ucb1(t, arms) =>
        answer := Chooses(Pick(t, arms, q.ctx, healthy));
        asked := Ucb1(t, EnsureAll(arms, healthy, q.ctx));
      case Thompson(arms) =>
        answer := Chooses(healthy[q.draw % |healthy|]);
        asked := Thompson(EnsureAll(arms, healthy, q.ctx));
      case Custom => answer := q.answer;
    }

    /** Decides and publishes the decision. */
    method Route(q: Query) returns (d: Option<Decision>)
      modifies this`selector, this`bus
      ensures Now() == Routed(old(Now()), q) && d == Decide(old(Now()), q)
    {
      RaisingChangesNothing(Now(), q);
      d := MakeDecision(q);
      if d.Some? {
        bus := bus + [RoutingDecided(d.value)];
      }
    }

    /** Routes and calls; an exception of the provider is booked, not raised. */
    method Invoke(q: Query, reply: Reply, now: real, stamp: real) returns (r: Report)
      requires Valid()
      modifies this, records.Values
      ensures Valid()
      ensures (Now(), r) == Invoked(old(Now()), q, reply, now, stamp)
    {
      var d := Route(q);
      if d.None? {
        return Raised;
      }
      var chosen := d.value.chosen;
      if chosen.None? {
        return Answered(None, None);
      }
      if chosen.value !in infos.entries || chosen.value !in records {
        return Answered(chosen, None);
      }
      Record(chosen.value, q, reply, now, stamp);
      return Answered(chosen, if reply.Returned? then Some(reply.output) else None);
    }

    /** Books the provider's reply. */
    method Record(name: Name, q: Query, reply: Reply, now: real, stamp: real)
      requires Valid() && name in records
      modifies this`selector, records[name]
      ensures Now() == Booked(old(Now()), q, name, reply, now, stamp)
    {
      match reply
      case Threw(_) =>
        BookFailure(name, now, DEFAULT_FAILURE_COOLDOWN);
        if q.override == Installed {
          UpdateSelector(OutcomeOf(name, false, q.ctx, stamp));
        }
      case Returned(_) =>
        BookSuccess(name);
        if q.override == Installed {
          UpdateSelector(OutcomeOf(name, true, q.ctx, stamp));
        }
    }
  }
}
