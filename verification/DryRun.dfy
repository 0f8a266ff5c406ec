/** What a dry run says about enforcement (guardian/_core.py). */
module DryRun {
  import opened Prelude
  import opened Guarding
  import opened Flattening

  /** The enforcing twin of a dry-run session. */
  function Enforcing(s: Session): Session {
    s.(buffer := None)
  }

  /** The exception an escalated violation ends in. */
  function RaisedFor(c: Code, v: Violation): Exn {
    match c.handler(v) case Some(e) => e case None => Violated(v)
  }

  /** Dry run `d` and enforcement `e`, started from the same `s`, agree: nothing new recorded, or `e` stopped at the
      first record. */
  ghost predicate Agree<T>(c: Code, s: Session, d: (Session, Outcome<T>), e: (Session, Outcome<T>))
    requires s.buffer.Some? && d.0.buffer.Some?
  {
    && s.buffer.value <= d.0.buffer.value
    && d.0.escalated == s.escalated
    && if d.0.buffer.value == s.buffer.value
       then e == (Enforcing(d.0), d.1)
       else
         var v := d.0.buffer.value[|s.buffer.value|];
         && e.1 == Raised(RaisedFor(c, v))
         && e.0.escalated == s.escalated + [v]
         && e.0.buffer.None?
  }

  lemma {:induction false} PreAgrees(c: Code, policies: seq<Policy>, s: Session, args: Args)
    requires s.buffer.Some?
    ensures RunPre(c, policies, s, args).0.buffer.Some?
    ensures Agree(c, s, RunPre(c, policies, s, args), RunPre(c, policies, Enforcing(s), args))
  {
    if policies != [] {
      if HasPre(c, policies[0]) {
        var (w, r) := CheckPre(c, policies[0], s.world, args);
        var (s', h) := AfterHook(c, s.(world := w), r);
        if h.Done? {
          PreAgrees(c, policies[1..], s', args);
          assert r.Done? ==> s' == s.(world := w);
        }
      } else {
        PreAgrees(c, policies[1..], s, args);
      }
    }
  }

  lemma {:induction false} PostAgrees(c: Code, policies: seq<Policy>, s: Session, args: Args, result: Result)
    requires s.buffer.Some?
    ensures RunPost(c, policies, s, args, result).0.buffer.Some?
    ensures Agree(c, s, RunPost(c, policies, s, args, result), RunPost(c, policies, Enforcing(s), args, result))
  {
    if policies != [] {
      if HasPost(c, policies[0]) {
        var (w, r) := CheckPost(c, policies[0], s.world, args, result);
        var (s', h) := AfterHook(c, s.(world := w), r);
        if h.Done? {
          PostAgrees(c, policies[1..], s', args, if r.Done? && r.value.Some? then r.value else result);
        }
      } else {
        PostAgrees(c, policies[1..], s, args, result);
      }
    }
  }

  /** From the same states, the enforcing call escalates exactly the first violation the dry run records, and raises for
      it; when the dry run records none, the two calls end alike in every respect. The dry run never escalates. */
  lemma DryRunPredictsEnforcement(c: Code, policies: seq<Policy>, s: Session, args: Args)
    requires s.buffer == Some([])
    ensures var (d, dr) := Invoke(c, policies, s, args);
            var (e, er) := Invoke(c, policies, Enforcing(s), args);
            && d.buffer.Some? && d.escalated == s.escalated
            && e.escalated == s.escalated + d.buffer.value[..if d.buffer.value == [] then 0 else 1]
            && (d.buffer.value != [] ==> er == Raised(RaisedFor(c, d.buffer.value[0])))
            && (d.buffer.value == [] ==> e == Enforcing(d) && er == dr)
  {
    PreAgrees(c, policies, s, args);
    var (d1, before) := RunPre(c, policies, s, args);
    if before.Done? {
      var (agent, r) := c.agent(d1.agent, args);
      var d2 := d1.(agent := agent, invoked := d1.invoked + 1);
      if r.Done? {
        PostAgrees(c, policies, d2, args, r.value);
      }
    }
  }

  // ---- whether the agent runs ------------------------------------------

  /** Some pre-hook the dry run reaches raises something other than a violation. */
  predicate SomePreHookFails(c: Code, policies: seq<Policy>, w: World, args: Args) {
    if policies == [] then false
    else if !HasPre(c, policies[0]) then SomePreHookFails(c, policies[1..], w, args)
    else
      var (w', r) := CheckPre(c, policies[0], w, args);
      (r.Raised? && r.e.Failed?) || SomePreHookFails(c, policies[1..], w', args)
  }

  lemma {:induction false} DryPreStopsOnlyOnFailure(c: Code, policies: seq<Policy>, s: Session, args: Args)
    requires s.buffer.Some?
    ensures RunPre(c, policies, s, args).1.Raised? <==> SomePreHookFails(c, policies, s.world, args)
    ensures RunPre(c, policies, s, args).0.invoked == s.invoked
  {
    if policies != [] {
      if HasPre(c, policies[0]) {
        var (w, r) := CheckPre(c, policies[0], s.world, args);
        var (s', h) := AfterHook(c, s.(world := w), r);
        if h.Done? { DryPreStopsOnlyOnFailure(c, policies[1..], s', args); }
      } else {
        DryPreStopsOnlyOnFailure(c, policies[1..], s, args);
      }
    }
  }

  lemma {:induction false} PostInvokesNothing(c: Code, policies: seq<Policy>, s: Session, args: Args, result: Result)
    ensures RunPost(c, policies, s, args, result).0.invoked == s.invoked
  {
    if policies != [] {
      if HasPost(c, policies[0]) {
        var (w, r) := CheckPost(c, policies[0], s.world, args, result);
        var (s', h) := AfterHook(c, s.(world := w), r);
        if h.Done? {
          PostInvokesNothing(c, policies[1..], s', args, if r.Done? && r.value.Some? then r.value else result);
        }
      } else {
        PostInvokesNothing(c, policies[1..], s, args, result);
      }
    }
  }

  /** A dry run invokes the agent exactly once, unless a pre-hook fails otherwise than by a violation; then never. */
  lemma DryRunInvokesTheAgent(c: Code, policies: seq<Policy>, s: Session, args: Args)
    requires s.buffer.Some?
    ensures Invoke(c, policies, s, args).0.invoked
         == s.invoked + if SomePreHookFails(c, policies, s.world, args) then 0 else 1
  {
    DryPreStopsOnlyOnFailure(c, policies, s, args);
    var (s1, before) := RunPre(c, policies, s, args);
    if before.Done? {
      var (agent, r) := c.agent(s1.agent, args);
      if r.Done? { PostInvokesNothing(c, policies, s1.(agent := agent, invoked := s1.invoked + 1), args, r.value); }
    }
  }

  /** For example, one pre-hook that fails keeps the dry run from invoking the agent. */
  lemma FailingHookStopsTheDryRun(c: Code, id: LeafId, f: Failure, s: Session, args: Args)
    requires s.buffer.Some? && c.pre(id).Some?
    requires forall state :: c.pre(id).value(state, args).1 == Raised(Failed(f))
    ensures Invoke(c, [Leaf(id)], s, args).0.invoked == s.invoked
    ensures Invoke(c, [Leaf(id)], s, args).1 == Raised(Failed(f))
  {
    assert c.pre(id).value(StateOf(c, s.world, id), args).1 == Raised(Failed(f));
  }

  // ---- nesting under dry run -------------------------------------------

  /** The first recorded violation, if any. */
  function FirstRecorded(s: Session): Option<Violation> {
    if s.buffer.Some? && s.buffer.value != [] then Some(s.buffer.value[0]) else None
  }

  /** Nesting can change what a dry run records, but not its first violation, nor a clean run. */
  lemma NestingKeepsTheFirstViolation(c: Code, policies: seq<Policy>, s: Session, args: Args)
    requires s.buffer == Some([])
    ensures var (nested, nr) := Invoke(c, policies, s, args);
            var (flat, fr) := Invoke(c, Flatten(policies), s, args);
            && FirstRecorded(nested) == FirstRecorded(flat)
            && (FirstRecorded(nested) == None ==> nested == flat && nr == fr)
  {
    DryRunPredictsEnforcement(c, policies, s, args);
    DryRunPredictsEnforcement(c, Flatten(policies), s, args);
    FlatteningPreservesMeaning(c, policies, Enforcing(s), args);
    var (nested, nr) := Invoke(c, policies, s, args);
    var (flat, fr) := Invoke(c, Flatten(policies), s, args);
    var (e, er) := Invoke(c, policies, Enforcing(s), args);
    assert e.escalated[|s.escalated|..] == nested.buffer.value[..if nested.buffer.value == [] then 0 else 1];
    assert e.escalated[|s.escalated|..] == flat.buffer.value[..if flat.buffer.value == [] then 0 else 1];
    if nested.buffer.value == [] {
      assert flat.buffer.value[..if flat.buffer.value == [] then 0 else 1] == [];
      assert Enforcing(nested) == Enforcing(flat) && nested.buffer == flat.buffer;
    } else {
      assert nested.buffer.value[..1][0] == flat.buffer.value[..1][0];
    }
  }

  /** Under dry run an AllOf stops at its first violation while its flat list goes on: the records differ. */
  lemma NestingHidesLaterViolations(c: Code, first: LeafId, second: LeafId, v1: Violation, v2: Violation, s: Session,
                                    args: Args)
    requires s.buffer == Some([])
    requires c.pre(first).Some? && forall state :: c.pre(first).value(state, args).1 == Raised(Violated(v1))
    requires c.pre(second).Some? && forall state :: c.pre(second).value(state, args).1 == Raised(Violated(v2))
    ensures var nested := [AllOf([Leaf(first), Leaf(second)])];
            && Flatten(nested) == [Leaf(first), Leaf(second)]
            && RunPre(c, nested, s, args).0.buffer == Some([v1])
            && RunPre(c, Flatten(nested), s, args).0.buffer == Some([v1, v2])
  {
    var leaves := [Leaf(first), Leaf(second)];
    assert leaves[1..] == [Leaf(second)] && [Leaf(second)][1..] == [] && [AllOf(leaves)][1..] == [];
    assert s.buffer.value + [v1] == [v1] && [v1] + [v2] == [v1, v2];
    assert Flatten([Leaf(second)]) == [Leaf(second)];
    assert Flatten(leaves) == leaves;
    assert Flatten([AllOf(leaves)]) == leaves;
    var (w1, r1) := LeafPre(c, first, s.world, args);
    assert AllPre(c, leaves, s.world, args) == (w1, r1);
    var s1 := s.(world := w1, buffer := Some([v1]));
    assert RunPre(c, [AllOf(leaves)], s, args) == RunPre(c, [], s1, args);
    assert RunPre(c, leaves, s, args) == RunPre(c, [Leaf(second)], s1, args);
    var (w2, r2) := LeafPre(c, second, w1, args);
    assert RunPre(c, [Leaf(second)], s1, args) == RunPre(c, [], s1.(world := w2, buffer := Some([v1, v2])), args);
  }
}
