/** Nesting AllOf means nothing more than listing its policies (guardian/_combinators.py, guardian/_core.py). */
module Flattening {
  import opened Prelude
  import opened Guarding

  /** The policies with every AllOf, at any depth, dissolved into the list it stands in. */
  function Flatten(policies: seq<Policy>): seq<Policy>
    decreases policies
  {
    if policies == [] then [] else Spread(policies[0]) + Flatten(policies[1..])
  }

  function Spread(p: Policy): seq<Policy>
    decreases p
  {
    match p
    case Leaf(_) => [p]
    case AllOf(subs) => Flatten(subs)
    case AnyOf(subs) => [AnyOf(Tidy(subs))]
  }

  /** An alternative of an AnyOf has to stay one policy; an AllOf there is flattened inside. */
  function Tidy(subs: seq<Policy>): seq<Policy>
    decreases subs
  {
    if subs == [] then [] else [TidyOne(subs[0])] + Tidy(subs[1..])
  }

  function TidyOne(p: Policy): Policy
    decreases p
  {
    match p
    case Leaf(_) => p
    case AllOf(subs) => AllOf(Flatten(subs))
    case AnyOf(subs) => AnyOf(Tidy(subs))
  }

  /** No AllOf in the list, nor directly inside an AllOf or the list at any depth. */
  ghost predicate Flat(policies: seq<Policy>)
    decreases policies
  {
    forall i :: 0 <= i < |policies| ==>
        !policies[i].AllOf? && (policies[i].AnyOf? ==> FlatAlternatives(policies[i].subs))
  }

  ghost predicate FlatAlternatives(subs: seq<Policy>)
    decreases subs
  {
    forall i :: 0 <= i < |subs| ==>
      && (subs[i].AllOf? ==> Flat(subs[i].subs))
      && (subs[i].AnyOf? ==> FlatAlternatives(subs[i].subs))
  }

  lemma {:induction false} FlattenIsFlat(policies: seq<Policy>)
    ensures Flat(Flatten(policies))
    decreases policies, 1
  {
    if policies != [] {
      FlattenIsFlat(policies[1..]);
      match policies[0]
      case Leaf(_) =>
      case AllOf(subs) => FlattenIsFlat(subs);
      case AnyOf(subs) => TidyIsFlat(subs);
    }
  }

  lemma {:induction false} TidyIsFlat(subs: seq<Policy>)
    ensures FlatAlternatives(Tidy(subs))
    decreases subs, 1
  {
    if subs != [] {
      TidyIsFlat(subs[1..]);
      match subs[0]
      case Leaf(_) =>
      case AllOf(inner) => FlattenIsFlat(inner);
      case AnyOf(inner) => TidyIsFlat(inner);
    }
  }

  // ---- pre-hooks -------------------------------------------------------

  lemma {:induction false} AllPreOfBoth(c: Code, a: seq<Policy>, b: seq<Policy>, w: World, args: Args)
    ensures var (w', r) := AllPre(c, a, w, args);
            AllPre(c, a + b, w, args) == if r.Raised? then (w', r) else AllPre(c, b, w', args)
  {
    if a == [] {
      assert a + b == b;
    } else {
      assert (a + b)[1..] == a[1..] + b;
      if HasPre(c, a[0]) {
        AllPreOfBoth(c, a[1..], b, CheckPre(c, a[0], w, args).0, args);
      } else {
        AllPreOfBoth(c, a[1..], b, w, args);
      }
    }
  }

  lemma AllPreOfOne(c: Code, p: Policy, w: World, args: Args)
    ensures AllPre(c, [p], w, args) == if HasPre(c, p) then CheckPre(c, p, w, args) else (w, Done(()))
  {
    if HasPre(c, p) {
      var (w', r) := CheckPre(c, p, w, args);
      assert [p][1..] == [];
      assert r.Done? ==> r.value == ();
    }
  }

  lemma {:induction false} FlattenKeepsAllPre(c: Code, policies: seq<Policy>, w: World, args: Args)
    ensures AllPre(c, Flatten(policies), w, args) == AllPre(c, policies, w, args)
    decreases policies, 1
  {
    if policies != [] {
      var p, rest := policies[0], policies[1..];
      AllPreOfBoth(c, Spread(p), Flatten(rest), w, args);
      AllPreOfOne(c, p, w, args);
      match p {
        case Leaf(_) =>
        case AllOf(subs) => FlattenKeepsAllPre(c, subs, w, args);
        case AnyOf(subs) =>
          TidyKeepsAnyPre(c, subs, w, args, None);
          AllPreOfOne(c, AnyOf(Tidy(subs)), w, args);
      }
      FlattenKeepsAllPre(c, rest, AllPre(c, Spread(p), w, args).0, args);
    }
  }

  lemma {:induction false} TidyKeepsAnyPre(c: Code, subs: seq<Policy>, w: World, args: Args, last: Option<Violation>)
    ensures AnyPre(c, Tidy(subs), w, args, last) == AnyPre(c, subs, w, args, last)
    decreases subs, 1
  {
    if subs != [] {
      var p := subs[0];
      assert Tidy(subs)[0] == TidyOne(p) && Tidy(subs)[1..] == Tidy(subs[1..]);
      match p {
        case Leaf(_) =>
        case AllOf(inner) => FlattenKeepsAllPre(c, inner, w, args);
        case AnyOf(inner) => TidyKeepsAnyPre(c, inner, w, args, None);
      }
      if HasPre(c, p) {
        var (w', r) := CheckPre(c, p, w, args);
        if r.Raised? && r.e.Violated? { TidyKeepsAnyPre(c, subs[1..], w', args, Some(r.e.v)); }
      }
    }
  }

  // ---- post-hooks ------------------------------------------------------

  /** Whether something was replaced before does not affect what the hooks do. */
  lemma {:induction false} ThreadAfterReplacement(c: Code, subs: seq<Policy>, w: World, args: Args, t: Threaded)
    ensures var (w', r) := Thread(c, subs, w, args, t.(replaced := false));
            Thread(c, subs, w, args, t) ==
            (w', if r.Raised? then r else Done(r.value.(replaced := t.replaced || r.value.replaced)))
    ensures var r := Thread(c, subs, w, args, t).1;
            r.Done? ==> (t.replaced ==> r.value.replaced) && (!r.value.replaced ==> r.value.current == t.current)
    ensures var r := Thread(c, subs, w, args, t).1;
            r.Done? && (t.replaced ==> t.current.Some?) ==> (r.value.replaced ==> r.value.current.Some?)
  {
    if subs != [] {
      if HasPost(c, subs[0]) {
        var (w', r) := CheckPost(c, subs[0], w, args, t.current);
        if r.Done? {
          ThreadAfterReplacement(c, subs[1..], w', args, Replace(t, r.value));
          ThreadAfterReplacement(c, subs[1..], w', args, Replace(t.(replaced := false), r.value));
        }
      } else {
        ThreadAfterReplacement(c, subs[1..], w, args, t);
      }
    }
  }

  lemma {:induction false} ThreadBoth(c: Code, a: seq<Policy>, b: seq<Policy>, w: World, args: Args, t: Threaded)
    ensures var (w', r) := Thread(c, a, w, args, t);
            Thread(c, a + b, w, args, t) == if r.Raised? then (w', r) else Thread(c, b, w', args, r.value)
  {
    if a == [] {
      assert a + b == b;
    } else {
      assert (a + b)[1..] == a[1..] + b;
      if HasPost(c, a[0]) {
        var (w', r) := CheckPost(c, a[0], w, args, t.current);
        if r.Done? { ThreadBoth(c, a[1..], b, w', args, Replace(t, r.value)); }
      } else {
        ThreadBoth(c, a[1..], b, w, args, t);
      }
    }
  }

  lemma ThreadOne(c: Code, p: Policy, w: World, args: Args, t: Threaded)
    ensures Thread(c, [p], w, args, t)
         == if !HasPost(c, p) then (w, Done(t))
            else var (w', r) := CheckPost(c, p, w, args, t.current);
              (w', if r.Raised? then Raised(r.e) else Done(Replace(t, r.value)))
  {
    assert [p][1..] == [];
  }

  /** An AllOf in the middle of a thread is its policies in the middle of the thread. */
  lemma ThreadAllOf(c: Code, subs: seq<Policy>, w: World, args: Args, t: Threaded)
    ensures Thread(c, [AllOf(subs)], w, args, t) == Thread(c, subs, w, args, t)
  {
    ThreadOne(c, AllOf(subs), w, args, t);
    ThreadAfterReplacement(c, subs, w, args, t);
    ThreadAfterReplacement(c, subs, w, args, t.(replaced := false));
  }

  lemma {:induction false} FlattenKeepsThread(c: Code, policies: seq<Policy>, w: World, args: Args, t: Threaded)
    ensures Thread(c, Flatten(policies), w, args, t) == Thread(c, policies, w, args, t)
    decreases policies, 1
  {
    if policies != [] {
      var p, rest := policies[0], policies[1..];
      assert policies == [p] + rest;
      ThreadBoth(c, [p], rest, w, args, t);
      ThreadBoth(c, Spread(p), Flatten(rest), w, args, t);
      match p {
        case Leaf(_) =>
        case AllOf(subs) =>
          ThreadAllOf(c, subs, w, args, t);
          FlattenKeepsThread(c, subs, w, args, t);
        case AnyOf(subs) =>
          TidyKeepsAnyPost(c, subs, w, args, t.current, None);
          ThreadOne(c, p, w, args, t);
          ThreadOne(c, AnyOf(Tidy(subs)), w, args, t);
      }
      var (w', r) := Thread(c, [p], w, args, t);
      if r.Done? { FlattenKeepsThread(c, rest, w', args, r.value); }
    }
  }

  lemma {:induction false} TidyKeepsAnyPost(c: Code, subs: seq<Policy>, w: World, args: Args, result: Result,
                                            last: Option<Violation>)
    ensures AnyPost(c, Tidy(subs), w, args, result, last) == AnyPost(c, subs, w, args, result, last)
    decreases subs, 1
  {
    if subs != [] {
      var p := subs[0];
      assert Tidy(subs)[0] == TidyOne(p) && Tidy(subs)[1..] == Tidy(subs[1..]);
      match p {
        case Leaf(_) =>
        case AllOf(inner) => FlattenKeepsThread(c, inner, w, args, Threaded(result, false));
        case AnyOf(inner) => TidyKeepsAnyPost(c, inner, w, args, result, None);
      }
      if HasPost(c, p) {
        var (w', r) := CheckPost(c, p, w, args, result);
        if r.Raised? && r.e.Violated? { TidyKeepsAnyPost(c, subs[1..], w', args, result, Some(r.e.v)); }
      }
    }
  }

  // ---- the enforcing guard ---------------------------------------------

  /** Enforcing, the guard's pre-phase is one AllOf followed by one escalation at most. */
  lemma {:induction false} EnforcedPreIsAllOf(c: Code, policies: seq<Policy>, s: Session, args: Args)
    requires s.buffer.None?
    ensures var (w, r) := AllPre(c, policies, s.world, args);
            RunPre(c, policies, s, args) == AfterHook(c, s.(world := w), r)
  {
    if policies != [] {
      if HasPre(c, policies[0]) {
        EnforcedPreIsAllOf(c, policies[1..], s.(world := CheckPre(c, policies[0], s.world, args).0), args);
      } else {
        EnforcedPreIsAllOf(c, policies[1..], s, args);
      }
    }
  }

  lemma {:induction false} EnforcedPostIsAllOf(c: Code, policies: seq<Policy>, s: Session, args: Args, t: Threaded)
    requires s.buffer.None?
    ensures var (w, r) := Thread(c, policies, s.world, args, t);
            var (s', h) := AfterHook(c, s.(world := w), r);
            RunPost(c, policies, s, args, t.current) == (s', if h.Raised? then Raised(h.e) else Done(r.value.current))
  {
    if policies != [] {
      if HasPost(c, policies[0]) {
        var (w, r) := CheckPost(c, policies[0], s.world, args, t.current);
        if r.Done? { EnforcedPostIsAllOf(c, policies[1..], s.(world := w), args, Replace(t, r.value)); }
      } else {
        EnforcedPostIsAllOf(c, policies[1..], s, args, t);
      }
    }
  }

  /** Enforcing, any nesting of AllOf behaves as its flat list: the same hook calls in the same order with the same
      arguments, the same leaf states, the same result or exception, and the same escalations. */
  lemma FlatteningPreservesMeaning(c: Code, policies: seq<Policy>, s: Session, args: Args)
    requires s.buffer.None?
    ensures Invoke(c, Flatten(policies), s, args) == Invoke(c, policies, s, args)
  {
    FlattenKeepsAllPre(c, policies, s.world, args);
    EnforcedPreIsAllOf(c, policies, s, args);
    EnforcedPreIsAllOf(c, Flatten(policies), s, args);
    var (s1, before) := RunPre(c, policies, s, args);
    if before.Done? {
      var (agent, r) := c.agent(s1.agent, args);
      var s2 := s1.(agent := agent, invoked := s1.invoked + 1);
      if r.Done? {
        var t := Threaded(r.value, false);
        FlattenKeepsThread(c, policies, s2.world, args, t);
        EnforcedPostIsAllOf(c, policies, s2, args, t);
        EnforcedPostIsAllOf(c, Flatten(policies), s2, args, t);
      }
    }
  }

  /** The call escalated `v`, nothing else, and raised it, unless the handler raised in its place. */
  ghost predicate EscalatedAndRaised(c: Code, s: Session, s': Session, r: Outcome<Result>, v: Violation) {
    s'.escalated == s.escalated + [v] && r == Raised(match c.handler(v) case Some(e) => e case None => Violated(v))
  }

  /** One enforcing call escalates at most once, and then it raises. */
  lemma AtMostOneEscalation(c: Code, policies: seq<Policy>, s: Session, args: Args)
    requires s.buffer.None?
    ensures var (s', r) := Invoke(c, policies, s, args);
            s'.buffer.None? && (s'.escalated == s.escalated || exists v :: EscalatedAndRaised(c, s, s', r, v))
  {
    EnforcedPreIsAllOf(c, policies, s, args);
    var (s', final) := Invoke(c, policies, s, args);
    var (s1, before) := RunPre(c, policies, s, args);
    if before.Raised? {
      var r := AllPre(c, policies, s.world, args).1;
      assert r.e.Violated? ==> EscalatedAndRaised(c, s, s', final, r.e.v);
    } else {
      var (agent, result) := c.agent(s1.agent, args);
      if result.Done? {
        var s2 := s1.(agent := agent, invoked := s1.invoked + 1);
        EnforcedPostIsAllOf(c, policies, s2, args, Threaded(result.value, false));
        var r := Thread(c, policies, s2.world, args, Threaded(result.value, false)).1;
        assert r.Raised? && r.e.Violated? ==> EscalatedAndRaised(c, s, s', final, r.e.v);
      }
    }
  }
}
