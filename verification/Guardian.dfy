/** Policies, their combinators and the guarded call (guardian/_combinators.py, guardian/_core.py). */
module Guarding {
  import opened Prelude

  type LeafId(==, !new)        // the identity of a policy object that is not a combinator
  type State(==, !new)         // that object's mutable fields
  type AgentState(==, !new)    // whatever the wrapped agent remembers between calls
  type Args(==, !new)
  type Value(==, !new)         // a result other than None
  type Violation(==, !new)     // a PolicyViolation
  type Failure(==, !new)       // any other exception

  datatype Exn = Violated(v: Violation) | Failed(f: Failure)

  datatype Outcome<T> = Done(value: T) | Raised(e: Exn)

  /** A result as Python sees it: None means None. */
  type Result = Option<Value>

  datatype Policy = Leaf(id: LeafId) | AllOf(subs: seq<Policy>) | AnyOf(subs: seq<Policy>)

  /** One call of a leaf's hook, with what it was given and how it answered. */
  datatype Call =
    | PreCall(id: LeafId, args: Args, answer: Outcome<()>)
    | PostCall(id: LeafId, args: Args, result: Result, reply: Outcome<Result>)

  /** The code the model does not look into: hooks a leaf may lack, the agent, and the escalation handler. */
  datatype Code = Code(
    initial: LeafId -> State,
    pre: LeafId -> Option<(State, Args) -> (State, Outcome<()>)>,
    post: LeafId -> Option<(State, Args, Result) -> (State, Outcome<Result>)>,
    agent: (AgentState, Args) -> (AgentState, Outcome<Result>),
    handler: Violation -> Option<Exn>)

  /** The leaves' states and every hook call so far, in order. */
  datatype World = World(states: map<LeafId, State>, calls: seq<Call>)

  function StateOf(c: Code, w: World, id: LeafId): State {
    if id in w.states then w.states[id] else c.initial(id)
  }

  function LeafPre(c: Code, id: LeafId, w: World, args: Args): (World, Outcome<()>)
    requires c.pre(id).Some?
  {
    var (state, r) := c.pre(id).value(StateOf(c, w, id), args);
    (World(w.states[id := state], w.calls + [PreCall(id, args, r)]), r)
  }

  function LeafPost(c: Code, id: LeafId, w: World, args: Args, result: Result): (World, Outcome<Result>)
    requires c.post(id).Some?
  {
    var (state, r) := c.post(id).value(StateOf(c, w, id), args, result);
    (World(w.states[id := state], w.calls + [PostCall(id, args, result, r)]), r)
  }

  predicate HasPre(c: Code, p: Policy) {
    p.Leaf? ==> c.pre(p.id).Some?
  }

  predicate HasPost(c: Code, p: Policy) {
    p.Leaf? ==> c.post(p.id).Some?
  }

  // ---- the pre-hooks ---------------------------------------------------

  function CheckPre(c: Code, p: Policy, w: World, args: Args): (World, Outcome<()>)
    requires HasPre(c, p)
    decreases p
  {
    match p
    case Leaf(id) => LeafPre(c, id, w, args)
    case AllOf(subs) => AllPre(c, subs, w, args)
    case AnyOf(subs) => AnyPre(c, subs, w, args, None)
  }

  /** In order, up to the first exception; a policy without the hook is skipped. */
  function AllPre(c: Code, subs: seq<Policy>, w: World, args: Args): (World, Outcome<()>)
    decreases subs
  {
    if subs == [] then (w, Done(()))
    else if !HasPre(c, subs[0]) then AllPre(c, subs[1..], w, args)
    else
      var (w', r) := CheckPre(c, subs[0], w, args);
      if r.Raised? then (w', r) else AllPre(c, subs[1..], w', args)
  }

  /** Up to the first policy that passes or lacks the hook; the last violation if there is none. */
  function AnyPre(c: Code, subs: seq<Policy>, w: World, args: Args, last: Option<Violation>): (World, Outcome<()>)
    decreases subs
  {
    if subs == [] then (w, if last.Some? then Raised(Violated(last.value)) else Done(()))
    else if !HasPre(c, subs[0]) then (w, Done(()))
    else
      var (w', r) := CheckPre(c, subs[0], w, args);
      if r.Raised? && r.e.Violated? then AnyPre(c, subs[1..], w', args, Some(r.e.v)) else (w', r)
  }

  // ---- the post-hooks --------------------------------------------------

  /** A result threaded through several post-hooks, and whether any of them replaced it. */
  datatype Threaded = Threaded(current: Result, replaced: bool)

  function CheckPost(c: Code, p: Policy, w: World, args: Args, result: Result): (World, Outcome<Result>)
    requires HasPost(c, p)
    decreases p
  {
    match p
    case Leaf(id) => LeafPost(c, id, w, args, result)
    case AllOf(subs) =>
      var (w', r) := Thread(c, subs, w, args, Threaded(result, false));
      (w', if r.Raised? then Raised(r.e) else Done(if r.value.replaced then r.value.current else None))
    case AnyOf(subs) => AnyPost(c, subs, w, args, result, None)
  }

  function Replace(t: Threaded, replacement: Result): Threaded {
    if replacement.Some? then Threaded(replacement, true) else t
  }

  function Thread(c: Code, subs: seq<Policy>, w: World, args: Args, t: Threaded): (World, Outcome<Threaded>)
    decreases subs
  {
    if subs == [] then (w, Done(t))
    else if !HasPost(c, subs[0]) then Thread(c, subs[1..], w, args, t)
    else
      var (w', r) := CheckPost(c, subs[0], w, args, t.current);
      if r.Raised? then (w', Raised(r.e)) else Thread(c, subs[1..], w', args, Replace(t, r.value))
  }

  function AnyPost(c: Code, subs: seq<Policy>, w: World, args: Args, result: Result, last: Option<Violation>)
    : (World, Outcome<Result>)
    decreases subs
  {
    if subs == [] then (w, if last.Some? then Raised(Violated(last.value)) else Done(None))
    else if !HasPost(c, subs[0]) then (w, Done(None))
    else
      var (w', r) := CheckPost(c, subs[0], w, args, result);
      if r.Raised? && r.e.Violated? then AnyPost(c, subs[1..], w', args, result, Some(r.e.v)) else (w', r)
  }

  // ---- the guarded call ------------------------------------------------

  /** What a call reads and writes. `buffer` is the dry-run record; None means enforcing. */
  datatype Session = Session(
    world: World, agent: AgentState, invoked: nat, buffer: Option<seq<Violation>>, escalated: seq<Violation>)

  /** Under dry run a violation is recorded; otherwise it is escalated and raised, unless the handler raises instead. */
  function Handle(c: Code, s: Session, v: Violation): (Session, Outcome<()>) {
    if s.buffer.Some? then (s.(buffer := Some(s.buffer.value + [v])), Done(()))
    else
      (s.(escalated := s.escalated + [v]), Raised(match c.handler(v) case Some(e) => e case None => Violated(v)))
  }

  function RunPre(c: Code, policies: seq<Policy>, s: Session, args: Args): (Session, Outcome<()>) {
    if policies == [] then (s, Done(()))
    else if !HasPre(c, policies[0]) then RunPre(c, policies[1..], s, args)
    else
      var (w, r) := CheckPre(c, policies[0], s.world, args);
      var (s', h) := AfterHook(c, s.(world := w), r);
      if h.Raised? then (s', h) else RunPre(c, policies[1..], s', args)
  }

  /** A violation goes to the handler; any other exception passes through. */
  function AfterHook<T>(c: Code, s: Session, r: Outcome<T>): (Session, Outcome<()>) {
    match r
    case Done(_) => (s, Done(()))
    case Raised(Violated(v)) => Handle(c, s, v)
    case Raised(Failed(f)) => (s, Raised(Failed(f)))
  }

  function RunPost(c: Code, policies: seq<Policy>, s: Session, args: Args, result: Result): (Session, Outcome<Result>) {
    if policies == [] then (s, Done(result))
    else if !HasPost(c, policies[0]) then RunPost(c, policies[1..], s, args, result)
    else
      var (w, r) := CheckPost(c, policies[0], s.world, args, result);
      var (s', h) := AfterHook(c, s.(world := w), r);
      if h.Raised? then (s', Raised(h.e))
      else RunPost(c, policies[1..], s', args, if r.Done? && r.value.Some? then r.value else result)
  }

  /** The wrapper: pre-hooks, the agent, post-hooks. */
  function Invoke(c: Code, policies: seq<Policy>, s: Session, args: Args): (Session, Outcome<Result>) {
    var (s1, before) := RunPre(c, policies, s, args);
    if before.Raised? then (s1, Raised(before.e))
    else
      var (agent, r) := c.agent(s1.agent, args);
      var s2 := s1.(agent := agent, invoked := s1.invoked + 1);
      if r.Raised? then (s2, r) else RunPost(c, policies, s2, args, r.value)
  }

  lemma {:induction false} PreKeepsMode(c: Code, policies: seq<Policy>, s: Session, args: Args)
    ensures RunPre(c, policies, s, args).0.buffer.Some? <==> s.buffer.Some?
  {
    if policies != [] {
      if HasPre(c, policies[0]) {
        var (w, r) := CheckPre(c, policies[0], s.world, args);
        PreKeepsMode(c, policies[1..], AfterHook(c, s.(world := w), r).0, args);
      } else {
        PreKeepsMode(c, policies[1..], s, args);
      }
    }
  }

  lemma {:induction false} PostKeepsMode(c: Code, policies: seq<Policy>, s: Session, args: Args, result: Result)
    ensures RunPost(c, policies, s, args, result).0.buffer.Some? <==> s.buffer.Some?
  {
    if policies != [] {
      if HasPost(c, policies[0]) {
        var (w, r) := CheckPost(c, policies[0], s.world, args, result);
        PostKeepsMode(c, policies[1..], AfterHook(c, s.(world := w), r).0, args,
                      if r.Done? && r.value.Some? then r.value else result);
      } else {
        PostKeepsMode(c, policies[1..], s, args, result);
      }
    }
  }

  /** A call neither enters nor leaves the dry-run mode. */
  lemma ModeIsKept(c: Code, policies: seq<Policy>, s: Session, args: Args)
    ensures Invoke(c, policies, s, args).0.buffer.Some? <==> s.buffer.Some?
  {
    PreKeepsMode(c, policies, s, args);
    var (s1, before) := RunPre(c, policies, s, args);
    if before.Done? {
      var (agent, r) := c.agent(s1.agent, args);
      if r.Done? { PostKeepsMode(c, policies, s1.(agent := agent, invoked := s1.invoked + 1), args, r.value); }
    }
  }

  // ---- the running guard -----------------------------------------------

  /** The objects behind one guarded agent, updated in place; the hooks themselves stay outside the model. */
  class Guard {
    const code: Code
    var world: World
    var agent: AgentState
    var invoked: nat
    var buffer: Option<seq<Violation>>    // the dry-run context variable
    var escalated: seq<Violation>

    function Now(): Session
      reads this
    {
      Session(world, agent, invoked, buffer, escalated)
    }

    constructor (code: Code, agent: AgentState)
      ensures this.code == code && Now() == Session(World(map[], []), agent, 0, None, [])
    {
      this.code, this.agent := code, agent;
      world, invoked, buffer, escalated := World(map[], []), 0, None, [];
    }

    method PreHook(p: Policy, args: Args) returns (r: Outcome<()>)
      requires HasPre(code, p)
      modifies this`world
      ensures (world, r) == CheckPre(code, p, old(world), args)
      decreases p
    {
      match p
      case Leaf(id) =>
        var (w, o) := LeafPre(code, id, world, args);
        world, r := w, o;
      case AllOf(subs) => r := AllOfPre(subs, args);
      case AnyOf(subs) => r := AnyOfPre(subs, args);
    }

    method AllOfPre(subs: seq<Policy>, args: Args) returns (r: Outcome<()>)
      modifies this`world
      ensures (world, r) == AllPre(code, subs, old(world), args)
      decreases subs
    {
      for i := 0 to |subs|
        invariant AllPre(code, subs, old(world), args) == AllPre(code, subs[i..], world, args)
      {
        if HasPre(code, subs[i]) {
          r := PreHook(subs[i], args);
          if r.Raised? {
            return r;
          }
        }
      }
      r := Done(());
    }

    method AnyOfPre(subs: seq<Policy>, args: Args) returns (r: Outcome<()>)
      modifies this`world
      ensures (world, r) == AnyPre(code, subs, old(world), args, None)
      decreases subs
    {
      var last: Option<Violation> := None;
      for i := 0 to |subs|
        invariant AnyPre(code, subs, old(world), args, None) == AnyPre(code, subs[i..], world, args, last)
      {
        if !HasPre(code, subs[i]) {
          return Done(());
        }
        r := PreHook(subs[i], args);
        if r.Done? || r.e.Failed? {
          return r;
        }
        last := Some(r.e.v);
      }
      r := if last.Some? then Raised(Violated(last.value)) else Done(());
    }

    method PostHook(p: Policy, args: Args, result: Result) returns (r: Outcome<Result>)
      requires HasPost(code, p)
      modifies this`world
      ensures (world, r) == CheckPost(code, p, old(world), args, result)
      decreases p
    {
      match p
      case Leaf(id) =>
        var (w, o) := LeafPost(code, id, world, args, result);
        world, r := w, o;
      case AllOf(subs) => r := AllOfPost(subs, args, result);
      case AnyOf(subs) => r := AnyOfPost(subs, args, result);
    }

    method AllOfPost(subs: seq<Policy>, args: Args, result: Result) returns (r: Outcome<Result>)
      modifies this`world
      ensures (world, r) == CheckPost(code, AllOf(subs), old(world), args, result)
      decreases subs
    {
      var current, replaced := result, false;
      for i := 0 to |subs|
        invariant Thread(code, subs, old(world), args, Threaded(result, false))
               == Thread(code, subs[i..], world, args, Threaded(current, replaced))
      {
        if HasPost(code, subs[i]) {
          r := PostHook(subs[i], args, current);
          if r.Raised? {
            return r;
          }
          if r.value.Some? {
            current, replaced := r.value, true;
          }
        }
      }
      r := Done(if replaced then current else None);
    }

    method AnyOfPost(subs: seq<Policy>, args: Args, result: Result) returns (r: Outcome<Result>)
      modifies this`world
      ensures (world, r) == AnyPost(code, subs, old(world), args, result, None)
      decreases subs
    {
      var last: Option<Violation> := None;
      for i := 0 to |subs|
        invariant AnyPost(code, subs, old(world), args, result, None)
                    == AnyPost(code, subs[i..], world, args, result, last)
      {
        if !HasPost(code, subs[i]) {
          return Done(None);
        }
        r := PostHook(subs[i], args, result);
        if r.Done? || r.e.Failed? {
          return r;
        }
        last := Some(r.e.v);
      }
      r := if last.Some? then Raised(Violated(last.value)) else Done(None);
    }

    method HandleViolation(v: Violation) returns (r: Outcome<()>)
      modifies this`buffer, this`escalated
      ensures (Now(), r) == Handle(code, old(Now()), v)
    {
      if buffer.Some? {
        buffer := Some(buffer.value + [v]);
        return Done(());
      }
      escalated := escalated + [v];
      var thrown := code.handler(v);
      return Raised(if thrown.Some? then thrown.value else Violated(v));
    }

    method RunPreHooks(policies: seq<Policy>, args: Args) returns (r: Outcome<()>)
      modifies this
      ensures (Now(), r) == RunPre(code, policies, old(Now()), args)
    {
      for i := 0 to |policies|
        invariant RunPre(code, policies, old(Now()), args) == RunPre(code, policies[i..], Now(), args)
      {
        if HasPre(code, policies[i]) {
          r := PreHook(policies[i], args);
          if r.Raised? {
            if r.e.Failed? {
              return r;
            }
            r := HandleViolation(r.e.v);
            if r.Raised? {
              return r;
            }
          }
        }
      }
      r := Done(());
    }

    method RunPostHooks(policies: seq<Policy>, args: Args, initial: Result) returns (r: Outcome<Result>)
      modifies this
      ensures (Now(), r) == RunPost(code, policies, old(Now()), args, initial)
    {
      var result := initial;
      for i := 0 to |policies|
        invariant RunPost(code, policies, old(Now()), args, initial)
                    == RunPost(code, policies[i..], Now(), args, result)
      {
        if HasPost(code, policies[i]) {
          r := PostHook(policies[i], args, result);
          if r.Raised? {
            if r.e.Failed? {
              return r;
            }
            var handled := HandleViolation(r.e.v);
            if handled.Raised? {
              return Raised(handled.e);
            }
          } else if r.value.Some? {
            result := r.value;
          }
        }
      }
      r := Done(result);
    }

    /** The wrapper around the agent. */
    method Call(policies: seq<Policy>, args: Args) returns (r: Outcome<Result>)
      modifies this
      ensures (Now(), r) == Invoke(code, policies, old(Now()), args)
    {
      var before := RunPreHooks(policies, args);
      if before.Raised? {
        return Raised(before.e);
      }
      var (state, result) := code.agent(agent, args);
      agent, invoked := state, invoked + 1;
      if result.Raised? {
        return result;
      }
      r := RunPostHooks(policies, args, result.value);
    }

    /** One call inside its own `dry_run` block: a fresh buffer, and the enclosing one restored afterwards. */
    method DryRunCall(policies: seq<Policy>, args: Args) returns (recorded: seq<Violation>, r: Outcome<Result>)
      modifies this
      ensures var (s, o) := Invoke(code, policies, old(Now()).(buffer := Some([])), args);
              Now() == s.(buffer := old(buffer)) && r == o && s.buffer == Some(recorded)
    {
      var token := buffer;
      buffer := Some([]);
      ModeIsKept(code, policies, Now(), args);
      r := Call(policies, args);
      recorded := buffer.value;
      buffer := token;
    }
  }
}
