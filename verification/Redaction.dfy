/** In-place scrubbing of results (guardian/_builtins/pii_redact.py). */
module Redaction {
  import opened Prelude

  type Key(==, !new)     // a dictionary key
  type Text(==, !new)    // a string
  type Atom(==, !new)    // a number, a boolean, None or any other object the scrubber does not open

  /** A dictionary or a list, updated in place. A dictionary's keys never change here, only its values. */
  class Container {
    const isDict: bool
    const keys: seq<Key>
    var slots: seq<Value>

    constructor Dictionary(keys: seq<Key>, values: seq<Value>)
      requires |keys| == |values|
      ensures isDict && this.keys == keys && slots == values
    {
      isDict, this.keys, slots := true, keys, values;
    }

    constructor List(items: seq<Value>)
      ensures !isDict && slots == items
    {
      isDict, keys, slots := false, [], items;
    }
  }

  /** A tuple is a value, but its items are never visited. */
  datatype Value = Str(text: Text) | Other(atom: Atom) | Tuple(items: seq<Value>) | Ref(container: Container)

  datatype Rules = Rules(fields: seq<Key>, marker: Text, patterns: seq<Text -> Text>)

  /** Every pattern's substitution, in order. */
  function Scrub(patterns: seq<Text -> Text>, text: Text): Text {
    if patterns == [] then text else patterns[|patterns| - 1](Scrub(patterns[..|patterns| - 1], text))
  }

  /** The text passes through every pattern's substitution, each once and in order. */
  ghost predicate Passes(patterns: seq<Text -> Text>, text: Text, trace: seq<Text>, result: Text) {
    && |trace| == |patterns| + 1 && trace[0] == text && trace[|patterns|] == result
    && forall i :: 0 <= i < |patterns| ==> trace[i + 1] == patterns[i](trace[i])
  }

  lemma {:induction false} ScrubPasses(patterns: seq<Text -> Text>, text: Text) returns (trace: seq<Text>)
    ensures Passes(patterns, text, trace, Scrub(patterns, text))
  {
    trace := [text];
    if patterns != [] {
      var earlier := ScrubPasses(patterns[..|patterns| - 1], text);
      trace := earlier + [Scrub(patterns, text)];
    }
  }

  ghost predicate Idempotent(rules: Rules) {
    forall text :: Scrub(rules.patterns, Scrub(rules.patterns, text)) == Scrub(rules.patterns, text)
  }

  // ---- what should become of a value -----------------------------------

  /** Slot `i` belongs to a configured key. */
  predicate Configured(rules: Rules, c: Container, i: nat) {
    c.isDict && i < |c.keys| && c.keys[i] in rules.fields
  }

  function ImageOf(rules: Rules, v: Value): Value {
    if v.Str? then Str(Scrub(rules.patterns, v.text)) else v
  }

  function SlotImage(rules: Rules, c: Container, i: nat, v: Value): Value {
    if Configured(rules, c, i) then Str(rules.marker) else ImageOf(rules, v)
  }

  function Image(rules: Rules, c: Container, slots: seq<Value>): (r: seq<Value>)
    ensures |r| == |slots|
  {
    seq(|slots|, i requires 0 <= i < |slots| => SlotImage(rules, c, i, slots[i]))
  }

  lemma ImageTwice(rules: Rules, c: Container, slots: seq<Value>)
    requires Idempotent(rules)
    ensures Image(rules, c, Image(rules, c, slots)) == Image(rules, c, slots)
  {
  }

  // ---- object graphs ---------------------------------------------------

  /** The slots of every container at one moment. */
  type Graph = map<Container, seq<Value>>

  /** References that the scrubber follows stay in the graph and go down in rank, so none leads back. */
  ghost predicate Acyclic(rules: Rules, g: Graph, rank: map<Container, nat>) {
    && g.Keys <= rank.Keys
    && (forall c :: c in g && c.isDict ==> |g[c]| == |c.keys|)
    && (forall c, i :: c in g && 0 <= i < |g[c]| && !Configured(rules, c, i) && g[c][i].Ref? ==>
          g[c][i].container in g && rank[g[c][i].container] < rank[c])
  }

  ghost predicate InGraph(g: Graph, v: Value) {
    v.Ref? ==> v.container in g
  }

  /** The containers the scrubber reaches from a value. */
  ghost function Reach(rules: Rules, g: Graph, rank: map<Container, nat>, v: Value): set<Container>
    requires Acyclic(rules, g, rank) && InGraph(g, v)
    decreases if v.Ref? then rank[v.container] + 1 else 0, 0
  {
    if v.Ref? then {v.container} + ReachSlots(rules, g, rank, v.container, |g[v.container]|) else {}
  }

  /** The containers reached from the first `n` slots of `c`. */
  ghost function ReachSlots(rules: Rules, g: Graph, rank: map<Container, nat>, c: Container, n: nat): set<Container>
    requires Acyclic(rules, g, rank) && c in g && n <= |g[c]|
    decreases rank[c], n + 1
  {
    if n == 0 then {}
    else
      ReachSlots(rules, g, rank, c, n - 1)
      + if Configured(rules, c, n - 1) then {} else Reach(rules, g, rank, g[c][n - 1])
  }

  /** No container is reached from two slots of one container: the graph is a tree. */
  ghost predicate Tree(rules: Rules, g: Graph, rank: map<Container, nat>)
    requires Acyclic(rules, g, rank)
  {
    forall c, n: nat :: c in g && n < |g[c]| && !Configured(rules, c, n) ==>
      ReachSlots(rules, g, rank, c, n) !! Reach(rules, g, rank, g[c][n])
  }

  /** The two graphs have the same containers, and the scrubber follows the same references in both. */
  ghost predicate SameShape(rules: Rules, g: Graph, g': Graph) {
    && g'.Keys == g.Keys
    && (forall c :: c in g ==> |g'[c]| == |g[c]|)
    && (forall c, i :: c in g && 0 <= i < |g[c]| && !Configured(rules, c, i) && (g[c][i].Ref? || g'[c][i].Ref?) ==>
          g'[c][i] == g[c][i])
  }

  ghost function SetSlot(g: Graph, c: Container, i: nat, v: Value): Graph
    requires c in g && i < |g[c]|
  {
    g[c := g[c][i := v]]
  }

  /** Overwriting a slot whose reference, if any, is not followed or stays keeps the shape. */
  lemma SetSlotKeepsShape(rules: Rules, g: Graph, g1: Graph, rank: map<Container, nat>, c: Container, i: nat, v: Value)
    requires Acyclic(rules, g, rank) && SameShape(rules, g, g1) && c in g && i < |g[c]|
    requires Configured(rules, c, i) || v == g1[c][i] || (!v.Ref? && !g1[c][i].Ref?)
    ensures SameShape(rules, g, SetSlot(g1, c, i, v)) && Acyclic(rules, SetSlot(g1, c, i, v), rank)
  {
  }

  // ---- the scrubber on graphs ------------------------------------------

  /** The graph after scrubbing a value, slot by slot, depth first. */
  ghost function Redacted(rules: Rules, g: Graph, rank: map<Container, nat>, v: Value): (g': Graph)
    requires Acyclic(rules, g, rank) && InGraph(g, v)
    ensures SameShape(rules, g, g')
    decreases if v.Ref? then rank[v.container] + 1 else 0, 0
  {
    if v.Ref? then RedactedSlots(rules, g, rank, v.container, |g[v.container]|) else g
  }

  ghost function RedactedSlots(rules: Rules, g: Graph, rank: map<Container, nat>, c: Container, n: nat): (g': Graph)
    requires Acyclic(rules, g, rank) && c in g && n <= |g[c]|
    ensures SameShape(rules, g, g') && Acyclic(rules, g', rank)
    decreases rank[c], n + 1
  {
    if n == 0 then g
    else
      var g1 := RedactedSlots(rules, g, rank, c, n - 1);
      if Configured(rules, c, n - 1) then
        SetSlotKeepsShape(rules, g, g1, rank, c, n - 1, Str(rules.marker));
        SetSlot(g1, c, n - 1, Str(rules.marker))
      else
        var v := g1[c][n - 1];
        var g2 := Redacted(rules, g1, rank, v);
        SameShapeTwice(rules, g, g1, g2);
        SetSlotKeepsShape(rules, g, g2, rank, c, n - 1, ImageOf(rules, v));
        SetSlot(g2, c, n - 1, ImageOf(rules, v))
  }

  lemma SameShapeTwice(rules: Rules, g: Graph, g1: Graph, g2: Graph)
    requires SameShape(rules, g, g1) && SameShape(rules, g1, g2)
    ensures SameShape(rules, g, g2)
  {
  }

  // ---- reachability survives scrubbing ---------------------------------

  lemma {:induction false} ReachGoesDown(rules: Rules, g: Graph, rank: map<Container, nat>, c: Container, n: nat)
    requires Acyclic(rules, g, rank) && c in g && n <= |g[c]|
    ensures forall d :: d in ReachSlots(rules, g, rank, c, n) ==> d in g && rank[d] < rank[c]
    decreases rank[c], n
  {
    if n > 0 {
      ReachGoesDown(rules, g, rank, c, n - 1);
      var v := g[c][n - 1];
      if !Configured(rules, c, n - 1) && v.Ref? { ReachGoesDown(rules, g, rank, v.container, |g[v.container]|); }
    }
  }

  lemma {:induction false} SameShapeSameReach(rules: Rules, g: Graph, g': Graph, rank: map<Container, nat>,
                                              c: Container, n: nat)
    requires Acyclic(rules, g, rank) && Acyclic(rules, g', rank) && SameShape(rules, g, g') && c in g && n <= |g[c]|
    ensures ReachSlots(rules, g', rank, c, n) == ReachSlots(rules, g, rank, c, n)
    decreases rank[c], n
  {
    if n > 0 {
      SameShapeSameReach(rules, g, g', rank, c, n - 1);
      if !Configured(rules, c, n - 1) {
        var v := g[c][n - 1];
        if v.Ref? {
          SameShapeSameReach(rules, g, g', rank, v.container, |g[v.container]|);
        } else {
          assert !g'[c][n - 1].Ref?;
        }
      }
    }
  }

  lemma SameShapeSameTree(rules: Rules, g: Graph, g': Graph, rank: map<Container, nat>)
    requires Acyclic(rules, g, rank) && Acyclic(rules, g', rank) && SameShape(rules, g, g') && Tree(rules, g, rank)
    ensures Tree(rules, g', rank)
  {
    forall c, n: nat | c in g' && n < |g'[c]| && !Configured(rules, c, n)
      ensures ReachSlots(rules, g', rank, c, n) !! Reach(rules, g', rank, g'[c][n])
    {
      SameShapeSameReach(rules, g, g', rank, c, n);
      SameShapeSameReach(rules, g, g', rank, c, n + 1);
      SameReachOfValue(rules, g, g', rank, c, n);
    }
  }

  lemma SameReachOfValue(rules: Rules, g: Graph, g': Graph, rank: map<Container, nat>, c: Container, n: nat)
    requires Acyclic(rules, g, rank) && Acyclic(rules, g', rank) && SameShape(rules, g, g')
    requires c in g && n < |g[c]| && !Configured(rules, c, n)
    ensures Reach(rules, g', rank, g'[c][n]) == Reach(rules, g, rank, g[c][n])
  {
    if g[c][n].Ref? {
      SameShapeSameReach(rules, g, g', rank, g[c][n].container, |g[g[c][n].container]|);
    } else {
      assert !g'[c][n].Ref?;
    }
  }

  // ---- scrubbing is slot by slot ---------------------------------------

  /** What each container should hold once the containers of `done` are scrubbed. */
  ghost predicate ScrubbedExactly(rules: Rules, g: Graph, g': Graph, done: set<Container>) {
    && g'.Keys == g.Keys
    && forall d :: d in g ==> g'[d] == if d in done then Image(rules, d, g[d]) else g[d]
  }

  /** On a tree, or on any acyclic graph when the substitutions are idempotent, exactly the containers reached from
      the value are scrubbed: every configured key holds the marker, every other string its scrubbed image, all else
      is as before. */
  lemma {:induction false} RedactionIsExact(rules: Rules, g: Graph, rank: map<Container, nat>, v: Value)
    requires Acyclic(rules, g, rank) && InGraph(g, v)
    requires Idempotent(rules) || Tree(rules, g, rank)
    ensures ScrubbedExactly(rules, g, Redacted(rules, g, rank, v), Reach(rules, g, rank, v))
    decreases if v.Ref? then rank[v.container] + 1 else 0, 0
  {
    if v.Ref? {
      var c, n := v.container, |g[v.container]|;
      SlotsAreScrubbed(rules, g, rank, c, n);
      ReachGoesDown(rules, g, rank, c, n);
      assert PartImage(rules, c, g[c], n) == Image(rules, c, g[c]);
    }
  }

  /** As ScrubbedExactly, of every container but `c`. */
  ghost predicate ScrubbedElsewhere(rules: Rules, g: Graph, g': Graph, done: set<Container>, c: Container) {
    forall d :: d in g && d != c ==> d in g' && g'[d] == if d in done then Image(rules, d, g[d]) else g[d]
  }

  /** The slots of `c` once the first `n` are scrubbed. */
  ghost function PartImage(rules: Rules, c: Container, slots: seq<Value>, n: nat): seq<Value>
    requires n <= |slots|
  {
    Image(rules, c, slots)[..n] + slots[n..]
  }

  lemma PartImageStep(rules: Rules, c: Container, slots: seq<Value>, n: nat)
    requires 0 < n <= |slots|
    ensures PartImage(rules, c, slots, n - 1)[n - 1] == slots[n - 1]
    ensures PartImage(rules, c, slots, n)
         == PartImage(rules, c, slots, n - 1)[n - 1 := SlotImage(rules, c, n - 1, slots[n - 1])]
  {
  }

  /** The first `n` slots of `c` and all they lead to are scrubbed. */
  ghost predicate SlotsScrubbed(rules: Rules, g: Graph, g': Graph, rank: map<Container, nat>, c: Container, n: nat)
    requires Acyclic(rules, g, rank) && c in g && n <= |g[c]|
  {
    && g'.Keys == g.Keys && g'[c] == PartImage(rules, c, g[c], n)
    && ScrubbedElsewhere(rules, g, g', ReachSlots(rules, g, rank, c, n), c)
  }

  lemma {:induction false} SlotsAreScrubbed(rules: Rules, g: Graph, rank: map<Container, nat>, c: Container, n: nat)
    requires Acyclic(rules, g, rank) && c in g && n <= |g[c]|
    requires Idempotent(rules) || Tree(rules, g, rank)
    ensures SlotsScrubbed(rules, g, RedactedSlots(rules, g, rank, c, n), rank, c, n)
    decreases rank[c], n + 1
  {
    if n > 0 {
      var g1 := RedactedSlots(rules, g, rank, c, n - 1);
      SlotsAreScrubbed(rules, g, rank, c, n - 1);
      if Configured(rules, c, n - 1) {
        ConfiguredSlotIsScrubbed(rules, g, g1, rank, c, n);
      } else {
        PartImageStep(rules, c, g[c], n);
        FollowingASlot(rules, g, g1, rank, c, n);
      }
    }
  }

  lemma {:induction false} FollowingASlot(rules: Rules, g: Graph, g1: Graph, rank: map<Container, nat>, c: Container,
                                          n: nat)
    requires Acyclic(rules, g, rank) && Acyclic(rules, g1, rank) && SameShape(rules, g, g1)
    requires c in g && 0 < n <= |g[c]| && !Configured(rules, c, n - 1) && g1[c][n - 1] == g[c][n - 1]
    requires Idempotent(rules) || Tree(rules, g, rank)
    requires SlotsScrubbed(rules, g, g1, rank, c, n - 1)
    ensures var v := g[c][n - 1];
            SlotsScrubbed(rules, g, SetSlot(Redacted(rules, g1, rank, v), c, n - 1, ImageOf(rules, v)), rank, c, n)
    decreases rank[c], n
  {
    var v := g[c][n - 1];
    if !Idempotent(rules) { SameShapeSameTree(rules, g, g1, rank); }
    SameReachOfValue(rules, g, g1, rank, c, n - 1);
    RedactionIsExact(rules, g1, rank, v);
    FollowedSlotIsScrubbed(rules, g, g1, Redacted(rules, g1, rank, v), rank, c, n);
  }

  lemma {:induction false} ConfiguredSlotIsScrubbed(rules: Rules, g: Graph, g1: Graph, rank: map<Container, nat>,
                                                    c: Container, n: nat)
    requires Acyclic(rules, g, rank) && c in g && 0 < n <= |g[c]| && Configured(rules, c, n - 1)
    requires SlotsScrubbed(rules, g, g1, rank, c, n - 1)
    ensures n - 1 < |g1[c]| && SlotsScrubbed(rules, g, SetSlot(g1, c, n - 1, Str(rules.marker)), rank, c, n)
  {
    PartImageStep(rules, c, g[c], n);
    SetSlotElsewhere(rules, g, g1, ReachSlots(rules, g, rank, c, n - 1), c, n - 1, Str(rules.marker));
  }

  lemma {:induction false} FollowedSlotIsScrubbed(rules: Rules, g: Graph, g1: Graph, g2: Graph,
                                                  rank: map<Container, nat>,
                                                  c: Container, n: nat)
    requires Acyclic(rules, g, rank) && c in g && 0 < n <= |g[c]| && !Configured(rules, c, n - 1)
    requires Idempotent(rules) || Tree(rules, g, rank)
    requires SlotsScrubbed(rules, g, g1, rank, c, n - 1)
    requires ScrubbedExactly(rules, g1, g2, Reach(rules, g, rank, g[c][n - 1]))
    ensures n - 1 < |g2[c]| && SlotsScrubbed(rules, g, SetSlot(g2, c, n - 1, ImageOf(rules, g[c][n - 1])), rank, c, n)
  {
    ReachGoesDown(rules, g, rank, c, n);
    PartImageStep(rules, c, g[c], n);
    ScrubbedTwiceOrOnce(rules, g, g1, g2, c, ReachSlots(rules, g, rank, c, n - 1), Reach(rules, g, rank, g[c][n - 1]));
    SetSlotElsewhere(rules, g, g2, ReachSlots(rules, g, rank, c, n), c, n - 1, ImageOf(rules, g[c][n - 1]));
  }

  lemma SetSlotElsewhere(rules: Rules, g: Graph, g1: Graph, done: set<Container>, c: Container, i: nat, v: Value)
    requires ScrubbedElsewhere(rules, g, g1, done, c) && c in g1 && i < |g1[c]|
    ensures ScrubbedElsewhere(rules, g, SetSlot(g1, c, i, v), done, c)
  {
  }

  /** Two scrubbings in a row scrub the union, when they do not overlap or overlapping does no harm. */
  lemma ScrubbedTwiceOrOnce(rules: Rules, g: Graph, g1: Graph, g2: Graph, c: Container, first: set<Container>,
                            second: set<Container>)
    requires Idempotent(rules) || first !! second
    requires g1.Keys == g.Keys && ScrubbedElsewhere(rules, g, g1, first, c)
    requires ScrubbedExactly(rules, g1, g2, second)
    ensures ScrubbedElsewhere(rules, g, g2, first + second, c)
  {
    forall d | d in g && d != c ensures g2[d] == if d in first + second then Image(rules, d, g[d]) else g[d] {
      if d in first && d in second { ImageTwice(rules, d, g[d]); }
    }
  }

  /** Slot `i` of `c` holds a reference the scrubber follows. */
  ghost predicate Follows(rules: Rules, g: Graph, c: Container, i: int)
    requires c in g
  {
    0 <= i < |g[c]| && !Configured(rules, c, i) && g[c][i].Ref?
  }

  /** The containers of `s` lead only to containers of `s`. */
  ghost predicate Closed(rules: Rules, g: Graph, s: set<Container>) {
    forall c, i :: c in s && c in g && Follows(rules, g, c, i) ==> g[c][i].container in s
  }

  lemma {:induction false} SlotIsReached(rules: Rules, g: Graph, rank: map<Container, nat>, c: Container, n: nat,
                                         i: nat)
    requires Acyclic(rules, g, rank) && c in g && i < n <= |g[c]| && Follows(rules, g, c, i)
    ensures Reach(rules, g, rank, g[c][i]) <= ReachSlots(rules, g, rank, c, n)
  {
    if i < n - 1 { SlotIsReached(rules, g, rank, c, n - 1, i); }
  }

  lemma {:induction false} ReachSlotsIsClosed(rules: Rules, g: Graph, rank: map<Container, nat>, c: Container, n: nat)
    requires Acyclic(rules, g, rank) && c in g && n <= |g[c]|
    ensures Closed(rules, g, ReachSlots(rules, g, rank, c, n))
    decreases rank[c], n + 1
  {
    if n > 0 {
      ReachSlotsIsClosed(rules, g, rank, c, n - 1);
      if !Configured(rules, c, n - 1) { ReachIsClosed(rules, g, rank, g[c][n - 1]); }
    }
  }

  /** What is reached leads nowhere else. */
  lemma {:induction false} ReachIsClosed(rules: Rules, g: Graph, rank: map<Container, nat>, v: Value)
    requires Acyclic(rules, g, rank) && InGraph(g, v)
    ensures v.Ref? ==> v.container in Reach(rules, g, rank, v)
    ensures Closed(rules, g, Reach(rules, g, rank, v))
    decreases if v.Ref? then rank[v.container] + 1 else 0, 0
  {
    if v.Ref? {
      var c := v.container;
      ReachSlotsIsClosed(rules, g, rank, c, |g[c]|);
      forall i | Follows(rules, g, c, i) ensures g[c][i].container in ReachSlots(rules, g, rank, c, |g[c]|) {
        SlotIsReached(rules, g, rank, c, |g[c]|, i);
      }
    }
  }

  /** And nothing more is reached than it must: any closed set with the value's container has it all. */
  lemma {:induction false} ReachIsLeast(rules: Rules, g: Graph, rank: map<Container, nat>, v: Value, s: set<Container>)
    requires Acyclic(rules, g, rank) && InGraph(g, v)
    requires Closed(rules, g, s) && (v.Ref? ==> v.container in s)
    ensures Reach(rules, g, rank, v) <= s
    decreases if v.Ref? then rank[v.container] + 1 else 0, 0
  {
    if v.Ref? { ReachSlotsIsLeast(rules, g, rank, v.container, |g[v.container]|, s); }
  }

  lemma {:induction false} ReachSlotsIsLeast(rules: Rules, g: Graph, rank: map<Container, nat>, c: Container, n: nat,
                                             s: set<Container>)
    requires Acyclic(rules, g, rank) && c in g && n <= |g[c]| && Closed(rules, g, s) && c in s
    ensures ReachSlots(rules, g, rank, c, n) <= s
    decreases rank[c], n + 1
  {
    if n > 0 {
      ReachSlotsIsLeast(rules, g, rank, c, n - 1, s);
      if !Configured(rules, c, n - 1) {
        assert g[c][n - 1].Ref? ==> Follows(rules, g, c, n - 1);
        ReachIsLeast(rules, g, rank, g[c][n - 1], s);
      }
    }
  }

  /** What a slot should hold after scrubbing, in plain terms. */
  ghost predicate SlotIsScrubbed(rules: Rules, c: Container, i: nat, before: Value, after: Value) {
    if c.isDict && i < |c.keys| && c.keys[i] in rules.fields then after == Str(rules.marker)
    else if before.Str? then after.Str? && exists trace :: Passes(rules.patterns, before.text, trace, after.text)
    else after == before
  }

  /** Redaction in plain terms: in every container reached, the value under a configured key becomes the marker, every
      other string passes through all the patterns, and everything else stays; no other container changes. */
  lemma RedactionInPlainTerms(rules: Rules, g: Graph, rank: map<Container, nat>, v: Value, c: Container)
    requires Acyclic(rules, g, rank) && InGraph(g, v) && c in g
    requires Idempotent(rules) || Tree(rules, g, rank)
    ensures var after := Redacted(rules, g, rank, v)[c];
            && |after| == |g[c]|
            && (c !in Reach(rules, g, rank, v) ==> after == g[c])
            && (c in Reach(rules, g, rank, v) ==>
                  forall i :: 0 <= i < |g[c]| ==> SlotIsScrubbed(rules, c, i, g[c][i], after[i]))
  {
    RedactionIsExact(rules, g, rank, v);
    if c in Reach(rules, g, rank, v) {
      forall i | 0 <= i < |g[c]| ensures SlotIsScrubbed(rules, c, i, g[c][i], Image(rules, c, g[c])[i]) {
        if g[c][i].Str? { var trace := ScrubPasses(rules.patterns, g[c][i].text); }
      }
    }
  }

  /** With idempotent substitutions a second pass changes nothing, in the graph or in the returned value. */
  lemma {:induction false} SecondPassChangesNothing(rules: Rules, g: Graph, rank: map<Container, nat>, v: Value)
    requires Acyclic(rules, g, rank) && InGraph(g, v) && Idempotent(rules)
    ensures var once := Redacted(rules, g, rank, v);
            && Acyclic(rules, once, rank) && InGraph(once, ImageOf(rules, v))
            && Redacted(rules, once, rank, ImageOf(rules, v)) == once
            && ImageOf(rules, ImageOf(rules, v)) == ImageOf(rules, v)
  {
    if v.Ref? {
      var once := Redacted(rules, g, rank, v);
      RedactionIsExact(rules, g, rank, v);
      RedactionIsExact(rules, once, rank, v);
      SameShapeSameReach(rules, g, once, rank, v.container, |g[v.container]|);
      forall d | d in g ensures Redacted(rules, once, rank, v)[d] == once[d] {
        ImageTwice(rules, d, g[d]);
      }
    }
  }

  /** A list that occurs twice in a result has its strings scrubbed twice. */
  lemma SharedListIsScrubbedTwice(rules: Rules, outer: Container, inner: Container, text: Text)
    requires outer != inner && !outer.isDict && !inner.isDict
    ensures var g, rank := map[outer := [Ref(inner), Ref(inner)], inner := [Str(text)]], map[outer := 1, inner := 0];
            && Acyclic(rules, g, rank)
            && Redacted(rules, g, rank, Ref(outer))[inner] == [Str(Scrub(rules.patterns, Scrub(rules.patterns, text)))]
  {
    var g: Graph, rank := map[outer := [Ref(inner), Ref(inner)], inner := [Str(text)]], map[outer := 1, inner := 0];
    var once, twice := Scrub(rules.patterns, text), Scrub(rules.patterns, Scrub(rules.patterns, text));
    OneStringList(rules, g, rank, inner, text);
    var g1 := RedactedSlots(rules, g, rank, outer, 1);
    assert RedactedSlots(rules, g, rank, outer, 0) == g;
    assert g1[inner] == [Str(once)] && g1[outer][1] == Ref(inner);
    OneStringList(rules, g1, rank, inner, once);
    assert Redacted(rules, g1, rank, Ref(inner))[inner] == [Str(twice)];
  }

  lemma OneStringList(rules: Rules, g: Graph, rank: map<Container, nat>, c: Container, text: Text)
    requires Acyclic(rules, g, rank) && c in g && !c.isDict && g[c] == [Str(text)]
    ensures Redacted(rules, g, rank, Ref(c)) == g[c := [Str(Scrub(rules.patterns, text))]]
  {
    assert RedactedSlots(rules, g, rank, c, 0) == g;
    assert Redacted(rules, g, rank, g[c][0]) == g;
    assert g[c][0 := ImageOf(rules, g[c][0])] == [Str(Scrub(rules.patterns, text))];
  }

  ghost predicate ExactOn(rules: Rules, g: Graph, rank: map<Container, nat>, v: Value)
    requires Acyclic(rules, g, rank) && InGraph(g, v)
  {
    ScrubbedExactly(rules, g, Redacted(rules, g, rank, v), Reach(rules, g, rank, v))
  }

  lemma LastSlotIsReached(rules: Rules, g: Graph, rank: map<Container, nat>, c: Container, d: Container)
    requires Acyclic(rules, g, rank) && c in g && d in g && !c.isDict && g[c] != [] && g[c][|g[c]| - 1] == Ref(d)
    ensures d in Reach(rules, g, rank, Ref(c))
  {
    assert d in Reach(rules, g, rank, Ref(d));
  }

  /** Where a second substitution matters, a shared list is not scrubbed as it should be. */
  lemma SharingIsNotExact(rules: Rules, outer: Container, inner: Container, text: Text)
      returns (g: Graph, rank: map<Container, nat>)
    requires outer != inner && !outer.isDict && !inner.isDict
    requires Scrub(rules.patterns, Scrub(rules.patterns, text)) != Scrub(rules.patterns, text)
    ensures Acyclic(rules, g, rank) && outer in g && !ExactOn(rules, g, rank, Ref(outer))
  {
    g, rank := map[outer := [Ref(inner), Ref(inner)], inner := [Str(text)]], map[outer := 1, inner := 0];
    SharedListIsScrubbedTwice(rules, outer, inner, text);
    LastSlotIsReached(rules, g, rank, outer, inner);
    assert Image(rules, inner, [Str(text)]) == [Str(Scrub(rules.patterns, text))];
  }

  /** Whatever a result shares, it is scrubbed as it should be, if and only if the substitutions are idempotent. */
  lemma ExactWithSharingIffIdempotent(rules: Rules, outer: Container, inner: Container)
    requires outer != inner && !outer.isDict && !inner.isDict
    ensures (forall g, rank, v :: Acyclic(rules, g, rank) && InGraph(g, v) ==> ExactOn(rules, g, rank, v))
       <==> Idempotent(rules)
  {
    if Idempotent(rules) {
      forall g, rank, v | Acyclic(rules, g, rank) && InGraph(g, v) ensures ExactOn(rules, g, rank, v) {
        RedactionIsExact(rules, g, rank, v);
      }
    } else {
      var text :| Scrub(rules.patterns, Scrub(rules.patterns, text)) != Scrub(rules.patterns, text);
      var g, rank := SharingIsNotExact(rules, outer, inner, text);
    }
  }

  // ---- the scrubber itself ---------------------------------------------

  /** The heap holds what `g` records. */
  ghost predicate HeapIs(g: Graph)
    reads g.Keys
  {
    forall c :: c in g ==> c.slots == g[c]
  }

  class PIIRedact {
    const rules: Rules

    constructor (rules: Rules)
      ensures this.rules == rules
    {
      this.rules := rules;
    }

    /** Scrubs the result where it stands; only a string result comes back as a new value. */
    method CheckPost(result: Value, ghost g: Graph, ghost rank: map<Container, nat>) returns (r: Value)
      requires Acyclic(rules, g, rank) && InGraph(g, result) && HeapIs(g)
      modifies g.Keys
      ensures r == ImageOf(rules, result)
      ensures HeapIs(Redacted(rules, g, rank, result))
      ensures Idempotent(rules) || Tree(rules, g, rank) ==> forall c :: c in g ==>
                c.slots == if c in Reach(rules, g, rank, result) then Image(rules, c, old(c.slots)) else old(c.slots)
      ensures result.Str? ==> r.Str? && exists trace :: Passes(rules.patterns, result.text, trace, r.text)
      ensures !result.Str? ==> r == result
    {
      if Idempotent(rules) || Tree(rules, g, rank) { RedactionIsExact(rules, g, rank, result); }
      if result.Str? { ghost var trace := ScrubPasses(rules.patterns, result.text); }
      r := Redact(result, g, rank);
    }

    method Redact(v: Value, ghost g: Graph, ghost rank: map<Container, nat>) returns (r: Value)
      requires Acyclic(rules, g, rank) && InGraph(g, v) && HeapIs(g)
      modifies g.Keys
      ensures r == ImageOf(rules, v)
      ensures HeapIs(Redacted(rules, g, rank, v))
      decreases if v.Ref? then rank[v.container] + 1 else 0, 0
    {
      if v.Str? {
        var text := RedactString(v.text);
        return Str(text);
      }
      if v.Ref? {
        RedactContainer(v.container, g, rank);
      }
      return v;
    }

    /** The loop over a dictionary's keys or a list's items. */
    method RedactContainer(c: Container, ghost g: Graph, ghost rank: map<Container, nat>)
      requires Acyclic(rules, g, rank) && c in g && HeapIs(g)
      modifies g.Keys
      ensures HeapIs(RedactedSlots(rules, g, rank, c, |g[c]|))
      decreases rank[c], 2
    {
      var n := |c.slots|;
      for i := 0 to n
        invariant n == |g[c]| && HeapIs(RedactedSlots(rules, g, rank, c, i))
      {
        RedactSlot(c, i, RedactedSlots(rules, g, rank, c, i), rank);
      }
    }

    method RedactSlot(c: Container, i: nat, ghost g: Graph, ghost rank: map<Container, nat>)
      requires Acyclic(rules, g, rank) && c in g && i < |g[c]| && HeapIs(g)
      modifies g.Keys
      ensures Configured(rules, c, i) ==> HeapIs(g[c := g[c][i := Str(rules.marker)]])
      ensures !Configured(rules, c, i) ==>
                var g' := Redacted(rules, g, rank, g[c][i]);
                HeapIs(g'[c := g'[c][i := ImageOf(rules, g[c][i])]])
      decreases rank[c], 1
    {
      if c.isDict && c.keys[i] in rules.fields {
        c.slots := c.slots[i := Str(rules.marker)];
      } else {
        var item := Redact(c.slots[i], g, rank);
        c.slots := c.slots[i := item];
      }
    }

    method RedactString(text: Text) returns (r: Text)
      ensures r == Scrub(rules.patterns, text)
      ensures exists trace :: Passes(rules.patterns, text, trace, r)
    {
      r := text;
      for i := 0 to |rules.patterns|
        invariant r == Scrub(rules.patterns[..i], text)
      {
        Slices(rules.patterns, i);
        r := rules.patterns[i](r);
      }
      Whole(rules.patterns);
      ghost var trace := ScrubPasses(rules.patterns, text);
    }
  }
}
