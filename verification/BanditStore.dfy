/** Saving a bandit's arms to a store and loading them again (atlas/bandit.py). */
module Persistence {
  import opened Prelude
  import opened Bandits
  import opened NoStarvation

  /** An arm as JSON holds it; what is missing or null reads as blank or zero. */
  datatype ArmDict = ArmDict(
    providerName: Name, contextKey: Option<Context>,
    successes: Option<nat>, failures: Option<nat>, totalReward: Option<real>, pulls: Option<nat>,
    lastUpdated: Option<real>)

  type RawArms = Dict<Name, Dict<Context, ArmDict>>

  datatype Algorithm = THOMPSON_BANDIT | UCB1_BANDIT

  /** What is stored under a bandit's name; an old or foreign entry may lack its arms. */
  datatype Saved = Saved(banditName: Name, algorithm: Algorithm, savedAt: real, arms: Option<RawArms>)

  function OrElse<T>(o: Option<T>, default: T): T {
    if o.Some? then o.value else default
  }

  function ArmToDict(a: ArmState): ArmDict {
    ArmDict(a.providerName, Some(a.contextKey), Some(a.successes), Some(a.failures), Some(a.totalReward), Some(a.pulls),
            Some(a.lastUpdated))
  }

  /** `blank` is the empty context key. */
  function ArmFromDict(d: ArmDict, blank: Context): ArmState {
    ArmState(d.providerName, OrElse(d.contextKey, blank), OrElse(d.successes, 0), OrElse(d.failures, 0),
             OrElse(d.totalReward, 0.0), OrElse(d.pulls, 0), OrElse(d.lastUpdated, 0.0))
  }

  function ContextsToDict(byContext: Dict<Context, ArmState>): Dict<Context, ArmDict> {
    Table(byContext.keys, map c | c in byContext.entries :: ArmToDict(byContext.entries[c]))
  }

  function ContextsFromDict(raw: Dict<Context, ArmDict>, blank: Context): Dict<Context, ArmState> {
    Table(raw.keys, map c | c in raw.entries :: ArmFromDict(raw.entries[c], blank))
  }

  function Snapshot(arms: Arms): RawArms {
    Table(arms.keys, map p | p in arms.entries :: ContextsToDict(arms.entries[p]))
  }

  function Restored(raw: RawArms, blank: Context): Arms {
    Table(raw.keys, map p | p in raw.entries :: ContextsFromDict(raw.entries[p], blank))
  }

  lemma ContextsRoundTrip(byContext: Dict<Context, ArmState>, blank: Context)
    ensures ContextsFromDict(ContextsToDict(byContext), blank) == byContext
  {
    assert ContextsFromDict(ContextsToDict(byContext), blank).entries == byContext.entries;
  }

  /** Saving and loading restores every arm, and the order in which they were created. */
  lemma SaveThenLoad(arms: Arms, blank: Context)
    ensures Restored(Snapshot(arms), blank) == arms
  {
    var back := Restored(Snapshot(arms), blank);
    forall p | p in arms.entries ensures back.entries[p] == arms.entries[p] {
      ContextsRoundTrip(arms.entries[p], blank);
    }
    assert back.entries == arms.entries;
  }

  /** Interrupting a run to save the bandit and load it into another with the same constants changes nothing. */
  lemma {:induction false} LoadedBanditContinuesTheRun(t: Tuning, arms: Arms, candidates: seq<Name>, ctx: Context,
                                                       before: seq<Event>, after: seq<Event>, blank: Context)
    requires candidates != []
    ensures Run(t, arms, candidates, ctx, before + after)
         == Run(t, Restored(Snapshot(Run(t, arms, candidates, ctx, before)), blank), candidates, ctx, after)
  {
    SaveThenLoad(Run(t, arms, candidates, ctx, before), blank);
    if after == [] {
      assert before + after == before;
    } else {
      var n := |after| - 1;
      assert (before + after)[..|before + after| - 1] == before + after[..n];
      LoadedBanditContinuesTheRun(t, arms, candidates, ctx, before, after[..n], blank);
    }
  }

  /** The stored arms of the providers in `keys` are back. */
  ghost predicate IsRestored(raw: RawArms, keys: seq<Name>, blank: Context, arms: Arms) {
    && arms.keys == keys
    && forall p :: p in keys ==>
        p in raw.entries && p in arms.entries && arms.entries[p] == ContextsFromDict(raw.entries[p], blank)
  }

  lemma RestoreOneMore(raw: RawArms, keys: seq<Name>, p: Name, blank: Context, arms: Arms)
    requires IsRestored(raw, keys, blank, arms) && p !in keys && p in raw.entries
    ensures IsRestored(raw, keys + [p], blank, arms.Put(p, ContextsFromDict(raw.entries[p], blank)))
  {
  }

  // ---- the store -------------------------------------------------------

  class Store {
    var data: map<Name, Saved>

    constructor ()
      ensures data == map[]
    {
      data := map[];
    }
  }

  /** Whatever was stored under the bandit's name, also by a bandit of the other kind, is overwritten. */
  method SaveBandit(bandit: UCB1Bandit, store: Store, now: real)
    modifies store
    ensures store.data
         == old(store.data)[bandit.name := Saved(bandit.name, UCB1_BANDIT, now, Some(Snapshot(bandit.arms)))]
  {
    var payload := Saved(bandit.name, UCB1_BANDIT, now, Some(Snapshot(bandit.arms)));
    store.data := store.data[bandit.name := payload];
  }

  /** The arms stored under a name, if any: who stored them is not looked at. */
  function StoredArms(data: map<Name, Saved>, name: Name): Option<RawArms> {
    if name in data then Some(OrElse(data[name].arms, Table([], map[]))) else None
  }

  /** The bandit's arms become the stored ones, whatever it had learned since; with nothing stored it keeps its own. */
  method LoadBandit(bandit: UCB1Bandit, store: Store, blank: Context)
    modifies bandit
    ensures bandit.arms == match StoredArms(store.data, bandit.name)
                           case None => old(bandit.arms)
                           case Some(raw) => Restored(raw, blank)
    ensures forall arms :: StoredArms(store.data, bandit.name) == Some(Snapshot(arms)) ==> bandit.arms == arms
  {
    if bandit.name !in store.data {
      return;
    }
    var raw := OrElse(store.data[bandit.name].arms, Table([], map[]));
    bandit.arms := Table([], map[]);
    for i := 0 to |raw.keys|
      invariant IsRestored(raw, raw.keys[..i], blank, bandit.arms)
    {
      Slices(raw.keys, i);
      RestoreOneMore(raw, raw.keys[..i], raw.keys[i], blank, bandit.arms);
      bandit.arms := bandit.arms.Put(raw.keys[i], ContextsFromDict(raw.entries[raw.keys[i]], blank));
    }
    Whole(raw.keys);
    assert bandit.arms.entries == Restored(raw, blank).entries;
    forall arms | raw == Snapshot(arms) ensures bandit.arms == arms {
      SaveThenLoad(arms, blank);
    }
  }
}
