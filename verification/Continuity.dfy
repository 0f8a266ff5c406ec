/** Stored profiles and learning into them (continuity/_core.py). */
module Learning {
  import opened Prelude
  import opened Profiles

  /** What the store holds under each user's key. */
  type Data = map<UserId, ProfileDict>

  function Loaded(data: Data, user: UserId, now: real): Profile {
    if user in data then FromDict(data[user], now) else Profile(user, Table([], map[]), map[], now, now)
  }

  /** The key a profile is saved under is its identity. */
  function Saved(data: Data, user: UserId, p: Profile): Data {
    data[user := ToDict(p.(userId := user))]
  }

  /** The extracted facts by key; of two for one key the later counts. */
  function Incoming(extracted: seq<Field>): Fields {
    if extracted == [] then Table([], map[])
    else Incoming(extracted[..|extracted| - 1]).Put(extracted[|extracted| - 1].key, extracted[|extracted| - 1])
  }

  function Learned(current: Profile, extracted: seq<Field>, now: real): Profile {
    current.(fields := Merged(current.fields, Incoming(extracted), HIGHER_CONFIDENCE), updatedAt := now)
  }

  /** One operation on a store. */
  datatype Step =
    | Autolearn(user: UserId, extracted: seq<Field>, now: real)
    | Update(user: UserId, key: FieldKey, value: Payload, source: Source, confidence: real, now: real)
    | Delete(user: UserId)

  function Apply(data: Data, step: Step): Data {
    match step
    case Autolearn(user, extracted, now) => Saved(data, user, Learned(Loaded(data, user, now), extracted, now))
    case Update(user, key, value, source, confidence, now) =>
      var p := Loaded(data, user, now);
      Saved(data, user, p.(fields := p.fields.Put(key, Field(key, value, confidence, source, now)), updatedAt := now))
    case Delete(user) => data - {user}
  }

  function ApplyAll(data: Data, steps: seq<Step>): Data {
    if steps == [] then data else Apply(ApplyAll(data, steps[..|steps| - 1]), steps[|steps| - 1])
  }

  // ---- what is stored of one fact --------------------------------------

  function StoredField(data: Data, user: UserId, k: FieldKey): Option<FieldDict> {
    if user in data then data[user].fields.Get(k) else None
  }

  /** The confidence a stored field has when it is next read: zero reads as one. */
  function ReadConfidence(d: FieldDict): real {
    if d.confidence == 0.0 then 1.0 else d.confidence
  }

  lemma {:induction false} LoadedField(data: Data, user: UserId, now: real, k: FieldKey)
    ensures Loaded(data, user, now).fields.Get(k)
         == match StoredField(data, user, k) case None => None case Some(d) => Some(FieldFromDict(d, now))
  {
  }

  /** Whom nothing is stored of has an empty profile, made now. */
  lemma StrangersInPlainTerms(data: Data, user: UserId, now: real)
    requires user !in data
    ensures var p := Loaded(data, user, now);
            p.userId == user && p.fields.keys == [] && p.metadata == map[] && p.createdAt == now && p.updatedAt == now
  {
  }

  /** After one learning step a key holds the last extracted fact for it if that is surer than what was read, and
      otherwise what was read; other users' keys are as they were. */
  lemma {:induction false} AutolearnIsExact(data: Data, user: UserId, extracted: seq<Field>, now: real, u: UserId,
                                            k: FieldKey)
    ensures var after := StoredField(Apply(data, Autolearn(user, extracted, now)), u, k);
            if u != user then after == StoredField(data, u, k)
            else after == match Chosen(Loaded(data, user, now).fields.Get(k), Incoming(extracted).Get(k),
                HIGHER_CONFIDENCE)
                          case None => None case Some(f) => Some(FieldToDict(f))
  {
    if u == user {
      var current := Loaded(data, user, now);
      MergeIsPointwise(current.fields, Incoming(extracted), HIGHER_CONFIDENCE);
      var after := Apply(data, Autolearn(user, extracted, now))[user].fields;
      assert after.Get(k) == match Merged(current.fields, Incoming(extracted), HIGHER_CONFIDENCE).Get(k)
                             case None => None case Some(f) => Some(FieldToDict(f));
    }
  }

  /** The last of the extracted facts for a key. */
  ghost predicate LastFor(extracted: seq<Field>, k: FieldKey, i: int) {
    0 <= i < |extracted| && extracted[i].key == k && forall j :: i < j < |extracted| ==> extracted[j].key != k
  }

  lemma LastForOneMore(earlier: seq<Field>, f: Field, k: FieldKey)
    ensures forall i :: LastFor(earlier + [f], k, i) <==> if f.key == k then i == |earlier| else LastFor(earlier, k, i)
  {
    forall i ensures LastFor(earlier + [f], k, i) <==> if f.key == k then i == |earlier| else LastFor(earlier, k, i) {
      var more := earlier + [f];
      assert more[|earlier|] == f;
      assert forall j :: 0 <= j < |earlier| ==> more[j] == earlier[j];
    }
  }

  /** Of the extracted facts for a key the last one counts. */
  lemma {:induction false} IncomingIsTheLast(extracted: seq<Field>, k: FieldKey)
    ensures forall i :: LastFor(extracted, k, i) ==> Incoming(extracted).Get(k) == Some(extracted[i])
    ensures Incoming(extracted).Get(k).Some? ==> exists i :: LastFor(extracted, k, i)
  {
    if extracted != [] {
      var earlier, f := extracted[..|extracted| - 1], extracted[|extracted| - 1];
      IncomingIsTheLast(earlier, k);
      LastForOneMore(earlier, f, k);
      assert extracted == earlier + [f];
      assert Incoming(extracted).Get(k) == if f.key == k then Some(f) else Incoming(earlier).Get(k);
      if Incoming(extracted).Get(k).Some? {
        if f.key == k {
          assert LastFor(extracted, k, |earlier|);
        } else {
          var i :| LastFor(earlier, k, i);
          assert LastFor(extracted, k, i);
        }
      }
    }
  }

  /** Editing stores exactly the new field, and touches nothing else of value. */
  lemma {:induction false} UpdateInPlainTerms(data: Data, user: UserId, key: FieldKey, value: Payload, source: Source,
                                              confidence: real, now: real, u: UserId, k: FieldKey)
    ensures var after := Apply(data, Update(user, key, value, source, confidence, now));
            && StoredField(after, user, key) == Some(FieldDict(key, value, confidence, source, now))
            && (u != user ==> StoredField(after, u, k) == StoredField(data, u, k))
            && (k != key ==> (StoredField(after, user, k).Some? <==> StoredField(data, user, k).Some?))
  {
  }

  /** Deleting leaves nothing of the user, and all of the others. */
  lemma {:induction false} DeleteInPlainTerms(data: Data, user: UserId, u: UserId, k: FieldKey)
    ensures StoredField(Apply(data, Delete(user)), u, k) == if u == user then None else StoredField(data, u, k)
  {
  }

  /** Only learning touches the user: nobody edits or deletes the profile by hand. */
  ghost predicate OnlyLearns(steps: seq<Step>, user: UserId) {
    forall i :: 0 <= i < |steps| && steps[i].user == user ==> steps[i].Autolearn?
  }

  lemma {:induction false} OtherUsersStepsDoNotTouch(data: Data, step: Step, user: UserId, k: FieldKey)
    requires step.user != user
    ensures StoredField(Apply(data, step), user, k) == StoredField(data, user, k)
  {
  }

  /** Still stored, and no less sure, as stored or as read. */
  predicate AtLeastAsSure(data: Data, user: UserId, k: FieldKey, stored: real, read: real) {
    var d := StoredField(data, user, k);
    d.Some? && stored <= d.value.confidence && read <= ReadConfidence(d.value)
  }

  /** One learning step never loses a key nor lowers a confidence. */
  lemma {:induction false} LearningStepIsMonotone(data: Data, step: Step, user: UserId, k: FieldKey, stored: real,
                                                  read: real)
    requires step.user == user ==> step.Autolearn?
    requires AtLeastAsSure(data, user, k, stored, read)
    ensures AtLeastAsSure(Apply(data, step), user, k, stored, read)
  {
    if step.user == user {
      AutolearnIsExact(data, user, step.extracted, step.now, user, k);
      LoadedField(data, user, step.now, k);
      var loaded := FieldFromDict(StoredField(data, user, k).value, step.now);
      assert loaded.confidence == ReadConfidence(StoredField(data, user, k).value);
    } else {
      OtherUsersStepsDoNotTouch(data, step, user, k);
    }
  }

  /** Through any run in which the user is only learned about, whatever happens to other users, keys never vanish and
      no confidence, as stored or as read, ever falls. */
  lemma {:induction false} LearningIsMonotone(data: Data, steps: seq<Step>, user: UserId, k: FieldKey)
    requires OnlyLearns(steps, user) && StoredField(data, user, k).Some?
    ensures var before := StoredField(data, user, k).value;
            AtLeastAsSure(ApplyAll(data, steps), user, k, before.confidence, ReadConfidence(before))
  {
    if steps != [] {
      var earlier, before := steps[..|steps| - 1], StoredField(data, user, k).value;
      LearningIsMonotone(data, earlier, user, k);
      LearningStepIsMonotone(ApplyAll(data, earlier), steps[|steps| - 1], user, k, before.confidence,
          ReadConfidence(before));
    }
  }

  /** Extraction is documented to report confidences between zero and one. */
  ghost predicate AtMostCertain(step: Step) {
    step.Autolearn? ==> forall i :: 0 <= i < |step.extracted| ==> step.extracted[i].confidence <= 1.0
  }

  lemma {:induction false} IncomingComesFromTheBatch(extracted: seq<Field>, k: FieldKey)
    ensures Incoming(extracted).Get(k).Some? ==> Incoming(extracted).Get(k).value in extracted
  {
    if extracted != [] { IncomingComesFromTheBatch(extracted[..|extracted| - 1], k); }
  }

  /** The two stored fields are the same fact from the same source, except that an empty source has become "user". */
  predicate SameFact(a: FieldDict, b: FieldDict) {
    a.key == b.key && a.value == b.value && (b.source == a.source || (a.source == EMPTY && b.source == USER))
  }

  /** The field is stored, holds the given fact and reads as certain. */
  predicate HoldsCertainly(data: Data, user: UserId, k: FieldKey, fact: FieldDict) {
    var d := StoredField(data, user, k);
    d.Some? && SameFact(fact, d.value) && ReadConfidence(d.value) == 1.0
  }

  lemma CertainFieldIsKept(d: FieldDict, now: real, found: Option<Field>, fact: FieldDict)
    requires SameFact(fact, d) && ReadConfidence(d) == 1.0 && (found.Some? ==> found.value.confidence <= 1.0)
    ensures var kept := Chosen(Some(FieldFromDict(d, now)), found, HIGHER_CONFIDENCE);
            kept.Some? && SameFact(fact, FieldToDict(kept.value)) && ReadConfidence(FieldToDict(kept.value)) == 1.0
  {
  }

  lemma {:induction false} CertainFieldSurvivesStep(data: Data, step: Step, user: UserId, k: FieldKey, fact: FieldDict)
    requires step.user == user ==> step.Autolearn? && AtMostCertain(step)
    requires HoldsCertainly(data, user, k, fact)
    ensures HoldsCertainly(Apply(data, step), user, k, fact)
  {
    if step.user == user {
      AutolearnIsExact(data, user, step.extracted, step.now, user, k);
      LoadedField(data, user, step.now, k);
      IncomingComesFromTheBatch(step.extracted, k);
      CertainFieldIsKept(StoredField(data, user, k).value, step.now, Incoming(step.extracted).Get(k), fact);
    } else {
      OtherUsersStepsDoNotTouch(data, step, user, k);
    }
  }

  /** A field read with full confidence is never displaced by learning. */
  lemma {:induction false} CertainFieldsStay(data: Data, steps: seq<Step>, user: UserId, k: FieldKey, fact: FieldDict)
    requires OnlyLearns(steps, user) && forall i :: 0 <= i < |steps| ==> AtMostCertain(steps[i])
    requires HoldsCertainly(data, user, k, fact)
    ensures HoldsCertainly(ApplyAll(data, steps), user, k, fact)
  {
    if steps != [] {
      var earlier := steps[..|steps| - 1];
      CertainFieldsStay(data, earlier, user, k, fact);
      CertainFieldSurvivesStep(ApplyAll(data, earlier), steps[|steps| - 1], user, k, fact);
    }
  }

  /** A fact learned with no confidence at all is read back as certain, and from then on learning cannot displace it. */
  lemma {:induction false} DoubtBecomesCertainty(data: Data, steps: seq<Step>, user: UserId, k: FieldKey,
                                                 doubtful: Field, now: real)
    requires StoredField(data, user, k) == None && doubtful.key == k && doubtful.confidence == 0.0
    requires OnlyLearns(steps, user) && forall i :: 0 <= i < |steps| ==> AtMostCertain(steps[i])
    ensures HoldsCertainly(ApplyAll(Apply(data, Autolearn(user, [doubtful], now)), steps), user, k,
                FieldToDict(doubtful))
  {
    var first := Apply(data, Autolearn(user, [doubtful], now));
    AutolearnIsExact(data, user, [doubtful], now, user, k);
    LoadedField(data, user, now, k);
    assert [doubtful][..0] == [];
    assert Incoming([doubtful]).Get(k) == Some(doubtful);
    assert StoredField(first, user, k) == Some(FieldToDict(doubtful));
    CertainFieldsStay(first, steps, user, k, FieldToDict(doubtful));
  }

  // ---- the facade ------------------------------------------------------

  class Storage {
    var data: Data

    constructor ()
      ensures data == map[]
    {
      data := map[];
    }
  }

  /** The stored profile, or a fresh one; a missing store is a store without profiles. */
  method LoadProfile(user: UserId, store: Storage?, now: real) returns (p: UserProfile)
    ensures fresh(p) && p.Now() == Loaded(if store == null then map[] else store.data, user, now)
  {
    if store != null {
      if user in store.data {
        p := new UserProfile(FromDict(store.data[user], now));
        return;
      }
    }
    p := new UserProfile(Profile(user, Table([], map[]), map[], now, now));
  }

  /** Without a store nothing is kept. */
  method SaveProfile(user: UserId, p: UserProfile, store: Storage?)
    modifies store
    ensures store != null ==> store.data == Saved(old(store.data), user, p.Now())
  {
    if store == null {
      return;
    }
    var profile := p.Now();
    if profile.userId != user {
      profile := Profile(user, profile.fields, profile.metadata, profile.createdAt, profile.updatedAt);
    }
    store.data := store.data[user := ToDict(profile)];
  }

  method UpdateProfile(user: UserId, key: FieldKey, value: Payload, source: Source, confidence: real, store: Storage?,
                       now: real)
    returns (p: UserProfile)
    modifies store
    ensures fresh(p)
    ensures var loaded := Loaded(if store == null then map[] else old(store.data), user, now);
            p.Now() == loaded.(fields := loaded.fields.Put(key, Field(key, value, confidence, source, now)),
                updatedAt := now)
    ensures store != null ==> store.data == Apply(old(store.data), Update(user, key, value, source, confidence, now))
  {
    p := LoadProfile(user, store, now);
    p.Set(key, value, source, confidence, now);
    SaveProfile(user, p, store);
  }

  method DeleteProfile(user: UserId, store: Storage?)
    modifies store
    ensures store != null ==> store.data == Apply(old(store.data), Delete(user))
  {
    if store != null {
      store.data := store.data - {user};
    }
  }

  /** Load, merge what was extracted, save. */
  method AutolearnProfile(user: UserId, extracted: seq<Field>, store: Storage?, now: real) returns (merged: UserProfile)
    modifies store
    ensures fresh(merged)
    ensures merged.Now() == Learned(Loaded(if store == null then map[] else old(store.data), user, now), extracted, now)
    ensures store != null ==> store.data == Apply(old(store.data), Autolearn(user, extracted, now))
  {
    var current := LoadProfile(user, store, now);
    merged := MergeExtractedInto(current, extracted, now);
    SaveProfile(user, merged, store);
  }

  method MergeExtractedInto(current: UserProfile, extracted: seq<Field>, now: real) returns (merged: UserProfile)
    ensures fresh(merged) && merged.Now() == Learned(current.Now(), extracted, now)
  {
    var incomingFields := FieldsByKey(extracted);
    LearningIsMerging(current.Now(), incomingFields, now);
    var incoming := new UserProfile(Profile(current.userId, incomingFields, map[], current.createdAt, now));
    merged := current.Merge(incoming, HIGHER_CONFIDENCE, now);
  }

  lemma LearningIsMerging(p: Profile, incoming: Fields, now: real)
    ensures MergedProfile(p, Profile(p.userId, incoming, map[], p.createdAt, now), HIGHER_CONFIDENCE, now)
         == p.(fields := Merged(p.fields, incoming, HIGHER_CONFIDENCE), updatedAt := now)
  {
    assert p.metadata + map[] == p.metadata;
  }

  /** The dictionary of the extracted facts. */
  method FieldsByKey(extracted: seq<Field>) returns (fields: Fields)
    ensures fields == Incoming(extracted)
  {
    fields := Table([], map[]);
    for i := 0 to |extracted|
      invariant fields == Incoming(extracted[..i])
    {
      Slices(extracted, i);
      fields := fields.Put(extracted[i].key, extracted[i]);
    }
    Whole(extracted);
  }
}
