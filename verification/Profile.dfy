/** User profiles and their merge (continuity/profile.py). */
module Profiles {
  import opened Prelude

  type FieldKey(==, !new)
  type Payload(==, !new)
  type UserId(==, !new)

  /** The writer's label; the empty string and "user" are told apart because reloading treats them so. */
  datatype Source = EMPTY | USER | LABEL(name: Name)

  datatype Field = Field(key: FieldKey, value: Payload, confidence: real, source: Source, updatedAt: real)

  type Fields = Dict<FieldKey, Field>

  datatype Profile = Profile(userId: UserId, fields: Fields, metadata: map<Name, Payload>, createdAt: real,
                             updatedAt: real)

  datatype Strategy = SELF | OTHER | HIGHER_CONFIDENCE

  // ---- merging ---------------------------------------------------------

  /** Which of two fields for one key the strategy keeps; ties of confidence go to the first. */
  function Preferred(mine: Field, theirs: Field, prefer: Strategy): Field {
    match prefer
    case SELF => mine
    case OTHER => theirs
    case HIGHER_CONFIDENCE => if theirs.confidence > mine.confidence then theirs else mine
  }

  function Chosen(mine: Option<Field>, theirs: Option<Field>, prefer: Strategy): Option<Field> {
    if mine.None? then theirs else if theirs.None? then mine else Some(Preferred(mine.value, theirs.value, prefer))
  }

  /** Key by key, in the order of `other`. */
  function MergedOver(fields: Fields, other: Fields, keys: seq<FieldKey>, prefer: Strategy): Fields
    requires forall k :: k in keys ==> k in other.entries
  {
    if keys == [] then fields
    else
      var merged, k := MergedOver(fields, other, keys[..|keys| - 1], prefer), keys[|keys| - 1];
      merged.Put(k, Chosen(merged.Get(k), other.Get(k), prefer).value)
  }

  function Merged(a: Fields, b: Fields, prefer: Strategy): Fields {
    MergedOver(a, b, b.keys, prefer)
  }

  lemma {:induction false} MergedOverIsPointwise(fields: Fields, other: Fields, keys: seq<FieldKey>, prefer: Strategy)
    requires Distinct(keys) && forall k :: k in keys ==> k in other.entries
    ensures forall k :: MergedOver(fields, other, keys, prefer).Get(k)
                     == if k in keys then Chosen(fields.Get(k), other.Get(k), prefer) else fields.Get(k)
  {
    if keys != [] {
      var last := |keys| - 1;
      assert forall i :: 0 <= i < last ==> keys[i] != keys[last];
      MergedOverIsPointwise(fields, other, keys[..last], prefer);
    }
  }

  /** A merge decides each key on its own. */
  lemma MergeIsPointwise(a: Fields, b: Fields, prefer: Strategy)
    ensures forall k :: Merged(a, b, prefer).Get(k) == Chosen(a.Get(k), b.Get(k), prefer)
  {
    MergedOverIsPointwise(a, b, b.keys, prefer);
    assert forall k :: k !in b.keys ==> b.Get(k) == None;
  }

  /** Which field a merge keeps, in plain terms: what only one of the two profiles has; of two fields for a key the
      first profile's under "self", the second's under "other", and otherwise the surer one, the first profile's in a
      tie. */
  lemma MergeInPlainTerms(a: Fields, b: Fields, k: FieldKey)
    requires k in a.entries || k in b.entries
    ensures k in Merged(a, b, SELF).entries && k in Merged(a, b, OTHER).entries
    ensures k in Merged(a, b, HIGHER_CONFIDENCE).entries
    ensures k in a.entries ==> Merged(a, b, SELF).entries[k] == a.entries[k]
    ensures k in b.entries ==> Merged(a, b, OTHER).entries[k] == b.entries[k]
    ensures var kept := Merged(a, b, HIGHER_CONFIDENCE).entries[k];
            && ((k in a.entries && kept == a.entries[k]) || (k in b.entries && kept == b.entries[k]))
            && (k in a.entries ==> a.entries[k].confidence <= kept.confidence)
            && (k in b.entries ==> b.entries[k].confidence <= kept.confidence)
            && (k in a.entries && a.entries[k].confidence == kept.confidence ==> kept == a.entries[k])
    ensures k !in a.entries ==> Merged(a, b, SELF).entries[k] == b.entries[k]
    ensures k !in b.entries ==> Merged(a, b, OTHER).entries[k] == a.entries[k]
  {
    MergeIsPointwise(a, b, SELF);
    MergeIsPointwise(a, b, OTHER);
    MergeIsPointwise(a, b, HIGHER_CONFIDENCE);
    assert Merged(a, b, SELF).Get(k) == Chosen(a.Get(k), b.Get(k), SELF);
    assert Merged(a, b, OTHER).Get(k) == Chosen(a.Get(k), b.Get(k), OTHER);
    assert Merged(a, b, HIGHER_CONFIDENCE).Get(k) == Chosen(a.Get(k), b.Get(k), HIGHER_CONFIDENCE);
  }

  /** Equal as dictionaries: the order of the keys does not matter. */
  ghost predicate Same(a: Fields, b: Fields) {
    forall k :: a.Get(k) == b.Get(k)
  }

  lemma MergeIsAssociative(a: Fields, b: Fields, c: Fields, prefer: Strategy)
    ensures Same(Merged(Merged(a, b, prefer), c, prefer), Merged(a, Merged(b, c, prefer), prefer))
  {
    MergeIsPointwise(a, b, prefer);
    MergeIsPointwise(b, c, prefer);
    MergeIsPointwise(Merged(a, b, prefer), c, prefer);
    MergeIsPointwise(a, Merged(b, c, prefer), prefer);
  }

  /** Merging a profile with itself changes nothing. */
  lemma MergeIsIdempotent(a: Fields, prefer: Strategy)
    ensures Same(Merged(a, a, prefer), a)
  {
    MergeIsPointwise(a, a, prefer);
  }

  /** "self" and "other" are mirror images. */
  lemma SelfMirrorsOther(a: Fields, b: Fields)
    ensures Same(Merged(a, b, SELF), Merged(b, a, OTHER))
  {
    MergeIsPointwise(a, b, SELF);
    MergeIsPointwise(b, a, OTHER);
  }

  /** A merge has the keys of both. */
  lemma MergeKeepsEveryKey(a: Fields, b: Fields, prefer: Strategy)
    ensures Merged(a, b, prefer).entries.Keys == a.entries.Keys + b.entries.Keys
  {
    MergeIsPointwise(a, b, prefer);
    forall k ensures k in Merged(a, b, prefer).entries <==> k in a.entries || k in b.entries {
      assert Merged(a, b, prefer).Get(k) == Chosen(a.Get(k), b.Get(k), prefer);
    }
  }

  function MergedAll(profiles: seq<Fields>): Fields {
    if profiles == [] then Table([], map[])
    else Merged(MergedAll(profiles[..|profiles| - 1]), profiles[|profiles| - 1], HIGHER_CONFIDENCE)
  }

  /** Profile `i` has the field, none has a surer one, and none before it one as sure. */
  ghost predicate LeftmostSurest(profiles: seq<Fields>, k: FieldKey, i: int) {
    && 0 <= i < |profiles| && k in profiles[i].entries
    && (forall j :: 0 <= j < |profiles| && k in profiles[j].entries ==>
          profiles[j].entries[k].confidence <= profiles[i].entries[k].confidence)
    && (forall j :: 0 <= j < i && k in profiles[j].entries ==>
          profiles[j].entries[k].confidence < profiles[i].entries[k].confidence)
  }

  /** Folding merges keeps, for each key, the leftmost of the surest fields; a key no profile has stays absent. */
  lemma {:induction false} FoldKeepsTheLeftmostSurest(profiles: seq<Fields>, k: FieldKey)
    ensures match MergedAll(profiles).Get(k)
            case None => forall j :: 0 <= j < |profiles| ==> k !in profiles[j].entries
            case Some(f) => exists i :: LeftmostSurest(profiles, k, i) && profiles[i].entries[k] == f
  {
    if profiles != [] {
      var earlier, last := profiles[..|profiles| - 1], profiles[|profiles| - 1];
      FoldKeepsTheLeftmostSurest(earlier, k);
      MergeIsPointwise(MergedAll(earlier), last, HIGHER_CONFIDENCE);
      assert profiles == earlier + [last];
      LeftmostSurestOneMore(earlier, last, k);
    }
  }

  /** A further profile displaces the leftmost surest field only with a surer one. */
  lemma LeftmostSurestOneMore(profiles: seq<Fields>, last: Fields, k: FieldKey)
    ensures k in last.entries && (forall j :: 0 <= j < |profiles| && k in profiles[j].entries ==>
              profiles[j].entries[k].confidence < last.entries[k].confidence)
            ==> LeftmostSurest(profiles + [last], k, |profiles|)
    ensures forall i ::
              LeftmostSurest(profiles, k, i)
              && (k in last.entries ==> last.entries[k].confidence <= profiles[i].entries[k].confidence)
              ==> LeftmostSurest(profiles + [last], k, i)
  {
  }

  // ---- serialization ---------------------------------------------------

  /** A field as JSON holds it. */
  datatype FieldDict = FieldDict(key: FieldKey, value: Payload, confidence: real, source: Source, updatedAt: real)

  datatype ProfileDict = ProfileDict(
    userId: UserId, fields: Dict<FieldKey, FieldDict>, metadata: map<Name, Payload>, createdAt: real, updatedAt: real)

  function FieldToDict(f: Field): FieldDict {
    FieldDict(f.key, f.value, f.confidence, f.source, f.updatedAt)
  }

  /** Zeros and the empty string count as missing: confidence becomes 1, the source "user", the time `now`. */
  function FieldFromDict(d: FieldDict, now: real): Field {
    Field(d.key, d.value, if d.confidence == 0.0 then 1.0 else d.confidence,
          if d.source == EMPTY then USER else d.source, if d.updatedAt == 0.0 then now else d.updatedAt)
  }

  function FieldsToDict(fields: Fields): Dict<FieldKey, FieldDict> {
    Table(fields.keys, map k | k in fields.entries :: FieldToDict(fields.entries[k]))
  }

  function FieldsFromDict(d: Dict<FieldKey, FieldDict>, now: real): Fields {
    Table(d.keys, map k | k in d.entries :: FieldFromDict(d.entries[k], now))
  }

  function ToDict(p: Profile): ProfileDict {
    ProfileDict(p.userId, FieldsToDict(p.fields), p.metadata, p.createdAt, p.updatedAt)
  }

  function FromDict(d: ProfileDict, now: real): Profile {
    Profile(d.userId, FieldsFromDict(d.fields, now), d.metadata, d.createdAt, d.updatedAt)
  }

  predicate Survives(f: Field, now: real) {
    f.confidence != 0.0 && f.source != EMPTY && (f.updatedAt != 0.0 || now == 0.0)
  }

  /** A profile comes back from its dictionary unchanged exactly when no field has zero confidence, an empty source or a
      zero time stamp. */
  lemma RoundTripIff(p: Profile, now: real)
    ensures FromDict(ToDict(p), now) == p <==> forall k :: k in p.fields.entries ==> Survives(p.fields.entries[k], now)
  {
    var back := FieldsFromDict(FieldsToDict(p.fields), now);
    forall k | k in p.fields.entries
        ensures back.entries[k] == p.fields.entries[k] <==> Survives(p.fields.entries[k], now) {
    }
    if forall k :: k in p.fields.entries ==> Survives(p.fields.entries[k], now) {
      assert back.entries == p.fields.entries;
    }
  }

  /** What a field comes back as, in plain terms: confidence 0 as 1, an empty source as "user", time 0 as now. */
  lemma ReadBackInPlainTerms(p: Profile, now: real, k: FieldKey)
    requires k in p.fields.entries
    ensures var f, back := p.fields.entries[k], FromDict(ToDict(p), now).fields.entries[k];
            && back.key == f.key && back.value == f.value
            && (f.confidence != 0.0 ==> back.confidence == f.confidence)
            && (f.confidence == 0.0 ==> back.confidence == 1.0)
            && (f.source != EMPTY ==> back.source == f.source) && (f.source == EMPTY ==> back.source == USER)
            && (f.updatedAt != 0.0 ==> back.updatedAt == f.updatedAt) && (f.updatedAt == 0.0 ==> back.updatedAt == now)
  {
  }

  /** The earlier creation time, except that zero means unknown and yields the first. */
  function MergedCreation(mine: real, theirs: real): real {
    if mine <= theirs then mine else if theirs != 0.0 then theirs else mine
  }

  /** Fields by the strategy; metadata of both, the second's where they clash; the first one's identity. */
  function MergedProfile(a: Profile, b: Profile, prefer: Strategy, now: real): Profile {
    Profile(a.userId, Merged(a.fields, b.fields, prefer), a.metadata + b.metadata,
        MergedCreation(a.createdAt, b.createdAt), now)
  }

  /** A merge knows its owner, the earlier creation, and the second profile's metadata before the first's. */
  lemma MergedRestInPlainTerms(a: Profile, b: Profile, prefer: Strategy, now: real)
    ensures var r := MergedProfile(a, b, prefer, now);
            && r.userId == a.userId && r.updatedAt == now
            && (a.createdAt > 0.0 && b.createdAt > 0.0 ==>
                  r.createdAt <= a.createdAt && r.createdAt <= b.createdAt && r.createdAt in {a.createdAt, b.createdAt})
            && (forall k :: k in b.metadata ==> k in r.metadata && r.metadata[k] == b.metadata[k])
            && (forall k :: k in a.metadata && k !in b.metadata ==> k in r.metadata && r.metadata[k] == a.metadata[k])
            && (forall k :: k in r.metadata ==> k in a.metadata || k in b.metadata)
  {
  }

  // ---- the profile itself ----------------------------------------------

  class UserProfile {
    var userId: UserId
    var fields: Fields
    var metadata: map<Name, Payload>
    var createdAt: real
    var updatedAt: real

    function Now(): Profile
      reads this
    {
      Profile(userId, fields, metadata, createdAt, updatedAt)
    }

    constructor (p: Profile)
      ensures Now() == p
    {
      userId, fields, metadata, createdAt, updatedAt := p.userId, p.fields, p.metadata, p.createdAt, p.updatedAt;
    }

    /** Creates or overwrites a field. */
    method Set(key: FieldKey, value: Payload, source: Source, confidence: real, now: real)
      modifies this
      ensures Now() == old(Now()).(fields := old(fields).Put(key, Field(key, value, confidence, source, now)),
                  updatedAt := now)
    {
      fields := fields.Put(key, Field(key, value, confidence, source, now));
      updatedAt := now;
    }

    /** Removing an absent key changes nothing, not even the time. */
    method Remove(key: FieldKey, now: real)
      modifies this
      ensures Now() == if key in old(fields).entries
                  then old(Now()).(fields := old(fields).Remove(key), updatedAt := now)
                       else old(Now())
    {
      if key in fields.entries {
        fields := fields.Remove(key);
        updatedAt := now;
      }
    }

    /** A new profile; neither of the two changes. */
    method Merge(other: UserProfile, prefer: Strategy, now: real) returns (r: UserProfile)
      ensures fresh(r) && r.Now() == MergedProfile(Now(), other.Now(), prefer, now)
    {
      var merged := fields;
      var theirs := other.fields;
      for i := 0 to |theirs.keys|
        invariant merged == MergedOver(fields, theirs, theirs.keys[..i], prefer)
      {
        Slices(theirs.keys, i);
        merged := MergeKey(merged, theirs, theirs.keys[i], prefer);
      }
      Whole(theirs.keys);
      var earliest := if createdAt <= other.createdAt then createdAt else other.createdAt;
      var created := if earliest != 0.0 then earliest else createdAt;
      r := new UserProfile(Profile(userId, merged, metadata + other.metadata, created, now));
    }
  }

  /** The body of the merge loop. */
  method MergeKey(merged: Fields, theirs: Fields, key: FieldKey, prefer: Strategy) returns (r: Fields)
    requires key in theirs.entries
    ensures r == merged.Put(key, Chosen(merged.Get(key), theirs.Get(key), prefer).value)
  {
    var field := theirs.entries[key];
    var existing := merged.Get(key);
    if existing.None? {
      return merged.Put(key, field);
    }
    if prefer == SELF {
      KeptInPlace(merged, key);
      return merged;
    }
    if prefer == OTHER {
      return merged.Put(key, field);
    }
    if field.confidence > existing.value.confidence {
      return merged.Put(key, field);
    }
    KeptInPlace(merged, key);
    return merged;
  }

  lemma KeptInPlace(fields: Fields, key: FieldKey)
    requires key in fields.entries
    ensures fields.Put(key, fields.entries[key]) == fields
  {
    assert fields.entries[key := fields.entries[key]] == fields.entries;
  }
}
