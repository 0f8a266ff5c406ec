/** The JSON-Schema subset both validators share (_jsonschema.py). */
module Schemas {
  import opened Prelude

  type Key(==, !new)
  type Text(==, !new)

  datatype Value =
    | Null
    | Bool(b: bool)
    | Int(i: int)
    | Float(r: real)
    | Str(text: Text)
    | List(items: seq<Value>)
    | Object(fields: map<Key, Value>)
    | Foreign                          // any other object

  datatype TypeName = OBJECT | ARRAY | STRING | NUMBER | INTEGER | BOOLEAN | NULL | UNKNOWN(name: Text)

  /** `properties` in the order the dictionary lists them. */
  datatype Schema = Schema(kind: Option<TypeName>, required: seq<Key>, properties: seq<Property>)

  datatype Property = Property(key: Key, schema: Schema)

  datatype Problem = BooleanForInteger | WrongType(expected: TypeName) | MissingProperty

  datatype Error = Error(path: seq<Key>, problem: Problem)

  /** The runtime classes of a type name. Booleans are integers to this test; tuples count as lists. */
  predicate IsInstance(v: Value, t: TypeName) {
    match t
    case OBJECT => v.Object?
    case ARRAY => v.List?
    case STRING => v.Str?
    case NUMBER => v.Int? || v.Float? || v.Bool?
    case INTEGER => v.Int? || v.Bool?
    case BOOLEAN => v.Bool?
    case NULL => v.Null?
    case UNKNOWN(_) => true
  }

  // ---- the walk --------------------------------------------------------

  function FirstError(s: Schema, v: Value): Option<Error> {
    Walk(v, s, [])
  }

  function Walk(v: Value, s: Schema, path: seq<Key>): Option<Error>
    decreases s, 1
  {
    if s.kind.Some? && s.kind.value.UNKNOWN? then None
    else if s.kind == Some(INTEGER) && v.Bool? then Some(Error(path, BooleanForInteger))
    else if s.kind == Some(BOOLEAN) && !v.Bool? then Some(Error(path, WrongType(BOOLEAN)))
    else if s.kind.Some? && !IsInstance(v, s.kind.value) then Some(Error(path, WrongType(s.kind.value)))
    else if s.kind == Some(OBJECT) && v.Object? then
      var missing := WalkRequired(v.fields, s.required, path);
      if missing.Some? then missing else WalkProperties(v.fields, s, 0, path)
    else None
  }

  function WalkRequired(fields: map<Key, Value>, required: seq<Key>, path: seq<Key>): Option<Error> {
    if required == [] then None
    else if required[0] !in fields then Some(Error(path + [required[0]], MissingProperty))
    else WalkRequired(fields, required[1..], path)
  }

  /** The properties from place `from` on. */
  function WalkProperties(fields: map<Key, Value>, s: Schema, from: nat, path: seq<Key>): Option<Error>
    requires from <= |s.properties|
    decreases s, 0, |s.properties| - from
  {
    if from == |s.properties| then None
    else
      var key := s.properties[from].key;
      var error := if key in fields then Walk(fields[key], s.properties[from].schema, path + [key]) else None;
      if error.Some? then error else WalkProperties(fields, s, from + 1, path)
  }

  // ---- what the subset means -------------------------------------------

  /** The value is of the named type; unlike the runtime classes, no boolean is an integer. An unknown type asks
      nothing. */
  predicate HasType(v: Value, t: TypeName) {
    match v
    case Null => t == NULL || t.UNKNOWN?
    case Bool(_) => t == BOOLEAN || t == NUMBER || t.UNKNOWN?
    case Int(_) => t == INTEGER || t == NUMBER || t.UNKNOWN?
    case Float(_) => t == NUMBER || t.UNKNOWN?
    case Str(_) => t == STRING || t.UNKNOWN?
    case List(_) => t == ARRAY || t.UNKNOWN?
    case Object(_) => t == OBJECT || t.UNKNOWN?
    case Foreign => t.UNKNOWN?
  }

  /** `required` and `properties` bear on values only under type "object"; a property, only when it is present. */
  ghost predicate Conforms(v: Value, s: Schema)
    decreases s
  {
    s.kind.Some? ==>
      && HasType(v, s.kind.value)
      && (s.kind.value == OBJECT ==>
            && (forall k :: k in s.required ==> k in v.fields)
            && (forall i :: 0 <= i < |s.properties| && s.properties[i].key in v.fields ==>
                  Conforms(v.fields[s.properties[i].key], s.properties[i].schema)))
  }

  /** The mismatch of a value with the type its schema names. */
  function TypeProblem(v: Value, t: TypeName): Problem {
    if t == INTEGER && v.Bool? then BooleanForInteger else WrongType(t)
  }

  /** The violation at `path` is the first: nothing before it, types first, then `required` in order, then `properties`
      in order, is violated, and it is one. */
  ghost predicate FirstViolation(v: Value, s: Schema, path: seq<Key>, problem: Problem)
    decreases s
  {
    && s.kind.Some?
    && if !HasType(v, s.kind.value) then path == [] && problem == TypeProblem(v, s.kind.value)
       else
         && s.kind.value == OBJECT && path != []
         && if exists k :: k in s.required && k !in v.fields
            then |path| == 1 && problem == MissingProperty && FirstMissing(v.fields, s.required, path[0])
            else exists i :: 0 <= i < |s.properties| && FirstBroken(v, s, i)
                   && s.properties[i].key == path[0]
                       && FirstViolation(v.fields[path[0]], s.properties[i].schema, path[1..], problem)
  }

  ghost predicate FirstMissing(fields: map<Key, Value>, required: seq<Key>, key: Key) {
    exists i :: 0 <= i < |required| && required[i] == key && key !in fields
                && forall j :: 0 <= j < i ==> required[j] in fields
  }

  ghost predicate Broken(v: Value, property: Property)
    requires v.Object?
  {
    property.key in v.fields && !Conforms(v.fields[property.key], property.schema)
  }

  ghost predicate FirstBroken(v: Value, s: Schema, i: nat)
    requires v.Object? && i < |s.properties|
  {
    Broken(v, s.properties[i]) && forall j :: 0 <= j < i ==> !Broken(v, s.properties[j])
  }

  // ---- the walk decides conformance ------------------------------------

  lemma {:induction false} RequiredWalk(fields: map<Key, Value>, required: seq<Key>, path: seq<Key>)
    ensures WalkRequired(fields, required, path) == None <==> forall k :: k in required ==> k in fields
    ensures WalkRequired(fields, required, path).Some? ==>
              exists key :: FirstMissing(fields, required, key)
                  && WalkRequired(fields, required, path).value == Error(path + [key], MissingProperty)
  {
    if required != [] {
      if required[0] in fields {
        RequiredWalk(fields, required[1..], path);
        if WalkRequired(fields, required, path).Some? {
          var key :| FirstMissing(fields, required[1..], key)
                     && WalkRequired(fields, required, path).value == Error(path + [key], MissingProperty);
          var i :| 0 <= i < |required[1..]| && required[1..][i] == key && key !in fields
                   && forall j :: 0 <= j < i ==> required[1..][j] in fields;
          assert required[i + 1] == key;
          assert forall j :: 0 <= j < i + 1 ==> j == 0 || required[j] == required[1..][j - 1];
          assert FirstMissing(fields, required, key);
        }
      } else {
        assert FirstMissing(fields, required, required[0]);
      }
    }
  }

  /** `first_error` is None exactly when the value conforms. */
  lemma {:induction false} WalkDecides(v: Value, s: Schema, path: seq<Key>)
    ensures Walk(v, s, path) == None <==> Conforms(v, s)
    decreases s, 1
  {
    if s.kind == Some(OBJECT) && v.Object? {
      RequiredWalk(v.fields, s.required, path);
      PropertiesDecide(v, s, 0, path);
    }
  }

  lemma {:induction false} PropertiesDecide(v: Value, s: Schema, from: nat, path: seq<Key>)
    requires v.Object? && from <= |s.properties|
    ensures WalkProperties(v.fields, s, from, path) == None
       <==> forall i :: from <= i < |s.properties| ==> !Broken(v, s.properties[i])
    decreases s, 0, |s.properties| - from
  {
    if from < |s.properties| {
      var key := s.properties[from].key;
      if key in v.fields { WalkDecides(v.fields[key], s.properties[from].schema, path + [key]); }
      PropertiesDecide(v, s, from + 1, path);
    }
  }

  /** A reported error is the first violation: its path leads to it, and everything before it conforms. */
  lemma {:induction false} WalkReportsTheFirstViolation(v: Value, s: Schema, path: seq<Key>)
    requires Walk(v, s, path).Some?
    ensures var e := Walk(v, s, path).value;
            |path| <= |e.path| && e.path[..|path|] == path && FirstViolation(v, s, e.path[|path|..], e.problem)
    decreases s, 1
  {
    if s.kind == Some(OBJECT) && v.Object? {
      RequiredWalk(v.fields, s.required, path);
      if WalkRequired(v.fields, s.required, path).Some? {
        var key :| FirstMissing(v.fields, s.required, key)
            && Walk(v, s, path).value == Error(path + [key], MissingProperty);
      } else {
        var i := PropertiesReport(v, s, 0, path);
      }
    }
  }

  lemma {:induction false} PropertiesReport(v: Value, s: Schema, from: nat, path: seq<Key>) returns (i: nat)
    requires v.Object? && from <= |s.properties|
    requires forall j :: 0 <= j < from ==> !Broken(v, s.properties[j])
    requires WalkProperties(v.fields, s, from, path).Some?
    ensures i < |s.properties| && FirstBroken(v, s, i)
    ensures var e := WalkProperties(v.fields, s, from, path).value;
            |path| < |e.path| && e.path[..|path|] == path && e.path[|path|] == s.properties[i].key
            && FirstViolation(v.fields[s.properties[i].key], s.properties[i].schema, e.path[|path| + 1..], e.problem)
    decreases s, 0, |s.properties| - from
  {
    var Property(key, sub) := s.properties[from];
    if key in v.fields { WalkDecides(v.fields[key], sub, path + [key]); }
    if key in v.fields && Walk(v.fields[key], sub, path + [key]).Some? {
      i := from;
      WalkReportsTheFirstViolation(v.fields[key], sub, path + [key]);
      var e := Walk(v.fields[key], sub, path + [key]).value;
      assert e.path[..|path|] == e.path[..|path| + 1][..|path|] == path;
      assert e.path[|path|] == e.path[..|path| + 1][|path|] == key;
    } else {
      i := PropertiesReport(v, s, from + 1, path);
    }
  }

  /** `first_error` finds nothing in a conforming value, and the first violation in any other. */
  lemma FirstErrorIsExact(s: Schema, v: Value)
    ensures FirstError(s, v) == None <==> Conforms(v, s)
    ensures FirstError(s, v).Some? ==> FirstViolation(v, s, FirstError(s, v).value.path, FirstError(s, v).value.problem)
  {
    WalkDecides(v, s, []);
    if FirstError(s, v).Some? {
      WalkReportsTheFirstViolation(v, s, []);
      assert FirstError(s, v).value.path[0..] == FirstError(s, v).value.path;
    }
  }

  /** There is only one first violation. */
  lemma {:induction false} FirstViolationIsUnique(v: Value, s: Schema, p: seq<Key>, q: seq<Key>, a: Problem, b: Problem)
    requires FirstViolation(v, s, p, a) && FirstViolation(v, s, q, b)
    ensures p == q && a == b
    decreases s
  {
    if HasType(v, s.kind.value) {
      if exists k :: k in s.required && k !in v.fields {
        assert p == [p[0]] && q == [q[0]];
      } else {
        var i :| 0 <= i < |s.properties| && FirstBroken(v, s, i)
                 && s.properties[i].key == p[0] && FirstViolation(v.fields[p[0]], s.properties[i].schema, p[1..], a);
        var j :| 0 <= j < |s.properties| && FirstBroken(v, s, j)
                 && s.properties[j].key == q[0] && FirstViolation(v.fields[q[0]], s.properties[j].schema, q[1..], b);
        assert i == j;
        FirstViolationIsUnique(v.fields[p[0]], s.properties[i].schema, p[1..], q[1..], a, b);
        assert p == [p[0]] + p[1..] && q == [q[0]] + q[1..];
      }
    }
  }
}
