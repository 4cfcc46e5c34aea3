/**
 What the schema's keywords say of a parsed JSON value (skills/archipelago/protocol/scripts/validate_contracts.py):
 what `==` decides for `const` and `enum`, which values have which type, and where keywords are looked up.
 */
module SchemaMeaning {
  import opened Outcomes
  import opened SchemaInterpreter
  import opened Sequences

  /** A value without what equality ignores: numbers and booleans by their number, objects as maps. */
  datatype Meaning =
    | NoValue | Number(x: real) | Text(s: string) | List(items: seq<Meaning>) | Dict(fields: map<string, Meaning>)

  function MeaningOf(v: Json): (r: Meaning)
    decreases v
  {
    match v
    case Null => NoValue
    case Bool(b) => Number(if b then 1.0 else 0.0)
    case Int(n) => Number(n as real)
    case Float(x) => Number(x)
    case Str(s) => Text(s)
    case Arr(items) => List(seq(|items|, i requires 0 <= i < |items| => MeaningOf(items[i])))
    case Obj(fields) => Dict(FieldsOf(fields))
  }

  function FieldsOf(fields: seq<Field>): (r: map<string, Meaning>)
    decreases fields
  {
    if fields == [] then map[] else FieldsOf(fields[1..])[fields[0].key := MeaningOf(fields[0].value)]
  }

  function KeysOf(fields: seq<Field>): (r: seq<string>)
    ensures |r| == |fields| && forall i :: 0 <= i < |r| ==> r[i] == fields[i].key
  {
    seq(|fields|, i requires 0 <= i < |fields| => fields[i].key)
  }

  ghost predicate DistinctKeys(fields: seq<Field>) {
    forall i, j :: 0 <= i < j < |fields| ==> fields[i].key != fields[j].key
  }

  /** Parsed: no object repeats a key. */
  ghost predicate Parsed(v: Json)
    decreases v
  {
    match v
    case Arr(items) => forall i :: 0 <= i < |items| ==> Parsed(items[i])
    case Obj(fields) => DistinctKeys(fields) && forall i :: 0 <= i < |fields| ==> Parsed(fields[i].value)
    case _ => true
  }

  // ---------- Objects ----------

  lemma {:induction false} FieldsAt(fields: seq<Field>, key: string)
    ensures key in FieldsOf(fields) <==> At(fields, key).Some?
    ensures At(fields, key).Some? ==> FieldsOf(fields)[key] == MeaningOf(At(fields, key).value)
    ensures At(fields, key).Some? <==> key in KeysOf(fields)
  {
    if fields == [] {
    } else {
      FieldsAt(fields[1..], key);
      assert KeysOf(fields) == [fields[0].key] + KeysOf(fields[1..]);
    }
  }

  lemma {:induction false} AtOwn(fields: seq<Field>, i: nat)
    requires DistinctKeys(fields) && i < |fields|
    ensures At(fields, fields[i].key) == Some(fields[i].value)
  {
    if i == 0 {
    } else {
      AtOwn(fields[1..], i - 1);
    }
  }

  lemma {:induction false} KeyCount(fields: seq<Field>)
    requires DistinctKeys(fields)
    ensures |FieldsOf(fields).Keys| == |fields|
  {
    CountsAsSetIsDistinct(KeysOf(fields));
    forall key ensures key in FieldsOf(fields) <==> key in KeysOf(fields) { FieldsAt(fields, key); }
    assert FieldsOf(fields).Keys == set k | k in KeysOf(fields);
  }

  lemma SameSizeSubset<T>(a: set<T>, b: set<T>)
    requires a <= b && |a| == |b|
    ensures a == b
  {
    assert b == a + (b - a);
  }

  /** Field by field equality, as the comparison does it, is equality of the maps. */
  lemma {:induction false} FieldsMatchIff(a: seq<Field>, b: seq<Field>)
    requires DistinctKeys(a) && DistinctKeys(b)
    ensures FieldsOf(a) == FieldsOf(b) <==>
            |a| == |b| && forall i :: 0 <= i < |a| ==>
              At(b, a[i].key).Some? && MeaningOf(a[i].value) == MeaningOf(At(b, a[i].key).value)
  {
    KeyCount(a);
    KeyCount(b);
    forall i | 0 <= i < |a|
      ensures a[i].key in FieldsOf(a) && FieldsOf(a)[a[i].key] == MeaningOf(a[i].value)
      ensures At(b, a[i].key).Some? <==> a[i].key in FieldsOf(b)
      ensures At(b, a[i].key).Some? ==> FieldsOf(b)[a[i].key] == MeaningOf(At(b, a[i].key).value)
    {
      AtOwn(a, i);
      FieldsAt(a, a[i].key);
      FieldsAt(b, a[i].key);
    }
    forall key | key in FieldsOf(a) ensures exists i :: 0 <= i < |a| && a[i].key == key {
      FieldsAt(a, key);
      assert key in KeysOf(a);
    }
    if |a| == |b| && forall i :: 0 <= i < |a| ==>
         At(b, a[i].key).Some? && MeaningOf(a[i].value) == MeaningOf(At(b, a[i].key).value)
    {
      SameSizeSubset(FieldsOf(a).Keys, FieldsOf(b).Keys);
    }
  }

  // ---------- Equality ----------

  /** Two parsed values are equal exactly when they mean the same. */
  lemma {:induction false} EqualIffSameMeaning(a: Json, b: Json)
    requires Parsed(a) && Parsed(b)
    ensures Equal(a, b) <==> MeaningOf(a) == MeaningOf(b)
    decreases a
  {
    match a
    case Arr(items) =>
      if b.Arr? && |items| == |b.items| {
        forall i | 0 <= i < |items|
          ensures Equal(items[i], b.items[i]) <==> MeaningOf(items[i]) == MeaningOf(b.items[i])
        {
          EqualIffSameMeaning(items[i], b.items[i]);
        }
        ListsMatchIff(items, b.items);
      } else if b.Arr? {
        assert |MeaningOf(a).items| != |MeaningOf(b).items|;
      }
    case Obj(fields) =>
      if b.Obj? { EqualObjects(fields, b.fields); }
    case _ =>
  }

  lemma ListsMatchIff(a: seq<Json>, b: seq<Json>)
    requires |a| == |b|
    ensures MeaningOf(Arr(a)) == MeaningOf(Arr(b)) <==>
            forall i :: 0 <= i < |a| ==> MeaningOf(a[i]) == MeaningOf(b[i])
  {
    var x, y := MeaningOf(Arr(a)).items, MeaningOf(Arr(b)).items;
    assert |x| == |y| == |a| && forall i :: 0 <= i < |a| ==> x[i] == MeaningOf(a[i]) && y[i] == MeaningOf(b[i]);
    if x == y {
      forall i | 0 <= i < |a| ensures MeaningOf(a[i]) == MeaningOf(b[i]) { assert x[i] == y[i]; }
    }
  }

  lemma {:induction false} EqualObjects(a: seq<Field>, b: seq<Field>)
    requires Parsed(Obj(a)) && Parsed(Obj(b))
    ensures Equal(Obj(a), Obj(b)) <==> FieldsOf(a) == FieldsOf(b)
    decreases a
  {
    FieldsMatchIff(a, b);
    forall i | 0 <= i < |a| && At(b, a[i].key).Some?
      ensures Equal(a[i].value, At(b, a[i].key).value) <==>
              MeaningOf(a[i].value) == MeaningOf(At(b, a[i].key).value)
    {
      var j :| 0 <= j < |b| && b[j] == Field(a[i].key, At(b, a[i].key).value);
      assert Parsed(b[j].value);
      EqualIffSameMeaning(a[i].value, At(b, a[i].key).value);
    }
  }

  /** Equality is an equivalence. */
  lemma {:induction false} EqualIsEquivalence(a: Json, b: Json, c: Json)
    requires Parsed(a) && Parsed(b) && Parsed(c)
    ensures Equal(a, a)
    ensures Equal(a, b) ==> Equal(b, a)
    ensures Equal(a, b) && Equal(b, c) ==> Equal(a, c)
  {
    EqualIffSameMeaning(a, a);
    EqualIffSameMeaning(a, b);
    EqualIffSameMeaning(b, a);
    EqualIffSameMeaning(b, c);
    EqualIffSameMeaning(a, c);
  }

  /** Both objects have an equal value under the key, or neither has one. */
  ghost predicate SameUnder(a: seq<Field>, b: seq<Field>, key: string) {
    At(a, key).Some? == At(b, key).Some? && (At(a, key).Some? ==> Equal(At(a, key).value, At(b, key).value))
  }

  lemma {:induction false} SameUnderIff(a: seq<Field>, b: seq<Field>, key: string)
    requires Parsed(Obj(a)) && Parsed(Obj(b))
    ensures SameUnder(a, b, key) <==> SameEntry(FieldsOf(a), FieldsOf(b), key)
  {
    FieldsAt(a, key);
    FieldsAt(b, key);
    if At(a, key).Some? && At(b, key).Some? { EqualIffSameMeaning(At(a, key).value, At(b, key).value); }
  }

  ghost predicate SameEntry(x: map<string, Meaning>, y: map<string, Meaning>, key: string) {
    (key in x) == (key in y) && (key in x ==> x[key] == y[key])
  }

  lemma SameEntries(x: map<string, Meaning>, y: map<string, Meaning>)
    ensures x == y <==> forall key :: SameEntry(x, y, key)
  {
    if forall key :: SameEntry(x, y, key) {
      forall key ensures key in x <==> key in y { assert SameEntry(x, y, key); }
      assert x.Keys == y.Keys;
      forall key | key in x ensures x[key] == y[key] { assert SameEntry(x, y, key); }
    }
  }

  lemma ObjectsByKey(a: seq<Field>, b: seq<Field>)
    requires Parsed(Obj(a)) && Parsed(Obj(b))
    ensures Equal(Obj(a), Obj(b)) <==> forall key :: SameUnder(a, b, key)
  {
    EqualObjects(a, b);
    SameEntries(FieldsOf(a), FieldsOf(b));
    forall key ensures SameUnder(a, b, key) <==> SameEntry(FieldsOf(a), FieldsOf(b), key) {
      SameUnderIff(a, b, key);
    }
  }

  /** What that says kind by kind. */
  lemma {:induction false} EqualByKind(a: Json, b: Json)
    requires Parsed(a) && Parsed(b)
    ensures a.Null? ==> (Equal(a, b) <==> b.Null?)
    ensures a.Str? ==> (Equal(a, b) <==> b == a)
    ensures a.Int? && b.Int? ==> (Equal(a, b) <==> a.n == b.n)
    ensures a.Bool? && b.Bool? ==> (Equal(a, b) <==> a.b == b.b)
    ensures a.Bool? && b.Int? ==> (Equal(a, b) <==> b.n == if a.b then 1 else 0)
    ensures a.Int? && b.Float? ==> (Equal(a, b) <==> b.x == a.n as real)
    ensures a.Arr? ==>
              (Equal(a, b) <==>
                 b.Arr? && |a.items| == |b.items| && forall i :: 0 <= i < |a.items| ==> Equal(a.items[i], b.items[i]))
    ensures a.Obj? && !b.Obj? ==> !Equal(a, b)
    ensures a.Obj? && b.Obj? ==>
              (Equal(a, b) <==> forall key :: SameUnder(a.fields, b.fields, key))
  {
    if a.Obj? && b.Obj? { ObjectsByKey(a.fields, b.fields); }
  }

  /** An enumeration of texts is met exactly by the texts it lists. */
  lemma {:induction false} EnumOfTexts(rule: Rule, texts: seq<string>, value: Json)
    requires rule.constant.None? && rule.enumeration.Some? && |rule.enumeration.value| == |texts| && Parsed(value)
    requires forall i :: 0 <= i < |texts| ==> rule.enumeration.value[i] == Str(texts[i])
    ensures EqualityOk(rule, value) <==> value.Str? && value.s in texts
  {
    forall i | 0 <= i < |texts| ensures Equal(value, rule.enumeration.value[i]) <==> value == Str(texts[i]) {
      EqualIffSameMeaning(value, rule.enumeration.value[i]);
    }
  }

  // ---------- Types ----------

  /** The seven type names: an integer is a number, a boolean is not, and no other name has values. */
  lemma TypeNames(value: Json, name: string)
    ensures IsType(value, "null") <==> value.Null?
    ensures IsType(value, "boolean") <==> value.Bool?
    ensures IsType(value, "integer") <==> value.Int?
    ensures IsType(value, "number") <==> value.Int? || value.Float?
    ensures IsType(value, "string") <==> value.Str?
    ensures IsType(value, "array") <==> value.Arr?
    ensures IsType(value, "object") <==> value.Obj?
    ensures IsType(value, name) ==>
              name in {"null", "boolean", "integer", "number", "string", "array", "object"}
  {
  }

  // ---------- Keywords ----------

  /** The keywords about the value itself, with equality by meaning and each bound on its own. */
  lemma {:induction false} ScalarIff(oracles: Oracles, rule: Rule, value: Json)
    requires Parsed(value) && (rule.constant.Some? ==> Parsed(rule.constant.value))
    requires rule.enumeration.Some? ==>
               forall i :: 0 <= i < |rule.enumeration.value| ==> Parsed(rule.enumeration.value[i])
    ensures ScalarOk(oracles, rule, value) <==>
            (rule.constant.Some? ==> MeaningOf(value) == MeaningOf(rule.constant.value)) &&
            (rule.enumeration.Some? ==>
               exists i :: 0 <= i < |rule.enumeration.value| &&
                           MeaningOf(value) == MeaningOf(rule.enumeration.value[i])) &&
            (value.Str? ==>
               |value.s| >= rule.minLength &&
               (rule.pattern.Some? ==> oracles.matches(rule.pattern.value, value.s)) &&
               (rule.dateTime ==> oracles.isDateTime(value.s))) &&
            (value.Int? ==> WithinBounds(rule, value.n as real)) && (value.Float? ==> WithinBounds(rule, value.x))
  {
    if rule.constant.Some? { EqualIffSameMeaning(value, rule.constant.value); }
    if rule.enumeration.Some? {
      forall i | 0 <= i < |rule.enumeration.value|
        ensures Equal(value, rule.enumeration.value[i]) <==> MeaningOf(value) == MeaningOf(rule.enumeration.value[i])
      {
        EqualIffSameMeaning(value, rule.enumeration.value[i]);
      }
    }
  }

  /** Minimum and maximum may be met; the exclusive minimum must be passed. */
  predicate WithinBounds(rule: Rule, x: real) {
    (rule.minimum.None? || x >= rule.minimum.value) && (rule.maximum.None? || x <= rule.maximum.value) &&
    (rule.exclusiveMinimum.None? || x > rule.exclusiveMinimum.value)
  }

  /** An object has every required key, and no key without a property rule if it is closed. */
  lemma {:induction false} PresenceIff(rule: Rule, fields: seq<Field>)
    ensures PresenceOk(rule, fields) <==>
            (forall key :: key in rule.required ==> At(fields, key).Some?) &&
            (rule.closed ==> forall key :: At(fields, key).Some? ==> Walk(rule, ["properties", key]).Some?)
  {
    forall key ensures HasField(fields, key) <==> At(fields, key).Some? { AtIffField(fields, key); }
    forall key ensures Property(rule, key) == Walk(rule, ["properties", key]) { PropertyIsWalk(rule, key); }
    if forall key :: key in rule.required ==> At(fields, key).Some? {
      forall i | 0 <= i < |rule.required| ensures HasField(fields, rule.required[i]) {
        assert rule.required[i] in rule.required;
      }
    }
    if forall key :: At(fields, key).Some? ==> Walk(rule, ["properties", key]).Some? {
      forall i | 0 <= i < |fields| ensures Property(rule, fields[i].key).Some? {
        assert HasField(fields, fields[i].key);
      }
    }
  }

  lemma {:induction false} AtIffField(fields: seq<Field>, key: string)
    ensures At(fields, key).Some? <==> HasField(fields, key)
  {
    if fields == [] {
    } else {
      AtIffField(fields[1..], key);
      if HasField(fields, key) && fields[0].key != key {
        var i :| 0 <= i < |fields| && fields[i].key == key;
        assert fields[1..][i - 1].key == key;
      }
    }
  }

  /** The rule for items, and the rule for a property, lie where the keywords say. */
  lemma {:induction false} PropertyIsWalk(rule: Rule, key: string)
    ensures Items(rule) == Walk(rule, ["items"])
    ensures Property(rule, key) == Walk(rule, ["properties", key])
  {
    assert ["items"][1..] == [] && ["properties", key][1..] == [key] && [key][1..] == [];
    if Items(rule).Some? { assert Walk(Items(rule).value, []) == Items(rule); }
    if MemberAt(rule, "properties").Some? {
      var properties := MemberAt(rule, "properties").value;
      assert Walk(properties, [key]) == MemberAt(properties, key);
    }
  }
}
