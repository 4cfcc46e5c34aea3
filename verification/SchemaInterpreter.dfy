/**
 The schema interpreter (skills/archipelago/protocol/scripts/validate_contracts.py, `_validate`).
 A JSON object of the schema is at once a rule and a container that references can walk through.
 */
module SchemaInterpreter {
  import opened Outcomes
  import JsonPointer

  datatype Json =
    | Null | Bool(b: bool) | Int(n: int) | Float(x: real) | Str(s: string)
    | Arr(items: seq<Json>) | Obj(fields: seq<Field>)

  datatype Field = Field(key: string, value: Json)

  /** The keywords `_validate` reads; the members are the object's object-valued fields, by key. */
  datatype Rule = Rule(
    ref: Option<string>, allOf: seq<Rule>, types: Option<seq<string>>,
    constant: Option<Json>, enumeration: Option<seq<Json>>,
    minLength: int, pattern: Option<string>, dateTime: bool,
    minimum: Option<real>, maximum: Option<real>, exclusiveMinimum: Option<real>,
    minItems: int, required: seq<string>, closed: bool, members: seq<Member>)

  datatype Member = Member(key: string, rule: Rule)

  /** Regular expressions and ISO 8601 date-times with a time zone. */
  datatype Oracles = Oracles(matches: (string, string) -> bool, isDateTime: string -> bool)

  datatype Step = Index(i: int) | Key(key: string)

  datatype Error = Error(path: seq<Step>, reason: Reason)

  datatype Reason =
    | WrongType | NotConstant | NotInEnum | TooShort | NoMatch | BadDateTime | TooSmall | TooLarge | NotAbove
    | TooFewItems | MissingProperty | UnknownProperty

  // ---------- Lookups ----------

  function MemberAt(rule: Rule, key: string): (r: Option<Rule>)
    ensures r.Some? <==> exists i :: 0 <= i < |rule.members| && rule.members[i].key == key
    ensures r.Some? ==> r.value < rule
  {
    FindMember(rule.members, key)
  }

  function FindMember(members: seq<Member>, key: string): (r: Option<Rule>)
    ensures r.Some? <==> exists i :: 0 <= i < |members| && members[i].key == key
    ensures r.Some? ==> exists i :: 0 <= i < |members| && members[i] == Member(key, r.value)
  {
    if members == [] then None
    else if members[0].key == key then Some(members[0].rule)
    else
      assert forall i :: 0 < i < |members| ==> members[i] == members[1..][i - 1];
      FindMember(members[1..], key)
  }

  /** Walking the schema along a path of keys. */
  function Walk(rule: Rule, keys: seq<string>): (r: Option<Rule>)
    decreases |keys|
  {
    if keys == [] then Some(rule)
    else
      match MemberAt(rule, keys[0])
      case None => None
      case Some(next) => Walk(next, keys[1..])
  }

  function Resolve(root: Rule, reference: string): (r: Option<Rule>) {
    match JsonPointer.Keys(reference)
    case None => None
    case Some(keys) => Walk(root, keys)
  }

  /** A reference escaped from a nonempty key path resolves to what the path leads to. */
  lemma {:induction false} ResolveFollowsPath(root: Rule, keys: seq<string>)
    requires keys != []
    ensures Resolve(root, "#/" + JsonPointer.Join(keys)) == Walk(root, keys)
  {
    JsonPointer.KeysInvertJoin(keys);
  }

  /** `_resolve` as written: the value is replaced step by step. */
  method ResolveStepwise(root: Rule, reference: string) returns (r: Option<Rule>)
    ensures r == Resolve(root, reference)
  {
    var keys := JsonPointer.Keys(reference);
    if keys.None? { return None; }
    var value := root;
    for i := 0 to |keys.value|
      invariant Walk(root, keys.value) == Walk(value, keys.value[i..])
    {
      var next := MemberAt(value, keys.value[i]);
      if next.None? { return None; }
      assert keys.value[i..][1..] == keys.value[i + 1..];
      value := next.value;
    }
    return Some(value);
  }

  // ---------- Values ----------

  /** Booleans count as numbers in comparisons: `True == 1`. */
  function Numeric(value: Json): (r: Option<real>) {
    match value
    case Bool(b) => Some(if b then 1.0 else 0.0)
    case Int(n) => Some(n as real)
    case Float(x) => Some(x)
    case _ => None
  }

  function At(fields: seq<Field>, key: string): (r: Option<Json>)
    ensures r.Some? ==> exists i :: 0 <= i < |fields| && fields[i] == Field(key, r.value)
  {
    if fields == [] then None
    else if fields[0].key == key then Some(fields[0].value)
    else At(fields[1..], key)
  }

  /** Equality of parsed JSON values in Python. */
  predicate Equal(a: Json, b: Json)
    decreases a
  {
    if Numeric(a).Some? || Numeric(b).Some? then Numeric(a) == Numeric(b)
    else match a
      case Arr(items) =>
        b.Arr? && |items| == |b.items| && forall i :: 0 <= i < |items| ==> Equal(items[i], b.items[i])
      case Obj(fields) =>
        b.Obj? && |fields| == |b.fields| &&
        forall i :: 0 <= i < |fields| ==>
          At(b.fields, fields[i].key).Some? && Equal(fields[i].value, At(b.fields, fields[i].key).value)
      case _ => a == b
  }

  predicate IsType(value: Json, name: string) {
    match value
    case Null => name == "null"
    case Bool(_) => name == "boolean"
    case Int(_) => name == "integer" || name == "number"
    case Float(_) => name == "number"
    case Str(_) => name == "string"
    case Arr(_) => name == "array"
    case Obj(_) => name == "object"
  }

  predicate TypeOk(rule: Rule, value: Json) {
    rule.types.Some? ==> exists i :: 0 <= i < |rule.types.value| && IsType(value, rule.types.value[i])
  }

  function Items(rule: Rule): (r: Option<Rule>) { MemberAt(rule, "items") }

  function Property(rule: Rule, key: string): (r: Option<Rule>) {
    match MemberAt(rule, "properties")
    case None => None
    case Some(properties) => MemberAt(properties, key)
  }

  predicate HasField(fields: seq<Field>, key: string) {
    exists i :: 0 <= i < |fields| && fields[i].key == key
  }

  // ---------- Meaning ----------

  ghost predicate CoversRule(root: Rule, rules: set<Rule>, rank: Rule -> nat, rule: Rule) {
    (rule.ref.Some? ==>
       Resolve(root, rule.ref.value).Some? && Resolve(root, rule.ref.value).value in rules &&
       rank(Resolve(root, rule.ref.value).value) < rank(rule)) &&
    (forall i :: 0 <= i < |rule.allOf| ==> rule.allOf[i] in rules && rank(rule.allOf[i]) < rank(rule)) &&
    (Items(rule).Some? ==> Items(rule).value in rules) &&
    (forall key :: Property(rule, key).Some? ==> Property(rule, key).value in rules)
  }

  /**
   A set of rules closed under everything `_validate` can go to, with a rank that falls along the
   same-value edges, `$ref` and `allOf`: those edges have no cycle.
   */
  ghost predicate Covers(root: Rule, rules: set<Rule>, rank: Rule -> nat) {
    forall rule {:trigger CoversRule(root, rules, rank, rule)} :: rule in rules ==> CoversRule(root, rules, rank, rule)
  }

  predicate EqualityOk(rule: Rule, value: Json) {
    (rule.constant.Some? ==> Equal(value, rule.constant.value)) &&
    (rule.enumeration.Some? ==>
       exists i :: 0 <= i < |rule.enumeration.value| && Equal(value, rule.enumeration.value[i]))
  }

  predicate StringOk(oracles: Oracles, rule: Rule, s: string) {
    rule.minLength <= |s| &&
    (rule.pattern.Some? ==> oracles.matches(rule.pattern.value, s)) && (rule.dateTime ==> oracles.isDateTime(s))
  }

  predicate NumberOk(rule: Rule, x: real) {
    (rule.minimum.Some? ==> rule.minimum.value <= x) && (rule.maximum.Some? ==> x <= rule.maximum.value) &&
    (rule.exclusiveMinimum.Some? ==> rule.exclusiveMinimum.value < x)
  }

  /** What the keywords about the value itself demand. */
  predicate ScalarOk(oracles: Oracles, rule: Rule, value: Json) {
    EqualityOk(rule, value) && (value.Str? ==> StringOk(oracles, rule, value.s)) &&
    (value.Int? || value.Float? ==> NumberOk(rule, Numeric(value).value))
  }

  predicate PresenceOk(rule: Rule, fields: seq<Field>) {
    (forall i :: 0 <= i < |rule.required| ==> HasField(fields, rule.required[i])) &&
    (rule.closed ==> forall i :: 0 <= i < |fields| ==> Property(rule, fields[i].key).Some?)
  }

  ghost predicate SameOk(root: Rule, oracles: Oracles, rules: set<Rule>, rank: Rule -> nat, rule: Rule, value: Json)
    requires Covers(root, rules, rank) && rule in rules && CoversRule(root, rules, rank, rule)
    decreases value, rank(rule), 0
  {
    (rule.ref.Some? ==> Satisfies(root, oracles, rules, rank, Resolve(root, rule.ref.value).value, value)) &&
    forall i :: 0 <= i < |rule.allOf| ==> Satisfies(root, oracles, rules, rank, rule.allOf[i], value)
  }

  ghost predicate ItemsOk(root: Rule, oracles: Oracles, rules: set<Rule>, rank: Rule -> nat, rule: Rule, value: Json)
    requires Covers(root, rules, rank) && rule in rules && CoversRule(root, rules, rank, rule) && value.Arr?
    decreases value, rank(rule), 0
  {
    rule.minItems <= |value.items| &&
    (Items(rule).Some? ==>
       forall i :: 0 <= i < |value.items| ==> Satisfies(root, oracles, rules, rank, Items(rule).value, value.items[i]))
  }

  /** A property's value meets the rule for that property, if there is one. */
  ghost predicate FieldOk(root: Rule, oracles: Oracles, rules: set<Rule>, rank: Rule -> nat, rule: Rule, field: Field)
    requires Covers(root, rules, rank) && rule in rules && CoversRule(root, rules, rank, rule)
    decreases field, 0, 0
  {
    Property(rule, field.key).Some? ==>
      Satisfies(root, oracles, rules, rank, Property(rule, field.key).value, field.value)
  }

  /** The declarative meaning: every keyword of the rule holds of the value. */
  ghost predicate Satisfies(
    root: Rule, oracles: Oracles, rules: set<Rule>, rank: Rule -> nat, rule: Rule, value: Json)
    requires Covers(root, rules, rank) && rule in rules
    decreases value, rank(rule), 1
  {
    assert CoversRule(root, rules, rank, rule);
    SameOk(root, oracles, rules, rank, rule, value) && TypeOk(rule, value) && ScalarOk(oracles, rule, value) &&
    (value.Arr? ==> ItemsOk(root, oracles, rules, rank, rule, value)) &&
    (value.Obj? ==>
       PresenceOk(rule, value.fields) &&
       forall i :: 0 <= i < |value.fields| ==> FieldOk(root, oracles, rules, rank, rule, value.fields[i]))
  }

  // ---------- The interpreter ----------

  ghost predicate Below(path: seq<Step>, errors: seq<Error>) {
    forall i :: 0 <= i < |errors| ==> path <= errors[i].path
  }

  lemma BelowConcat(path: seq<Step>, longer: seq<Step>, a: seq<Error>, b: seq<Error>)
    requires Below(path, a) && Below(longer, b) && path <= longer
    ensures Below(path, a + b)
  {
  }

  method CheckString(oracles: Oracles, rule: Rule, s: string, path: seq<Step>) returns (errors: seq<Error>)
    ensures errors == [] <==> StringOk(oracles, rule, s)
    ensures Below(path, errors)
  {
    errors := [];
    if |s| < rule.minLength { errors := errors + [Error(path, TooShort)]; }
    if rule.pattern.Some? && !oracles.matches(rule.pattern.value, s) { errors := errors + [Error(path, NoMatch)]; }
    if rule.dateTime && !oracles.isDateTime(s) { errors := errors + [Error(path, BadDateTime)]; }
  }

  method CheckNumber(rule: Rule, x: real, path: seq<Step>) returns (errors: seq<Error>)
    ensures errors == [] <==> NumberOk(rule, x)
    ensures Below(path, errors)
  {
    errors := [];
    if rule.minimum.Some? && x < rule.minimum.value { errors := errors + [Error(path, TooSmall)]; }
    if rule.maximum.Some? && x > rule.maximum.value { errors := errors + [Error(path, TooLarge)]; }
    if rule.exclusiveMinimum.Some? && x <= rule.exclusiveMinimum.value { errors := errors + [Error(path, NotAbove)]; }
  }

  method CheckScalar(oracles: Oracles, rule: Rule, value: Json, path: seq<Step>) returns (errors: seq<Error>)
    ensures errors == [] <==> ScalarOk(oracles, rule, value)
    ensures Below(path, errors)
  {
    errors := [];
    if rule.constant.Some? && !Equal(value, rule.constant.value) { errors := errors + [Error(path, NotConstant)]; }
    if rule.enumeration.Some? &&
       !(exists i :: 0 <= i < |rule.enumeration.value| && Equal(value, rule.enumeration.value[i]))
    {
      errors := errors + [Error(path, NotInEnum)];
    }
    if value.Str? {
      var more := CheckString(oracles, rule, value.s, path);
      errors := errors + more;
    }
    if value.Int? || value.Float? {
      var more := CheckNumber(rule, Numeric(value).value, path);
      errors := errors + more;
    }
  }

  method CheckPresence(rule: Rule, fields: seq<Field>, path: seq<Step>) returns (errors: seq<Error>)
    ensures errors == [] <==> PresenceOk(rule, fields)
    ensures Below(path, errors)
  {
    errors := [];
    for i := 0 to |rule.required|
      invariant errors == [] <==> forall j :: 0 <= j < i ==> HasField(fields, rule.required[j])
      invariant Below(path, errors)
    {
      if !HasField(fields, rule.required[i]) { errors := errors + [Error(path, MissingProperty)]; }
    }
    if rule.closed {
      ghost var soFar := errors;
      for i := 0 to |fields|
        invariant errors == [] <==> soFar == [] && forall j :: 0 <= j < i ==> Property(rule, fields[j].key).Some?
        invariant Below(path, errors)
      {
        if Property(rule, fields[i].key).None? { errors := errors + [Error(path, UnknownProperty)]; }
      }
    }
  }

  /**
   Returns no error exactly when the rule's meaning holds, although a type mismatch returns at once
   and discards the errors found before it; every error lies at or below the path it was asked for.
   */
  method Validate(
    root: Rule, oracles: Oracles, ghost rules: set<Rule>, ghost rank: Rule -> nat, rule: Rule, value: Json,
    path: seq<Step>)
    returns (errors: seq<Error>)
    requires Covers(root, rules, rank) && rule in rules
    ensures errors == [] <==> Satisfies(root, oracles, rules, rank, rule, value)
    ensures Below(path, errors)
    decreases value, rank(rule), 2
  {
    assert CoversRule(root, rules, rank, rule);
    errors := ValidateSame(root, oracles, rules, rank, rule, value, path);
    if !TypeOk(rule, value) { return [Error(path, WrongType)]; }
    var more := CheckScalar(oracles, rule, value, path);
    BelowConcat(path, path, errors, more);
    errors := errors + more;
    if value.Arr? {
      more := ValidateItems(root, oracles, rules, rank, rule, value, path);
      BelowConcat(path, path, errors, more);
      errors := errors + more;
    }
    if value.Obj? {
      more := CheckPresence(rule, value.fields, path);
      BelowConcat(path, path, errors, more);
      errors := errors + more;
      more := ValidateFields(root, oracles, rules, rank, rule, value, path);
      BelowConcat(path, path, errors, more);
      errors := errors + more;
    }
  }

  /** `$ref` and `allOf`: other rules for the same value. */
  method ValidateSame(
    root: Rule, oracles: Oracles, ghost rules: set<Rule>, ghost rank: Rule -> nat, rule: Rule, value: Json,
    path: seq<Step>)
    returns (errors: seq<Error>)
    requires Covers(root, rules, rank) && rule in rules && CoversRule(root, rules, rank, rule)
    ensures errors == [] <==> SameOk(root, oracles, rules, rank, rule, value)
    ensures Below(path, errors)
    decreases value, rank(rule), 1
  {
    errors := [];
    if rule.ref.Some? {
      var target := ResolveStepwise(root, rule.ref.value);
      errors := Validate(root, oracles, rules, rank, target.value, value, path);
    }
    ghost var first := errors;
    for i := 0 to |rule.allOf|
      invariant errors == [] <==>
                  first == [] && forall j :: 0 <= j < i ==> Satisfies(root, oracles, rules, rank, rule.allOf[j], value)
      invariant Below(path, errors)
    {
      var more := Validate(root, oracles, rules, rank, rule.allOf[i], value, path);
      BelowConcat(path, path, errors, more);
      errors := errors + more;
    }
  }

  method ValidateItems(
    root: Rule, oracles: Oracles, ghost rules: set<Rule>, ghost rank: Rule -> nat, rule: Rule, value: Json,
    path: seq<Step>)
    returns (errors: seq<Error>)
    requires Covers(root, rules, rank) && rule in rules && CoversRule(root, rules, rank, rule) && value.Arr?
    ensures errors == [] <==> ItemsOk(root, oracles, rules, rank, rule, value)
    ensures Below(path, errors)
    decreases value, rank(rule), 1
  {
    errors := if |value.items| < rule.minItems then [Error(path, TooFewItems)] else [];
    var itemRule := Items(rule);
    if itemRule.Some? {
      ghost var first := errors;
      for i := 0 to |value.items|
        invariant errors == [] <==>
                    first == [] &&
                    forall j :: 0 <= j < i ==> Satisfies(root, oracles, rules, rank, itemRule.value, value.items[j])
        invariant Below(path, errors)
      {
        errors := ValidateItem(root, oracles, rules, rank, itemRule.value, rule, value, path, errors, i);
      }
    }
  }

  /** One turn of the loop over items. */
  method ValidateItem(
    root: Rule, oracles: Oracles, ghost rules: set<Rule>, ghost rank: Rule -> nat, itemRule: Rule, ghost rule: Rule,
    value: Json, path: seq<Step>, errors: seq<Error>, i: nat)
    returns (all: seq<Error>)
    requires Covers(root, rules, rank) && itemRule in rules && CoversRule(root, rules, rank, itemRule)
    requires value.Arr? && i < |value.items| && Below(path, errors)
    ensures all == [] <==> errors == [] && Satisfies(root, oracles, rules, rank, itemRule, value.items[i])
    ensures Below(path, all)
    decreases value, rank(rule), 0
  {
    var more := Validate(root, oracles, rules, rank, itemRule, value.items[i], path + [Index(i)]);
    BelowConcat(path, path + [Index(i)], errors, more);
    all := errors + more;
  }

  method ValidateFields(
    root: Rule, oracles: Oracles, ghost rules: set<Rule>, ghost rank: Rule -> nat, rule: Rule, value: Json,
    path: seq<Step>)
    returns (errors: seq<Error>)
    requires Covers(root, rules, rank) && rule in rules && CoversRule(root, rules, rank, rule) && value.Obj?
    ensures errors == [] <==>
              forall i :: 0 <= i < |value.fields| ==> FieldOk(root, oracles, rules, rank, rule, value.fields[i])
    ensures Below(path, errors)
    decreases value, rank(rule), 1
  {
    errors := [];
    for i := 0 to |value.fields|
      invariant errors == [] <==> forall j :: 0 <= j < i ==> FieldOk(root, oracles, rules, rank, rule, value.fields[j])
      invariant Below(path, errors)
    {
      var field := value.fields[i];
      var propertyRule := Property(rule, field.key);
      if propertyRule.Some? {
        var more := Validate(root, oracles, rules, rank, propertyRule.value, field.value, path + [Key(field.key)]);
        BelowConcat(path, path + [Key(field.key)], errors, more);
        errors := errors + more;
      }
    }
  }
}
