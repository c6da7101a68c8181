/** The shared vocabulary of src/types.ts and its compiled twin src/types.js: rollout states,
    condition operators and properties, and the Feature / Segment / Condition records that the
    YAML file is expected to contain. Host objects the core only passes around (URIs, ranges)
    are modelled here too. */
module Types {
  import opened Wrappers

  /** `RolloutState = '100%' | 'partial' | '0%'`: a closed enumeration. */
  datatype RolloutState = Full | Partial | Off

  /** The string each state has in the source. */
  function RolloutText(state: RolloutState): string
  {
    match state
    case Full => "100%"
    case Partial => "partial"
    case Off => "0%"
  }

  /** Reading a string back as a rollout state; `None` for any text outside the enumeration. */
  function ParseRolloutState(text: string): (r: Option<RolloutState>)
    ensures r.Some? ==> RolloutText(r.value) == text
    ensures r.None? ==> forall state :: RolloutText(state) != text
  {
    if text == "100%" then Some(Full)
    else if text == "partial" then Some(Partial)
    else if text == "0%" then Some(Off)
    else None
  }

  /** The three texts are distinct, and parsing undoes printing. */
  lemma RolloutTextRoundTrip(state: RolloutState)
    ensures ParseRolloutState(RolloutText(state)) == Some(state)
  {
  }

  /** A JavaScript number as far as this core uses them: an integer or NaN. */
  datatype JsNumber = Finite(value: int) | NaN

  predicate IsDigit(c: char)
  {
    '0' <= c <= '9'
  }

  predicate AllDigits(s: string)
  {
    forall i | 0 <= i < |s| :: IsDigit(s[i])
  }

  /** The value of a string of decimal digits, most significant first. */
  function DecimalValue(s: string): (n: nat)
    requires AllDigits(s)
    ensures |s| == 1 ==> n == (s[0] as int) - ('0' as int)
  {
    if s == [] then 0
    else DecimalValue(s[..|s| - 1]) * 10 + ((s[|s| - 1] as int) - ('0' as int))
  }

  /** `Number(text)` for the texts a rollout detail holds: the empty string is 0, a run of
      decimal digits with an optional `+` or `-` sign is its value, anything else is NaN. */
  function NumberOf(text: string): JsNumber
  {
    if text == "" then Finite(0)
    else if AllDigits(text) then Finite(DecimalValue(text))
    else if text[0] == '+' && |text| > 1 && AllDigits(text[1..]) then Finite(DecimalValue(text[1..]))
    else if text[0] == '-' && |text| > 1 && AllDigits(text[1..]) then Finite(0 - DecimalValue(text[1..]) as int)
    else NaN
  }

  /** The texts the rollout checks compare against read as the numbers they name, and so does a
      zero with a leading zero. */
  lemma NumberOfCanonicalTexts()
    ensures NumberOf("0") == Finite(0)
    ensures NumberOf("100") == Finite(100)
    ensures NumberOf("00") == Finite(0)
    ensures NumberOf("abc") == NaN
    ensures NumberOf("+5") == Finite(5)
    ensures NumberOf("-") == NaN
  {
    assert "100"[..2] == "10";
    assert "10"[..1] == "1";
    assert "00"[..1] == "0";
    assert !IsDigit("abc"[0]);
    assert "+5"[1..] == "5";
    assert !IsDigit("-"[0]);
  }

  /** The six condition operators (`OperatorName`). */
  datatype Operator = In | NotIn | Contains | NotContains | Equals | NotEquals

  function OperatorName(op: Operator): string
  {
    match op
    case In => "in"
    case NotIn => "not_in"
    case Contains => "contains"
    case NotContains => "not_contains"
    case Equals => "equals"
    case NotEquals => "not_equals"
  }

  /** `OPERATORS`, in the source's order (identical in types.ts and types.js). */
  const OPERATORS: seq<string> := ["in", "not_in", "contains", "not_contains", "equals", "not_equals"]

  /** Reads an operator name; `None` for a name outside `OPERATORS`. */
  function OperatorOf(name: string): (r: Option<Operator>)
    ensures r.Some? <==> name in OPERATORS
    ensures r.Some? ==> OperatorName(r.value) == name
  {
    if name == "in" then Some(In)
    else if name == "not_in" then Some(NotIn)
    else if name == "contains" then Some(Contains)
    else if name == "not_contains" then Some(NotContains)
    else if name == "equals" then Some(Equals)
    else if name == "not_equals" then Some(NotEquals)
    else None
  }

  /** `OPERATORS` lists every operator exactly once. */
  lemma OperatorsAreTheOperatorNames()
    ensures |OPERATORS| == 6
    ensures forall op :: OperatorName(op) in OPERATORS
    ensures forall i, j | 0 <= i < j < |OPERATORS| :: OPERATORS[i] != OPERATORS[j]
    ensures forall name | name in OPERATORS :: OperatorOf(name).Some?
  {
  }

  /** The type tags of the newer `PROPERTIES` object. */
  datatype PropertyType = StringType | NumberType | BooleanType

  /** `PROPERTIES` of types.ts, in the source's order. */
  const PROPERTIES: seq<string> := [
    "organization_id",
    "organization_is-early-adopter",
    "organization_name",
    "organization_slug",
    "project_id",
    "project_name",
    "project_platform",
    "project_slug",
    "sentry_region",
    "sentry_singletenant",
    "subscription_is-free",
    "subscription_is-partner",
    "subscription_missing",
    "subscription_plan-family",
    "subscription_plan-tier",
    "subscription_plan-trial-plan-family",
    "subscription_plan-trial-plan-tier",
    "subscription_plan-trial-plan",
    "subscription_plan",
    "user_domain",
    "user_email",
    "user_id",
    "user_is-staff",
    "user_is-superuser"
  ]

  /** `PROPERTIES` of types.js: each property name with its value type. */
  const PROPERTY_TYPES: map<string, PropertyType> := map[
    "organization_id" := StringType,
    "organization_is-early-adopter" := BooleanType,
    "organization_name" := StringType,
    "organization_slug" := StringType,
    "project_id" := NumberType,
    "project_name" := StringType,
    "project_platform" := StringType,
    "project_slug" := StringType,
    "sentry_region" := StringType,
    "sentry_singletenant" := BooleanType,
    "subscription_is-free" := BooleanType,
    "subscription_is-partner" := BooleanType,
    "subscription_missing" := BooleanType,
    "subscription_plan-family" := StringType,
    "subscription_plan-tier" := StringType,
    "subscription_plan-trial-plan-family" := StringType,
    "subscription_plan-trial-plan-tier" := StringType,
    "subscription_plan-trial-plan" := StringType,
    "subscription_plan" := StringType,
    "user_domain" := StringType,
    "user_email" := StringType,
    "user_id" := StringType,
    "user_is-staff" := BooleanType,
    "user_is-superuser" := BooleanType
  ]

  /** The properties whose declared type is `tag`. */
  function PropertiesOfType(tag: PropertyType): set<string>
  {
    set p | p in PROPERTY_TYPES && PROPERTY_TYPES[p] == tag
  }

  /** `PROPERTIES` names 24 distinct properties, and the newer `PROPERTIES` object types
      exactly those names. */
  lemma PropertiesAreDistinctAndTyped()
    ensures |PROPERTIES| == 24
    ensures forall i, j | 0 <= i < j < |PROPERTIES| :: PROPERTIES[i] != PROPERTIES[j]
    ensures PROPERTY_TYPES.Keys == set p | p in PROPERTIES
  {
  }

  /** The boolean-typed properties of the newer `PROPERTIES` object. */
  const BOOLEAN_PROPERTIES: set<string> := {
    "organization_is-early-adopter", "sentry_singletenant", "subscription_is-free",
    "subscription_is-partner", "subscription_missing", "user_is-staff", "user_is-superuser" }

  /** Exactly seven properties are boolean. */
  lemma BooleanProperties()
    ensures PropertiesOfType(BooleanType) == BOOLEAN_PROPERTIES
    ensures |PropertiesOfType(BooleanType)| == 7
  {
    forall p | p in PROPERTY_TYPES
      ensures PROPERTY_TYPES[p] == BooleanType <==> p in BOOLEAN_PROPERTIES
    {
      BooleanTyped(p);
    }
    assert BOOLEAN_PROPERTIES <= PROPERTY_TYPES.Keys;
    BooleanCount();
  }

  /** Only `project_id` is a number. */
  lemma NumberProperties()
    ensures PropertiesOfType(NumberType) == {"project_id"}
  {
    forall p | p in PROPERTY_TYPES
      ensures PROPERTY_TYPES[p] == NumberType <==> p == "project_id"
    {
      NumberTyped(p);
    }
  }

  /** Every property that is neither boolean nor `project_id` is a string. */
  lemma StringProperties()
    ensures PropertiesOfType(StringType) == PROPERTY_TYPES.Keys - BOOLEAN_PROPERTIES - {"project_id"}
  {
    forall p | p in PROPERTY_TYPES
      ensures PROPERTY_TYPES[p] == StringType <==> p !in BOOLEAN_PROPERTIES && p != "project_id"
    {
      BooleanTyped(p);
      NumberTyped(p);
    }
  }

  lemma BooleanTyped(p: string)
    requires p in PROPERTY_TYPES
    ensures PROPERTY_TYPES[p] == BooleanType <==> p in BOOLEAN_PROPERTIES
  {
  }

  lemma NumberTyped(p: string)
    requires p in PROPERTY_TYPES
    ensures PROPERTY_TYPES[p] == NumberType <==> p == "project_id"
  {
  }

  lemma BooleanCount()
    ensures |BOOLEAN_PROPERTIES| == 7
  {
  }

  /** A scalar condition value. */
  datatype Scalar = NumberScalar(n: int) | StringScalar(s: string) | BooleanScalar(b: bool)

  /** A condition value: one scalar or an array of scalars. */
  datatype ConditionValue = ScalarValue(scalar: Scalar) | ArrayValue(items: seq<Scalar>)

  /** `Condition`, as read from the file: the operator and property are whatever text the file
      holds; `ConditionFits` says when they form one of the union's members. */
  datatype Condition = Condition(property: string, operator: string, value: ConditionValue)

  predicate AllNumbers(items: seq<Scalar>)
  {
    forall i | 0 <= i < |items| :: items[i].NumberScalar?
  }

  predicate AllStrings(items: seq<Scalar>)
  {
    forall i | 0 <= i < |items| :: items[i].StringScalar?
  }

  /** `number[] | string[]` */
  predicate IsHomogeneousArray(v: ConditionValue)
  {
    v.ArrayValue? && (AllNumbers(v.items) || AllStrings(v.items))
  }

  /** The value shapes of the six members of the `Condition` union. */
  predicate ValueFitsOperator(op: Operator, v: ConditionValue)
  {
    match op
    case In | NotIn => IsHomogeneousArray(v)
    case Contains | NotContains => v.ScalarValue? && !v.scalar.BooleanScalar?
    case Equals | NotEquals => v.ScalarValue? || IsHomogeneousArray(v)
  }

  /** A condition that belongs to the `Condition` union. */
  predicate ConditionFits(c: Condition)
  {
    && c.property in PROPERTIES
    && OperatorOf(c.operator).Some?
    && ValueFitsOperator(OperatorOf(c.operator).value, c.value)
  }

  /** `in` and `not_in` take arrays, `contains` and `not_contains` a string or number, and only
      the equality operators accept a boolean. */
  lemma OperatorValueShapes(v: ConditionValue)
    ensures ValueFitsOperator(In, v) == ValueFitsOperator(NotIn, v) == IsHomogeneousArray(v)
    ensures ValueFitsOperator(Contains, v) == ValueFitsOperator(NotContains, v)
    ensures ValueFitsOperator(Contains, v) <==> v.ScalarValue? && !v.scalar.BooleanScalar?
    ensures v.ScalarValue? && v.scalar.BooleanScalar? ==>
      forall op :: ValueFitsOperator(op, v) <==> op == Equals || op == NotEquals
  {
  }

  /** `Segment`: the rollout is optional. */
  datatype Segment = Segment(name: string, rollout: Option<JsNumber>, conditions: seq<Condition>)

  /** `Feature['definition']`; fields the YAML leaves out are `None`. */
  datatype Definition = Definition(
    createdAt: Option<string>,
    enabled: Option<bool>,
    owner: Option<string>,
    segments: seq<Segment>)

  /** `Feature`: a name, its definition and the rollout state derived from its segments. */
  datatype Feature = Feature(name: string, definition: Definition, rollout: Option<RolloutState>)

  /** Host values the core passes through. A `Uri` carries the identity of the host object
      (caches key on it), its `fsPath` and its `toString()` text. */
  datatype Position = Position(line: nat, character: nat)
  datatype Range = Range(start: Position, end: Position)
  datatype Uri = Uri(identity: nat, fsPath: string, text: string)
}
