/** The symbol-to-record transformers of src/transform/transformers.ts and of the newer compiled
    revision src/transform/transformers.js. They read the outline the YAML language server
    reports for a flag file (`vscode.DocumentSymbol` nodes) and turn each feature node into a
    logical feature with its segments, conditions and derived rollout state. */
module Transformers {
  import opened Wrappers
  import opened Types

  /** A `vscode.DocumentSymbol` as the transformers read it: the YAML key, the scalar shown
      beside it (absent for mappings and sequences), where it sits, and its child nodes. */
  datatype Symbol = Symbol(name: string, detail: Option<string>, range: Range, selectionRange: Range, children: seq<Symbol>)

  /** `children.findIndex(child => child.name === name)`, as an option. */
  function FirstNamed(children: seq<Symbol>, name: string): (r: Option<nat>)
    ensures r.None? <==> forall i | 0 <= i < |children| :: children[i].name != name
    ensures r.Some? ==> r.value < |children| && children[r.value].name == name
    ensures r.Some? ==> forall j | 0 <= j < r.value :: children[j].name != name
  {
    if children == [] then None
    else if children[0].name == name then Some(0)
    else
      match FirstNamed(children[1..], name)
      case None => None
      case Some(i) => Some(i + 1)
  }

  /** `children.find(child => child.name === name)` */
  function FindChild(children: seq<Symbol>, name: string): (r: Option<Symbol>)
    ensures r.None? <==> forall i | 0 <= i < |children| :: children[i].name != name
    ensures r.Some? ==> FirstNamed(children, name).Some? && r.value == children[FirstNamed(children, name).value]
  {
    match FirstNamed(children, name)
    case None => None
    case Some(i) => Some(children[i])
  }

  /** `child?.detail`: the detail of the first child with that name, absent when there is no
      such child or it has no detail. */
  function ChildDetail(children: seq<Symbol>, name: string): Option<string>
  {
    match FindChild(children, name)
    case None => None
    case Some(child) => child.detail
  }

  /** `text ?? ''` */
  function OrEmpty(text: Option<string>): string
  {
    if text.Some? then text.value else ""
  }

  /** A string is truthy in JavaScript unless it is empty or absent. */
  predicate Truthy(text: Option<string>)
  {
    text.Some? && text.value != ""
  }

  // ---------------------------------------------------------------------------------------
  // Conditions

  /** `value: string | string[]`: the scalar detail, or a list. */
  datatype LogicalConditionValue = DetailValue(text: string) | ListValue(items: seq<string>)

  /** Shown for a condition whose value is a sequence or is missing. */
  const PLACEHOLDER: LogicalConditionValue := ListValue(["..."])

  datatype LogicalCondition = LogicalCondition(
    symbol: Symbol, parent: Symbol, uri: Uri,
    property: string, operator: string, value: LogicalConditionValue)

  /** `value?.detail || ['...']` */
  function ConditionValueOf(detail: Option<string>): (r: LogicalConditionValue)
    ensures r == PLACEHOLDER <==> !Truthy(detail)
    ensures r != PLACEHOLDER ==> r.DetailValue? && Some(r.text) == detail && r.text != ""
  {
    if Truthy(detail) then DetailValue(detail.value) else PLACEHOLDER
  }

  /** `symbolToLogicalCondition(uri, parent, symbol)` */
  function SymbolToLogicalCondition(uri: Uri, parent: Symbol, symbol: Symbol): (r: LogicalCondition)
    ensures r.symbol == symbol && r.parent == parent && r.uri == uri
    ensures ChildDetail(symbol.children, "operator").None? ==> r.operator == ""
    ensures ChildDetail(symbol.children, "operator").Some? ==> Some(r.operator) == ChildDetail(symbol.children, "operator")
    ensures ChildDetail(symbol.children, "property").None? ==> r.property == ""
    ensures ChildDetail(symbol.children, "property").Some? ==> Some(r.property) == ChildDetail(symbol.children, "property")
    ensures r.value == PLACEHOLDER <==> !Truthy(ChildDetail(symbol.children, "value"))
    ensures r.value == ConditionValueOf(ChildDetail(symbol.children, "value"))
  {
    LogicalCondition(
      symbol, parent, uri,
      OrEmpty(ChildDetail(symbol.children, "property")),
      OrEmpty(ChildDetail(symbol.children, "operator")),
      ConditionValueOf(ChildDetail(symbol.children, "value")))
  }

  // ---------------------------------------------------------------------------------------
  // Segments

  datatype LogicalSegment = LogicalSegment(
    symbol: Symbol, uri: Uri, name: string, rollout: JsNumber,
    conditionsSymbol: Option<Symbol>, conditions: seq<LogicalCondition>, rolloutState: RolloutState)

  /** The state of one segment, read from the text of its `rollout` node: `"0"` is off, an
      unconditional segment whose rollout is absent or `"100"` is fully on, and anything else
      is partial. */
  function SegmentRolloutState(rolloutDetail: Option<string>, conditionCount: nat): (r: RolloutState)
    ensures r == Off <==> rolloutDetail == Some("0")
    ensures r == Full <==> (rolloutDetail.None? || rolloutDetail == Some("100")) && conditionCount == 0
    ensures r == Partial <==>
      rolloutDetail != Some("0") && !((rolloutDetail.None? || rolloutDetail == Some("100")) && conditionCount == 0)
  {
    if rolloutDetail == Some("0") then Off
    else if (rolloutDetail.None? || rolloutDetail == Some("100")) && conditionCount == 0 then Full
    else Partial
  }

  /** `Number(rollout?.detail ?? 100)` */
  function RolloutNumber(rolloutDetail: Option<string>): (r: JsNumber)
    ensures rolloutDetail.None? ==> r == Finite(100)
    ensures rolloutDetail.Some? ==> r == NumberOf(rolloutDetail.value)
  {
    if rolloutDetail.None? then Finite(100) else NumberOf(rolloutDetail.value)
  }

  /** The children of an optional node; none when the node is missing. */
  function ChildrenOf(node: Option<Symbol>): seq<Symbol>
  {
    if node.None? then [] else node.value.children
  }

  /** The conditions built from the children of a `conditions` node, in order. */
  function ConditionsOfChildren(uri: Uri, parent: Symbol, children: seq<Symbol>): seq<LogicalCondition>
  {
    if children == [] then []
    else
      ConditionsOfChildren(uri, parent, children[..|children| - 1])
        + [SymbolToLogicalCondition(uri, parent, children[|children| - 1])]
  }

  /** `conditionsSymbol?.children.map(…) ?? []` */
  function ConditionsOf(uri: Uri, conditionsSymbol: Option<Symbol>): seq<LogicalCondition>
  {
    if conditionsSymbol.None? then []
    else ConditionsOfChildren(uri, conditionsSymbol.value, conditionsSymbol.value.children)
  }

  /** One condition per child, each built from its own child under the same parent. */
  lemma {:induction false} ConditionsOfChildrenElements(uri: Uri, parent: Symbol, children: seq<Symbol>)
    ensures |ConditionsOfChildren(uri, parent, children)| == |children|
    ensures forall i | 0 <= i < |children| ::
      ConditionsOfChildren(uri, parent, children)[i] == SymbolToLogicalCondition(uri, parent, children[i])
  {
    if children != [] {
      var prefix := children[..|children| - 1];
      ConditionsOfChildrenElements(uri, parent, prefix);
      assert children == prefix + [children[|children| - 1]];
    }
  }

  /** `symbolToLogicalSegment(uri, symbol)` */
  function SymbolToLogicalSegment(uri: Uri, symbol: Symbol): (r: LogicalSegment)
    ensures r.symbol == symbol && r.uri == uri
    ensures r.name == OrEmpty(ChildDetail(symbol.children, "name"))
    ensures r.conditionsSymbol == FindChild(symbol.children, "conditions")
    ensures r.conditions == ConditionsOf(uri, r.conditionsSymbol)
    ensures r.rolloutState == SegmentRolloutState(ChildDetail(symbol.children, "rollout"), |r.conditions|)
    ensures r.rollout == RolloutNumber(ChildDetail(symbol.children, "rollout"))
  {
    var conditionsSymbol := FindChild(symbol.children, "conditions");
    var conditions := ConditionsOf(uri, conditionsSymbol);
    var rolloutDetail := ChildDetail(symbol.children, "rollout");
    LogicalSegment(
      symbol, uri,
      OrEmpty(ChildDetail(symbol.children, "name")),
      RolloutNumber(rolloutDetail),
      conditionsSymbol, conditions,
      SegmentRolloutState(rolloutDetail, |conditions|))
  }

  // ---------------------------------------------------------------------------------------
  // Features

  /** One step of the feature's rollout reduction: `'100%'` absorbs, `'partial'` overrides. */
  function FeatureRolloutStep(prev: RolloutState, rollout: RolloutState): RolloutState
  {
    if prev == Full || rollout == Full then Full
    else if rollout == Partial then Partial
    else prev
  }

  /** `states.reduce(step, '0%')`: fully on when some segment is, else partial when some
      segment is, else off, which includes a feature without segments. */
  function FeatureRolloutState(states: seq<RolloutState>): (r: RolloutState)
    ensures r == Full <==> Full in states
    ensures r == Partial <==> Full !in states && Partial in states
    ensures r == Off <==> Full !in states && Partial !in states
  {
    if states == [] then Off
    else
      var prefix := states[..|states| - 1];
      assert states == prefix + [states[|states| - 1]];
      FeatureRolloutStep(FeatureRolloutState(prefix), states[|states| - 1])
  }

  /** Which revision of the transformer: the TypeScript source, or the compiled revision that
      also reads a structured owner. */
  datatype Revision = TypeScriptSource | CompiledSource

  /** Owner in the TypeScript source: `owner?.detail ?? ''`. */
  function OwnerOfSource(owner: Option<Symbol>): (r: string)
    ensures owner.None? ==> r == ""
    ensures owner.Some? ==> r == OrEmpty(owner.value.detail)
  {
    if owner.None? then "" else OrEmpty(owner.value.detail)
  }

  /** Owner in the compiled revision: the owner's own detail when it is non-empty; otherwise,
      for an owner with child nodes, the first non-empty of the `email` and `team` details. */
  function OwnerOfCompiled(owner: Option<Symbol>): (r: string)
    ensures owner.None? ==> r == ""
    ensures owner.Some? && Truthy(owner.value.detail) ==> r == owner.value.detail.value
    ensures owner.Some? && !Truthy(owner.value.detail) && owner.value.children == [] ==> r == ""
    ensures owner.Some? && !Truthy(owner.value.detail) && owner.value.children != [] ==>
      var email := ChildDetail(owner.value.children, "email");
      var team := ChildDetail(owner.value.children, "team");
      r == (if Truthy(email) then email.value else if Truthy(team) then team.value else "")
  {
    var ownerValue := OwnerOfSource(owner);
    if ownerValue == "" && owner.Some? && |owner.value.children| > 0 then
      var email := ChildDetail(owner.value.children, "email");
      var team := ChildDetail(owner.value.children, "team");
      if Truthy(email) then email.value else if Truthy(team) then team.value else ""
    else ownerValue
  }

  /** The two owner rules agree except where the owner node has no detail but has children. */
  lemma OwnerRevisionsAgree(owner: Option<Symbol>)
    ensures OwnerOfSource(owner) != OwnerOfCompiled(owner) ==>
      owner.Some? && !Truthy(owner.value.detail) && owner.value.children != []
  {
  }

  function OwnerOf(owner: Option<Symbol>, revision: Revision): string
  {
    match revision
    case TypeScriptSource => OwnerOfSource(owner)
    case CompiledSource => OwnerOfCompiled(owner)
  }

  datatype LogicalFeature = LogicalFeature(
    symbol: Symbol, uri: Uri, name: string, createdAt: string, enabled: bool, owner: string,
    segmentsSymbol: Option<Symbol>, segments: seq<LogicalSegment>,
    rolloutState: RolloutState, hasExtraSegments: bool)

  /** The segments built from the children of a `segments` node, in order. */
  function SegmentsOfChildren(uri: Uri, children: seq<Symbol>): seq<LogicalSegment>
  {
    if children == [] then []
    else SegmentsOfChildren(uri, children[..|children| - 1]) + [SymbolToLogicalSegment(uri, children[|children| - 1])]
  }

  /** `segmentsSymbol?.children.map(…) ?? []` */
  function SegmentsOf(uri: Uri, segmentsSymbol: Option<Symbol>): seq<LogicalSegment>
  {
    SegmentsOfChildren(uri, ChildrenOf(segmentsSymbol))
  }

  /** One segment per child, each built from its own child. */
  lemma {:induction false} SegmentsOfChildrenElements(uri: Uri, children: seq<Symbol>)
    ensures |SegmentsOfChildren(uri, children)| == |children|
    ensures forall i | 0 <= i < |children| ::
      SegmentsOfChildren(uri, children)[i] == SymbolToLogicalSegment(uri, children[i])
  {
    if children != [] {
      var prefix := children[..|children| - 1];
      SegmentsOfChildrenElements(uri, prefix);
      assert children == prefix + [children[|children| - 1]];
    }
  }

  function StatesOf(segments: seq<LogicalSegment>): (r: seq<RolloutState>)
    ensures |r| == |segments|
    ensures forall i | 0 <= i < |r| :: r[i] == segments[i].rolloutState
  {
    seq(|segments|, i requires 0 <= i < |segments| => segments[i].rolloutState)
  }

  /** The reduction over the states of a feature's segments. */
  function SegmentsRolloutState(segments: seq<LogicalSegment>): RolloutState
  {
    FeatureRolloutState(StatesOf(segments))
  }

  /** A feature is fully rolled out when some segment is; partially when none is fully but
      some is partially; and off otherwise, in particular when it has no segments. */
  lemma SegmentsRolloutStateMeaning(segments: seq<LogicalSegment>)
    ensures SegmentsRolloutState(segments) == Full
        <==> exists i | 0 <= i < |segments| :: segments[i].rolloutState == Full
    ensures SegmentsRolloutState(segments) == Partial <==>
      (forall i | 0 <= i < |segments| :: segments[i].rolloutState != Full)
      && (exists i | 0 <= i < |segments| :: segments[i].rolloutState == Partial)
    ensures segments == [] ==> SegmentsRolloutState(segments) == Off
  {
    var states := StatesOf(segments);
    assert Full in states <==> exists i | 0 <= i < |segments| :: segments[i].rolloutState == Full by {
      if Full in states {
        var i :| 0 <= i < |states| && states[i] == Full;
      }
    }
    assert Partial in states <==> exists i | 0 <= i < |segments| :: segments[i].rolloutState == Partial by {
      if Partial in states {
        var i :| 0 <= i < |states| && states[i] == Partial;
      }
    }
  }

  /** The warning that a fully rolled out feature still has segments after the unconditional
      one: its last segment has conditions. */
  function HasExtraSegments(state: RolloutState, segments: seq<LogicalSegment>): (r: bool)
    ensures r <==> state == Full && segments != [] && segments[|segments| - 1].conditions != []
  {
    if state == Full then |segments| > 0 && |segments[|segments| - 1].conditions| > 0 else false
  }

  /** `symbolToLogicalFeature(uri, symbol)` in either revision. */
  function SymbolToLogicalFeature(uri: Uri, symbol: Symbol, revision: Revision): (r: LogicalFeature)
    ensures r.symbol == symbol && r.uri == uri && r.name == symbol.name
    ensures r.createdAt == OrEmpty(ChildDetail(symbol.children, "created_at"))
    ensures !r.enabled <==> ChildDetail(symbol.children, "enabled") == Some("false")
    ensures r.segmentsSymbol == FindChild(symbol.children, "segments")
    ensures r.segments == SegmentsOf(uri, r.segmentsSymbol)
    ensures r.rolloutState == SegmentsRolloutState(r.segments)
    ensures r.hasExtraSegments == HasExtraSegments(r.rolloutState, r.segments)
    ensures r.owner == OwnerOf(FindChild(symbol.children, "owner"), revision)
  {
    var segmentsSymbol := FindChild(symbol.children, "segments");
    var segments := SegmentsOf(uri, segmentsSymbol);
    var rolloutState := SegmentsRolloutState(segments);
    var owner := FindChild(symbol.children, "owner");
    LogicalFeature(
      symbol, uri, symbol.name,
      OrEmpty(ChildDetail(symbol.children, "created_at")),
      ChildDetail(symbol.children, "enabled") != Some("false"),
      OwnerOf(owner, revision),
      segmentsSymbol, segments, rolloutState,
      HasExtraSegments(rolloutState, segments))
  }

  /** The two revisions build the same feature but for its owner. */
  lemma RevisionsDifferOnlyInOwner(uri: Uri, symbol: Symbol)
    ensures SymbolToLogicalFeature(uri, symbol, TypeScriptSource).(owner := "")
         == SymbolToLogicalFeature(uri, symbol, CompiledSource).(owner := "")
  {
  }

  // ---------------------------------------------------------------------------------------
  // Back to the file's record types

  function ToConditionValue(v: LogicalConditionValue): (r: ConditionValue)
    ensures v.DetailValue? ==> r == ScalarValue(StringScalar(v.text))
    ensures v.ListValue? ==>
      && r.ArrayValue? && |r.items| == |v.items|
      && forall i | 0 <= i < |v.items| :: r.items[i] == StringScalar(v.items[i])
  {
    match v
    case DetailValue(text) => ScalarValue(StringScalar(text))
    case ListValue(items) => ArrayValue(seq(|items|, i requires 0 <= i < |items| => StringScalar(items[i])))
  }

  function ToCondition(c: LogicalCondition): Condition
  {
    Condition(c.property, c.operator, ToConditionValue(c.value))
  }

  function ToSegment(s: LogicalSegment): Segment
  {
    Segment(s.name, Some(s.rollout), seq(|s.conditions|, i requires 0 <= i < |s.conditions| => ToCondition(s.conditions[i])))
  }

  /** `logicalFeatureToFeature(logicalFeature)`: the same name and fields, the segments and
      their conditions in the same order, and the derived state as the feature's rollout. */
  function LogicalFeatureToFeature(f: LogicalFeature): (r: Feature)
    ensures r.name == f.name && r.rollout == Some(f.rolloutState)
    ensures r.definition.createdAt == Some(f.createdAt)
    ensures r.definition.enabled == Some(f.enabled)
    ensures r.definition.owner == Some(f.owner)
    ensures |r.definition.segments| == |f.segments|
    ensures forall i | 0 <= i < |f.segments| ::
      var s, t := f.segments[i], r.definition.segments[i];
      && t.name == s.name && t.rollout == Some(s.rollout) && |t.conditions| == |s.conditions|
      && forall j | 0 <= j < |s.conditions| ::
           t.conditions[j].property == s.conditions[j].property
           && t.conditions[j].operator == s.conditions[j].operator
           && t.conditions[j].value == ToConditionValue(s.conditions[j].value)
  {
    Feature(
      f.name,
      Definition(Some(f.createdAt), Some(f.enabled), Some(f.owner),
        seq(|f.segments|, i requires 0 <= i < |f.segments| => ToSegment(f.segments[i]))),
      Some(f.rolloutState))
  }

  // ---------------------------------------------------------------------------------------
  // LogicalValue

  /** The four indexes of an outline. */
  datatype Dimension = ByOwner | ByRollout | ByEnabled | ByCreatedAt

  /** The key a feature is filed under in each index: its owner, its rollout state's text,
      `String(enabled)`, and its creation date. */
  function KeyOf(d: Dimension, f: LogicalFeature): string
  {
    match d
    case ByOwner => f.owner
    case ByRollout => RolloutText(f.rolloutState)
    case ByEnabled => if f.enabled then "true" else "false"
    case ByCreatedAt => f.createdAt
  }

  /** A bucket of an outline index: the features that share one value of a field. */
  class LogicalValue {
    const uri: Uri
    const value: string
    var children: seq<LogicalFeature>

    constructor(uri: Uri, value: string)
      ensures this.uri == uri && this.value == value && children == []
    {
      this.uri := uri;
      this.value := value;
      children := [];
    }

    /** `addFeature(feature)`: appends and returns the same bucket. */
    method AddFeature(feature: LogicalFeature) returns (r: LogicalValue)
      modifies this
      ensures r == this
      ensures children == old(children) + [feature]
    {
      children := children + [feature];
      r := this;
    }
  }
}
