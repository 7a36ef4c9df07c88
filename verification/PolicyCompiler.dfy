/** `compilePolicySet`: validates a policy set and normalises the order of everything unordered. */
module PolicyCompiler {
  import opened CodeUnits
  import opened CanonicalJson
  import opened CanonicalMeaning
  import opened TextOrder
  import opened Policy

  // ---------------------------------------------------------------- I-JSON

  predicate PairedAt(s: Text, i: nat)
    requires i < |s|
  {
    && (High(s[i]) ==> i + 1 < |s| && Low(s[i + 1]))
    && (Low(s[i]) ==> i > 0 && High(s[i - 1]))
  }

  /** No lone surrogate. */
  predicate UnicodeOk(s: Text) { forall i :: 0 <= i < |s| ==> PairedAt(s, i) }

  /** `assertPolicyJson` */
  predicate PolicyJsonOk(v: Value) {
    match v
    case StrValue(s) => UnicodeOk(s)
    case ArrValue(items) => forall i :: 0 <= i < |items| ==> PolicyJsonOk(items[i])
    case ObjValue(fields) =>
      forall k :: k in fields ==> k !in PROTECTED_KEYS && UnicodeOk(k) && PolicyJsonOk(fields[k])
    case _ => true
  }

  // ---------------------------------------------------------------- names

  function ParseOperator(t: Text): Option<Operator> {
    if t == OperatorName(Eq) then Some(Eq)
    else if t == OperatorName(NotEq) then Some(NotEq)
    else if t == OperatorName(In) then Some(In)
    else if t == OperatorName(Contains) then Some(Contains)
    else if t == OperatorName(Lt) then Some(Lt)
    else if t == OperatorName(Lte) then Some(Lte)
    else if t == OperatorName(Gt) then Some(Gt)
    else if t == OperatorName(Gte) then Some(Gte)
    else if t == OperatorName(Exists) then Some(Exists)
    else if t == OperatorName(StartsWith) then Some(StartsWith)
    else if t == OperatorName(SetSubset) then Some(SetSubset)
    else if t == OperatorName(SetIntersects) then Some(SetIntersects)
    else None
  }

  function ParseLevel(t: Text): Option<IsolationLevel> {
    if t == LevelName(ProcessRestricted) then Some(ProcessRestricted)
    else if t == LevelName(OsSandboxed) then Some(OsSandboxed)
    else if t == LevelName(ContainerIsolated) then Some(ContainerIsolated)
    else if t == LevelName(RemoteIsolated) then Some(RemoteIsolated)
    else None
  }

  function ParseEffect(t: Text): Option<Effect> {
    if t == EffectName(Allow) then Some(Allow) else if t == EffectName(Deny) then Some(Deny) else None
  }

  function ParseKind(t: Text): Option<SourceKind> {
    if t == KindName(Release) then Some(Release)
    else if t == KindName(Machine) then Some(Machine)
    else if t == KindName(User) then Some(User)
    else if t == KindName(Workspace) then Some(Workspace)
    else if t == KindName(Node) then Some(Node)
    else if t == KindName(Workflow) then Some(Workflow)
    else None
  }

  lemma LevelNames(level: IsolationLevel)
    ensures ParseLevel(LevelName(level)) == Some(level)
  {
    assert |LevelName(ProcessRestricted)| == 18 && |LevelName(OsSandboxed)| == 12;
    assert LevelName(ContainerIsolated)[0] == 67 && LevelName(RemoteIsolated)[0] == 82;
  }

  // ---------------------------------------------------------------- string lists

  predicate StringOk(v: Value) { v.StrValue? && 1 <= |v.s| <= 256 }

  /** `isUniqueBoundedStringArray(value, 256)` */
  predicate IsTexts(v: Value) {
    v.ArrValue?
    && (forall i :: 0 <= i < |v.items| ==> StringOk(v.items[i]))
    && forall i, j :: 0 <= i < j < |v.items| ==> v.items[i] != v.items[j]
  }

  function Entry(v: Value): Keyed<Value>
    requires StringOk(v)
  {
    Member(v.s, v)
  }

  function Entries(items: seq<Value>): seq<Keyed<Value>>
    requires forall i :: 0 <= i < |items| ==> StringOk(items[i])
  {
    seq(|items|, i requires 0 <= i < |items| => Entry(items[i]))
  }

  /** `sortedUniqueStrings` */
  function SortedTexts(v: Value): seq<Text>
    requires IsTexts(v)
  {
    KeysOf(SortMembers(Entries(v.items)))
  }

  // ---------------------------------------------------------------- fields

  predicate NonEmpty(fields: map<Text, Value>, key: Text) {
    key in fields && fields[key].StrValue? && |fields[key].s| >= 1
  }

  predicate HasText(fields: map<Text, Value>, key: Text, least: nat, most: nat) {
    key in fields && fields[key].StrValue? && least <= |fields[key].s| <= most
  }

  predicate PositiveOk(v: Value) { v.NumValue? && v.n >= 1 }

  // ---------------------------------------------------------------- requirements

  predicate LevelOk(v: Value) { v.StrValue? && ParseLevel(v.s).Some? }

  const REQUIREMENT_KEYS: set<Text> :=
    {PERMISSION_SCOPES, MINIMUM_ISOLATION_LEVEL, TIMEOUT_MS, MAX_CONCURRENCY, POST_VERIFICATION_REQUIRED}

  predicate RequirementsOk(v: Value) {
    v.ObjValue? && v.fields.Keys <= REQUIREMENT_KEYS
    && (PERMISSION_SCOPES in v.fields ==> IsTexts(v.fields[PERMISSION_SCOPES]))
    && (MINIMUM_ISOLATION_LEVEL in v.fields ==> LevelOk(v.fields[MINIMUM_ISOLATION_LEVEL]))
    && (TIMEOUT_MS in v.fields ==> PositiveOk(v.fields[TIMEOUT_MS]))
    && (MAX_CONCURRENCY in v.fields ==> PositiveOk(v.fields[MAX_CONCURRENCY]))
    && (POST_VERIFICATION_REQUIRED in v.fields ==> v.fields[POST_VERIFICATION_REQUIRED].BoolValue?)
  }

  /** `compileRequirements` */
  function MakeRequirements(v: Value): Requirements
    requires RequirementsOk(v)
  {
    var f := v.fields;
    Requirements(
      if PERMISSION_SCOPES in f then Some(SortedTexts(f[PERMISSION_SCOPES])) else None,
      if MINIMUM_ISOLATION_LEVEL in f then ParseLevel(f[MINIMUM_ISOLATION_LEVEL].s) else None,
      if TIMEOUT_MS in f then Some(f[TIMEOUT_MS].n) else None,
      if MAX_CONCURRENCY in f then Some(f[MAX_CONCURRENCY].n) else None,
      if POST_VERIFICATION_REQUIRED in f then Some(f[POST_VERIFICATION_REQUIRED].b) else None)
  }

  // ---------------------------------------------------------------- conditions

  const INPUT_REFERENCES: set<Text> := {
    INPUT_ACTION, INPUT_DOMAIN, INPUT_SUBJECT_TYPE, INPUT_RESOURCE_TYPE, INPUT_RISK_CLASS, INPUT_DATA_CLASSIFICATION,
    INPUT_DIRECTION, INPUT_AUTHORITY_MUTATION, INPUT_CONTROL_VERIFIED, INPUT_PERMISSION_SCOPES, INPUT_CAPABILITY_IDS}

  predicate IsConstantReference(reference: Text) { CONSTANT_PREFIX <= reference }

  function ConstantOf(reference: Text): Text
    requires IsConstantReference(reference)
  {
    reference[|CONSTANT_PREFIX|..]
  }

  predicate ReferenceOk(p: Patterns, reference: Text, names: set<Text>) {
    && (reference in INPUT_REFERENCES || (IsConstantReference(reference) && p.constantName(ConstantOf(reference))))
    && (IsConstantReference(reference) ==> ConstantOf(reference) in names)
  }

  predicate LeafOk(p: Patterns, f: map<Text, Value>, op: Operator, names: set<Text>) {
    && f.Keys <= {OPERATOR, REFERENCE, OPERAND}
    && NonEmpty(f, REFERENCE)
    && ReferenceOk(p, f[REFERENCE].s, names)
    && (op == Exists <==> OPERAND !in f)
  }

  /** A condition nested no deeper than `depth` further levels. */
  predicate ConditionOk(p: Patterns, v: Value, depth: int, names: set<Text>)
    decreases depth + 1
  {
    v.ObjValue? && depth >= 0 && OPERATOR in v.fields && v.fields[OPERATOR].StrValue?
    && var name := v.fields[OPERATOR].s;
    if name == ALL || name == ANY then
      && v.fields.Keys == {OPERATOR, CONDITIONS} && v.fields[CONDITIONS].ArrValue?
      && 1 <= |v.fields[CONDITIONS].items| <= 32
      && forall i :: 0 <= i < |v.fields[CONDITIONS].items| ==> ConditionOk(p, v.fields[CONDITIONS].items[i], depth - 1, names)
    else if name == NOT then
      v.fields.Keys == {OPERATOR, CONDITION} && ConditionOk(p, v.fields[CONDITION], depth - 1, names)
    else
      ParseOperator(name).Some? && LeafOk(p, v.fields, ParseOperator(name).value, names)
  }

  /** `compileCondition` */
  function MakeCondition(p: Patterns, v: Value, depth: int, names: set<Text>): Condition
    requires ConditionOk(p, v, depth, names)
    decreases depth + 1, 0
  {
    var name := v.fields[OPERATOR].s;
    if name == ALL then AllOf(MakeConditions(p, v.fields[CONDITIONS].items, depth - 1, names))
    else if name == ANY then AnyOf(MakeConditions(p, v.fields[CONDITIONS].items, depth - 1, names))
    else if name == NOT then Not(MakeCondition(p, v.fields[CONDITION], depth - 1, names))
    else
      Leaf(ParseOperator(name).value, v.fields[REFERENCE].s, if OPERAND in v.fields then Some(v.fields[OPERAND]) else None)
  }

  function MakeConditions(p: Patterns, items: seq<Value>, depth: int, names: set<Text>): (r: seq<Condition>)
    requires forall i :: 0 <= i < |items| ==> ConditionOk(p, items[i], depth, names)
    ensures |r| == |items|
    decreases depth + 1, 1 + |items|
  {
    if items == [] then [] else
      [MakeCondition(p, items[0], depth, names)] + MakeConditions(p, items[1..], depth, names)
  }

  // ---------------------------------------------------------------- rules

  const RULE_KEYS: set<Text> := {
    SCHEMA_VERSION, RULE_ID, DOMAIN, SUBJECT_SELECTOR, ACTION, RESOURCE_SELECTOR, WHEN, RULE_EFFECT, REQUIREMENTS,
    REASON_CODE, METADATA}

  predicate SelectorOk(v: Value, key: Text) {
    v.ObjValue? && v.fields.Keys == {key} && IsTexts(v.fields[key])
  }

  const MAX_DEPTH: int := 4

  predicate RuleOk(p: Patterns, v: Value, names: set<Text>) {
    v.ObjValue? && v.fields.Keys == RULE_KEYS
    && var f := v.fields;
    && f[SCHEMA_VERSION] == StrValue(VERSION_ONE)
    && HasText(f, RULE_ID, 1, 128) && p.ruleId(f[RULE_ID].s)
    && HasText(f, DOMAIN, 1, 64) && HasText(f, ACTION, 1, 128)
    && SelectorOk(f[SUBJECT_SELECTOR], SUBJECT_TYPES) && SelectorOk(f[RESOURCE_SELECTOR], RESOURCE_TYPES)
    && ConditionOk(p, f[WHEN], MAX_DEPTH, names)
    && f[RULE_EFFECT].StrValue? && ParseEffect(f[RULE_EFFECT].s).Some?
    && RequirementsOk(f[REQUIREMENTS])
    && HasText(f, REASON_CODE, 3, 128) && p.stableCode(f[REASON_CODE].s)
    && f[METADATA].ObjValue?
  }

  /** `compileRule` */
  function MakeRule(p: Patterns, v: Value, names: set<Text>): Rule
    requires RuleOk(p, v, names)
  {
    var f := v.fields;
    Rule(
      f[RULE_ID].s, f[DOMAIN].s, SortedTexts(f[SUBJECT_SELECTOR].fields[SUBJECT_TYPES]), f[ACTION].s,
      SortedTexts(f[RESOURCE_SELECTOR].fields[RESOURCE_TYPES]), MakeCondition(p, f[WHEN], MAX_DEPTH, names),
      ParseEffect(f[RULE_EFFECT].s).value, MakeRequirements(f[REQUIREMENTS]), f[REASON_CODE].s, f[METADATA].fields)
  }

  /** The compiled rules, each under its id, in source order. */
  function MakeRules(p: Patterns, items: seq<Value>, names: set<Text>): (r: seq<Keyed<Rule>>)
    requires forall i :: 0 <= i < |items| ==> RuleOk(p, items[i], names)
    ensures |r| == |items|
    ensures forall i :: 0 <= i < |r| ==> r[i].value == MakeRule(p, items[i], names) && r[i].key == r[i].value.ruleId
  {
    seq(|items|, i requires 0 <= i < |items| => Member(MakeRule(p, items[i], names).ruleId, MakeRule(p, items[i], names)))
  }

  // ---------------------------------------------------------------- policy sets

  const SET_KEYS: set<Text> :=
    {SCHEMA_VERSION, POLICY_SET_ID, VERSION, DESCRIPTION, SOURCE, DEFAULT_OUTCOME, CONSTANTS, RULES}

  predicate SourceOk(v: Value) {
    v.ObjValue? && v.fields.Keys == {KIND, REF}
    && v.fields[KIND].StrValue? && ParseKind(v.fields[KIND].s).Some? && HasText(v.fields, REF, 1, 512)
  }

  predicate ConstantsOk(p: Patterns, v: Value) {
    v.ObjValue? && forall k :: k in v.fields ==> p.constantName(k)
  }

  predicate RulesOk(p: Patterns, v: Value, names: set<Text>) {
    v.ArrValue? && |v.items| <= 4096
    && (forall i :: 0 <= i < |v.items| ==> RuleOk(p, v.items[i], names))
    && DistinctKeys(MakeRules(p, v.items, names))
  }

  predicate SetOk(p: Patterns, v: Value) {
    PolicyJsonOk(v) && v.ObjValue? && v.fields.Keys == SET_KEYS
    && var f := v.fields;
    && f[SCHEMA_VERSION] == StrValue(VERSION_ONE) && f[DEFAULT_OUTCOME] == StrValue(EffectName(Deny))
    && NonEmpty(f, POLICY_SET_ID) && p.uuidV7(f[POLICY_SET_ID].s)
    && NonEmpty(f, VERSION) && p.semver(f[VERSION].s)
    && HasText(f, DESCRIPTION, 1, 2048)
    && SourceOk(f[SOURCE]) && ConstantsOk(p, f[CONSTANTS]) && RulesOk(p, f[RULES], f[CONSTANTS].fields.Keys)
  }

  function MakeSet(p: Patterns, v: Value): PolicySet
    requires SetOk(p, v)
  {
    var f := v.fields;
    PolicySet(
      f[POLICY_SET_ID].s, f[VERSION].s, f[DESCRIPTION].s, ParseKind(f[SOURCE].fields[KIND].s).value, f[SOURCE].fields[REF].s,
      f[CONSTANTS].fields, ValuesOf(SortMembers(MakeRules(p, f[RULES].items, f[CONSTANTS].fields.Keys))))
  }

  /** `compilePolicySet`, without its diagnostics. */
  function Compile(p: Patterns, v: Value): Option<PolicySet> {
    if SetOk(p, v) then Some(MakeSet(p, v)) else None
  }
}
