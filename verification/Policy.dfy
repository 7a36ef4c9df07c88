/** Compiled policies, evaluation inputs and decisions, and how compiled policies look as JSON. */
module Policy {
  import opened CodeUnits
  import opened CanonicalJson

  // ---------------------------------------------------------------- compiled policies

  type Positive = n: int | 1 <= n <= MAX_SAFE_INTEGER witness 1

  datatype IsolationLevel = ProcessRestricted | OsSandboxed | ContainerIsolated | RemoteIsolated

  datatype Requirements = Requirements(
    permissionScopes: Option<seq<Text>>,
    minimumIsolationLevel: Option<IsolationLevel>,
    timeoutMs: Option<Positive>,
    maxConcurrency: Option<Positive>,
    postVerificationRequired: Option<bool>)

  datatype Operator = Eq | NotEq | In | Contains | Lt | Lte | Gt | Gte | Exists | StartsWith | SetSubset | SetIntersects

  datatype Condition =
    | Leaf(operator: Operator, reference: Text, operand: Option<Value>)
    | AllOf(conditions: seq<Condition>)
    | AnyOf(conditions: seq<Condition>)
    | Not(condition: Condition)

  datatype Effect = Allow | Deny

  datatype Rule = Rule(
    ruleId: Text,
    domain: Text,
    subjectTypes: seq<Text>,
    action: Text,
    resourceTypes: seq<Text>,
    when: Condition,
    ruleEffect: Effect,
    requirements: Requirements,
    reasonCode: Text,
    metadata: map<Text, Value>)

  datatype SourceKind = Release | Machine | User | Workspace | Node | Workflow

  datatype PolicySet = PolicySet(
    policySetId: Text,
    version: Text,
    description: Text,
    kind: SourceKind,
    ref: Text,
    constants: map<Text, Value>,
    rules: seq<Rule>)

  // ---------------------------------------------------------------- evaluation

  datatype RiskClass = R0 | R1 | R2 | R3 | R4

  datatype Classification = Public | Internal | Confidential | Secret

  datatype Direction = Local | Inbound | Outbound

  datatype Input = Input(
    policySnapshotId: Text,
    domain: Text,
    subjectType: Text,
    action: Text,
    resourceType: Text,
    riskClass: RiskClass,
    dataClassification: Classification,
    direction: Direction,
    authorityMutation: bool,
    controlVerified: bool,
    permissionScopes: seq<Text>,
    capabilityIds: seq<Text>)

  // ---------------------------------------------------------------- patterns

  /** The regular expressions and the hash, as abstract functions. */
  datatype Patterns = Patterns(
    uuidV7: Text -> bool,
    semver: Text -> bool,
    dateTime: Text -> bool,
    stableCode: Text -> bool,
    ruleId: Text -> bool,
    constantName: Text -> bool,
    hex64: Text -> bool,
    sha256: Value -> Text)

  // ---------------------------------------------------------------- names

  const PROTECTED_KEYS: set<Text> := {Ascii("__proto__"), Ascii("prototype"), Ascii("constructor")}

  const VERSION_ONE: Text := Ascii("1.0.0")
  const CONSTANT_PREFIX: Text := Ascii("constant.")

  const SCHEMA_VERSION: Text := Ascii("schemaVersion")
  const POLICY_SET_ID: Text := Ascii("policySetId")
  const VERSION: Text := Ascii("version")
  const DESCRIPTION: Text := Ascii("description")
  const SOURCE: Text := Ascii("source")
  const DEFAULT_OUTCOME: Text := Ascii("defaultOutcome")
  const CONSTANTS: Text := Ascii("constants")
  const RULES: Text := Ascii("rules")
  const KIND: Text := Ascii("kind")
  const REF: Text := Ascii("ref")

  const RULE_ID: Text := Ascii("ruleId")
  const DOMAIN: Text := Ascii("domain")
  const SUBJECT_SELECTOR: Text := Ascii("subjectSelector")
  const SUBJECT_TYPES: Text := Ascii("subjectTypes")
  const ACTION: Text := Ascii("action")
  const RESOURCE_SELECTOR: Text := Ascii("resourceSelector")
  const RESOURCE_TYPES: Text := Ascii("resourceTypes")
  const WHEN: Text := Ascii("when")
  const RULE_EFFECT: Text := Ascii("ruleEffect")
  const REQUIREMENTS: Text := Ascii("requirements")
  const REASON_CODE: Text := Ascii("reasonCode")
  const METADATA: Text := Ascii("metadata")

  const PERMISSION_SCOPES: Text := Ascii("permissionScopes")
  const MINIMUM_ISOLATION_LEVEL: Text := Ascii("minimumIsolationLevel")
  const TIMEOUT_MS: Text := Ascii("timeoutMs")
  const MAX_CONCURRENCY: Text := Ascii("maxConcurrency")
  const POST_VERIFICATION_REQUIRED: Text := Ascii("postVerificationRequired")

  const OPERATOR: Text := Ascii("operator")
  const REFERENCE: Text := Ascii("reference")
  const OPERAND: Text := Ascii("operand")
  const CONDITIONS: Text := Ascii("conditions")
  const CONDITION: Text := Ascii("condition")

  const ALL: Text := Ascii("all")
  const ANY: Text := Ascii("any")
  const NOT: Text := Ascii("not")

  const INPUT_ACTION: Text := Ascii("input.action")
  const INPUT_DOMAIN: Text := Ascii("input.domain")
  const INPUT_SUBJECT_TYPE: Text := Ascii("input.subjectType")
  const INPUT_RESOURCE_TYPE: Text := Ascii("input.resourceType")
  const INPUT_RISK_CLASS: Text := Ascii("input.riskClass")
  const INPUT_DATA_CLASSIFICATION: Text := Ascii("input.dataClassification")
  const INPUT_DIRECTION: Text := Ascii("input.direction")
  const INPUT_AUTHORITY_MUTATION: Text := Ascii("input.authorityMutation")
  const INPUT_CONTROL_VERIFIED: Text := Ascii("input.controlVerified")
  const INPUT_PERMISSION_SCOPES: Text := Ascii("input.permissionScopes")
  const INPUT_CAPABILITY_IDS: Text := Ascii("input.capabilityIds")

  function OperatorName(op: Operator): Text {
    match op
    case Eq => Ascii("eq")
    case NotEq => Ascii("notEq")
    case In => Ascii("in")
    case Contains => Ascii("contains")
    case Lt => Ascii("lt")
    case Lte => Ascii("lte")
    case Gt => Ascii("gt")
    case Gte => Ascii("gte")
    case Exists => Ascii("exists")
    case StartsWith => Ascii("startsWith")
    case SetSubset => Ascii("setSubset")
    case SetIntersects => Ascii("setIntersects")
  }

  function LevelName(level: IsolationLevel): Text {
    match level
    case ProcessRestricted => Ascii("PROCESS_RESTRICTED")
    case OsSandboxed => Ascii("OS_SANDBOXED")
    case ContainerIsolated => Ascii("CONTAINER_ISOLATED")
    case RemoteIsolated => Ascii("REMOTE_ISOLATED")
  }

  function EffectName(effect: Effect): Text {
    match effect
    case Allow => Ascii("ALLOW")
    case Deny => Ascii("DENY")
  }

  function KindName(kind: SourceKind): Text {
    match kind
    case Release => Ascii("RELEASE")
    case Machine => Ascii("MACHINE")
    case User => Ascii("USER")
    case Workspace => Ascii("WORKSPACE")
    case Node => Ascii("NODE")
    case Workflow => Ascii("WORKFLOW")
  }

  function RiskName(risk: RiskClass): Text {
    match risk
    case R0 => Ascii("R0")
    case R1 => Ascii("R1")
    case R2 => Ascii("R2")
    case R3 => Ascii("R3")
    case R4 => Ascii("R4")
  }

  function ClassificationName(c: Classification): Text {
    match c
    case Public => Ascii("PUBLIC")
    case Internal => Ascii("INTERNAL")
    case Confidential => Ascii("CONFIDENTIAL")
    case Secret => Ascii("SECRET")
  }

  function DirectionName(d: Direction): Text {
    match d
    case Local => Ascii("LOCAL")
    case Inbound => Ascii("INBOUND")
    case Outbound => Ascii("OUTBOUND")
  }

  // ---------------------------------------------------------------- compiled policies as JSON

  function Texts(texts: seq<Text>): Value {
    ArrValue(seq(|texts|, i requires 0 <= i < |texts| => StrValue(texts[i])))
  }

  /** The fields, with one more when it is present. */
  function With(fields: map<Text, Value>, key: Text, value: Option<Value>): map<Text, Value> {
    if value.Some? then fields[key := value.value] else fields
  }

  function TextsOption(o: Option<seq<Text>>): Option<Value> { if o.Some? then Some(Texts(o.value)) else None }

  function LevelOption(o: Option<IsolationLevel>): Option<Value> {
    if o.Some? then Some(StrValue(LevelName(o.value))) else None
  }

  function NumberOption(o: Option<Positive>): Option<Value> { if o.Some? then Some(NumValue(o.value)) else None }

  function BoolOption(o: Option<bool>): Option<Value> { if o.Some? then Some(BoolValue(o.value)) else None }

  function EncodeRequirements(q: Requirements): Value {
    ObjValue(
      With(With(With(With(With(map[],
        PERMISSION_SCOPES, TextsOption(q.permissionScopes)),
        MINIMUM_ISOLATION_LEVEL, LevelOption(q.minimumIsolationLevel)),
        TIMEOUT_MS, NumberOption(q.timeoutMs)),
        MAX_CONCURRENCY, NumberOption(q.maxConcurrency)),
        POST_VERIFICATION_REQUIRED, BoolOption(q.postVerificationRequired)))
  }

  function EncodeCondition(c: Condition): Value {
    match c
    case Leaf(op, reference, operand) =>
      ObjValue(With(map[OPERATOR := StrValue(OperatorName(op)), REFERENCE := StrValue(reference)], OPERAND, operand))
    case AllOf(cs) => ObjValue(map[OPERATOR := StrValue(ALL), CONDITIONS := ArrValue(EncodeConditions(cs))])
    case AnyOf(cs) => ObjValue(map[OPERATOR := StrValue(ANY), CONDITIONS := ArrValue(EncodeConditions(cs))])
    case Not(d) => ObjValue(map[OPERATOR := StrValue(NOT), CONDITION := EncodeCondition(d)])
  }

  function EncodeConditions(cs: seq<Condition>): (r: seq<Value>)
    ensures |r| == |cs|
  {
    if cs == [] then [] else [EncodeCondition(cs[0])] + EncodeConditions(cs[1..])
  }

  function EncodeRule(r: Rule): Value {
    ObjValue(map[
      SCHEMA_VERSION := StrValue(VERSION_ONE),
      RULE_ID := StrValue(r.ruleId),
      DOMAIN := StrValue(r.domain),
      SUBJECT_SELECTOR := ObjValue(map[SUBJECT_TYPES := Texts(r.subjectTypes)]),
      ACTION := StrValue(r.action),
      RESOURCE_SELECTOR := ObjValue(map[RESOURCE_TYPES := Texts(r.resourceTypes)]),
      WHEN := EncodeCondition(r.when),
      RULE_EFFECT := StrValue(EffectName(r.ruleEffect)),
      REQUIREMENTS := EncodeRequirements(r.requirements),
      REASON_CODE := StrValue(r.reasonCode),
      METADATA := ObjValue(r.metadata)])
  }

  function EncodeRules(rules: seq<Rule>): (r: seq<Value>)
    ensures |r| == |rules| && forall i :: 0 <= i < |rules| ==> r[i] == EncodeRule(rules[i])
  {
    seq(|rules|, i requires 0 <= i < |rules| => EncodeRule(rules[i]))
  }

  function EncodePolicySet(p: PolicySet): Value {
    ObjValue(map[
      SCHEMA_VERSION := StrValue(VERSION_ONE),
      POLICY_SET_ID := StrValue(p.policySetId),
      VERSION := StrValue(p.version),
      DESCRIPTION := StrValue(p.description),
      SOURCE := ObjValue(map[KIND := StrValue(KindName(p.kind)), REF := StrValue(p.ref)]),
      DEFAULT_OUTCOME := StrValue(EffectName(Deny)),
      CONSTANTS := ObjValue(p.constants),
      RULES := ArrValue(EncodeRules(p.rules))])
  }
}
