/** What policies and inputs say as JSON. */
module PolicyLanguage {
  // A reading of policy sources and evaluation inputs on their JSON values, by the names the files use, and
  // the proof that compiling and evaluating keep to it.
  import opened CodeUnits
  import opened CanonicalJson
  import opened TextOrder
  import opened Policy
  import opened PolicyCompiler
  import opened PolicyNormalForm
  import opened PolicySnapshots
  import opened PolicyEvaluator
  import opened PolicyDecisions

  type Fields = map<Text, Value>

  function Word(s: string): Value { StrValue(Ascii(s)) }

  /** The field of that name, if there is one. */
  predicate Has(f: Fields, name: string, v: Value) { Ascii(name) in f && f[Ascii(name)] == v }

  // ---------------------------------------------------------------- references

  /** The names an input's fields can be referred to by. */
  const READABLE: set<Text> := {
    Ascii("action"), Ascii("domain"), Ascii("subjectType"), Ascii("resourceType"), Ascii("riskClass"),
    Ascii("dataClassification"), Ascii("direction"), Ascii("authorityMutation"), Ascii("controlVerified"),
    Ascii("permissionScopes"), Ascii("capabilityIds")}

  lemma RiskReads(t: Text)
    requires ParseRisk(t).Some?
    ensures RiskName(ParseRisk(t).value) == t
  {
  }

  lemma ClassificationReads(t: Text)
    requires ParseClassification(t).Some?
    ensures ClassificationName(ParseClassification(t).value) == t
  {
  }

  lemma DirectionReads(t: Text)
    requires ParseDirection(t).Some?
    ensures DirectionName(ParseDirection(t).value) == t
  {
  }

  lemma InputNamesDiffer()
    ensures |INPUT_ACTION| == 12 && |INPUT_DOMAIN| == 12 && |INPUT_SUBJECT_TYPE| == 17 && |INPUT_RESOURCE_TYPE| == 18
    ensures |INPUT_RISK_CLASS| == 15 && |INPUT_DATA_CLASSIFICATION| == 24 && |INPUT_DIRECTION| == 15
    ensures |INPUT_AUTHORITY_MUTATION| == 23 && |INPUT_CONTROL_VERIFIED| == 21 && |INPUT_PERMISSION_SCOPES| == 22
    ensures |INPUT_CAPABILITY_IDS| == 19
    ensures INPUT_ACTION[6] == 97 && INPUT_DOMAIN[6] == 100 && INPUT_RISK_CLASS[6] == 114 && INPUT_DIRECTION[6] == 100
  {
  }

  lemma TextNamesJoin()
    ensures Ascii("input.") + ACTION == INPUT_ACTION && Ascii("input.") + DOMAIN == INPUT_DOMAIN
    ensures Ascii("input.") + SUBJECT_TYPE == INPUT_SUBJECT_TYPE && Ascii("input.") + RESOURCE_TYPE == INPUT_RESOURCE_TYPE
  {
  }

  lemma ClassNamesJoin()
    ensures Ascii("input.") + RISK_CLASS == INPUT_RISK_CLASS && Ascii("input.") + DIRECTION == INPUT_DIRECTION
    ensures Ascii("input.") + DATA_CLASSIFICATION == INPUT_DATA_CLASSIFICATION
  {
  }

  lemma FlagNamesJoin()
    ensures Ascii("input.") + AUTHORITY_MUTATION == INPUT_AUTHORITY_MUTATION
    ensures Ascii("input.") + CONTROL_VERIFIED == INPUT_CONTROL_VERIFIED
  {
  }

  lemma ListNamesJoin()
    ensures Ascii("input.") + PERMISSION_SCOPES == INPUT_PERMISSION_SCOPES
    ensures Ascii("input.") + CAPABILITY_IDS == INPUT_CAPABILITY_IDS
  {
  }

  lemma NotConstant(t: Text)
    requires t != [] && t[0] == 105
    ensures !IsConstantReference(t)
  {
    assert CONSTANT_PREFIX[0] == 99;
  }

  /** The parsed input and the fields it was parsed from. */
  predicate Holds(i: Input, f: Fields) {
    && f.Keys == INPUT_KEYS
    && f[ACTION] == StrValue(i.action) && f[DOMAIN] == StrValue(i.domain)
    && f[SUBJECT_TYPE] == StrValue(i.subjectType) && f[RESOURCE_TYPE] == StrValue(i.resourceType)
    && f[RISK_CLASS] == StrValue(RiskName(i.riskClass)) && f[DIRECTION] == StrValue(DirectionName(i.direction))
    && f[DATA_CLASSIFICATION] == StrValue(ClassificationName(i.dataClassification))
    && f[AUTHORITY_MUTATION] == BoolValue(i.authorityMutation) && f[CONTROL_VERIFIED] == BoolValue(i.controlVerified)
    && f[PERMISSION_SCOPES] == Texts(i.permissionScopes) && f[CAPABILITY_IDS] == Texts(i.capabilityIds)
    && f[POLICY_SNAPSHOT_ID] == StrValue(i.policySnapshotId)
  }

  lemma ParsedHolds(p: Patterns, v: Value)
    requires ParseInput(p, v).Some?
    ensures Holds(ParseInput(p, v).value, v.fields)
  {
    RiskReads(v.fields[RISK_CLASS].s);
    ClassificationReads(v.fields[DATA_CLASSIFICATION].s);
    DirectionReads(v.fields[DIRECTION].s);
  }

  lemma TextsRead(i: Input, f: Fields, constants: Constants)
    requires Holds(i, f)
    ensures Actual(INPUT_ACTION, i, constants) == Some(f[ACTION]) && Actual(INPUT_DOMAIN, i, constants) == Some(f[DOMAIN])
    ensures Actual(INPUT_SUBJECT_TYPE, i, constants) == Some(f[SUBJECT_TYPE])
    ensures Actual(INPUT_RESOURCE_TYPE, i, constants) == Some(f[RESOURCE_TYPE])
  {
    InputNamesDiffer();
    NotConstant(INPUT_ACTION);
    NotConstant(INPUT_DOMAIN);
    NotConstant(INPUT_SUBJECT_TYPE);
    NotConstant(INPUT_RESOURCE_TYPE);
  }

  lemma ClassesRead(i: Input, f: Fields, constants: Constants)
    requires Holds(i, f)
    ensures Actual(INPUT_RISK_CLASS, i, constants) == Some(f[RISK_CLASS])
    ensures Actual(INPUT_DATA_CLASSIFICATION, i, constants) == Some(f[DATA_CLASSIFICATION])
    ensures Actual(INPUT_DIRECTION, i, constants) == Some(f[DIRECTION])
  {
    InputNamesDiffer();
    NotConstant(INPUT_RISK_CLASS);
    NotConstant(INPUT_DATA_CLASSIFICATION);
    NotConstant(INPUT_DIRECTION);
  }

  lemma OthersRead(i: Input, f: Fields, constants: Constants)
    requires Holds(i, f)
    ensures Actual(INPUT_AUTHORITY_MUTATION, i, constants) == Some(f[AUTHORITY_MUTATION])
    ensures Actual(INPUT_CONTROL_VERIFIED, i, constants) == Some(f[CONTROL_VERIFIED])
    ensures Actual(INPUT_PERMISSION_SCOPES, i, constants) == Some(f[PERMISSION_SCOPES])
    ensures Actual(INPUT_CAPABILITY_IDS, i, constants) == Some(f[CAPABILITY_IDS])
  {
    InputNamesDiffer();
    NotConstant(INPUT_AUTHORITY_MUTATION);
    NotConstant(INPUT_CONTROL_VERIFIED);
    NotConstant(INPUT_PERMISSION_SCOPES);
    NotConstant(INPUT_CAPABILITY_IDS);
  }

  lemma ReadsText(i: Input, f: Fields, key: Text, constants: Constants)
    requires Holds(i, f) && key in {ACTION, DOMAIN, SUBJECT_TYPE, RESOURCE_TYPE}
    ensures key in f && Actual(Ascii("input.") + key, i, constants) == Some(f[key])
  {
    TextNamesJoin();
    TextsRead(i, f, constants);
  }

  lemma ReadsClass(i: Input, f: Fields, key: Text, constants: Constants)
    requires Holds(i, f) && key in {RISK_CLASS, DATA_CLASSIFICATION, DIRECTION}
    ensures key in f && Actual(Ascii("input.") + key, i, constants) == Some(f[key])
  {
    ClassNamesJoin();
    ClassesRead(i, f, constants);
  }

  lemma ReadsOther(i: Input, f: Fields, key: Text, constants: Constants)
    requires Holds(i, f) && key in {AUTHORITY_MUTATION, CONTROL_VERIFIED, PERMISSION_SCOPES, CAPABILITY_IDS}
    ensures key in f && Actual(Ascii("input.") + key, i, constants) == Some(f[key])
  {
    FlagNamesJoin();
    ListNamesJoin();
    OthersRead(i, f, constants);
  }

  /** A reference to an input field is that field of the input as it was given. */
  lemma ReferenceReads(p: Patterns, v: Value, key: Text, constants: Constants)
    requires ParseInput(p, v).Some? && key in READABLE
    ensures key in v.fields && Actual(Ascii("input.") + key, ParseInput(p, v).value, constants) == Some(v.fields[key])
  {
    ParsedHolds(p, v);
    ReadsField(ParseInput(p, v).value, v.fields, key, constants);
  }

  lemma ReadsField(i: Input, f: Fields, key: Text, constants: Constants)
    requires Holds(i, f) && key in READABLE
    ensures key in f && Actual(Ascii("input.") + key, i, constants) == Some(f[key])
  {
    if key in {ACTION, DOMAIN, SUBJECT_TYPE, RESOURCE_TYPE} {
      ReadsText(i, f, key, constants);
    } else if key in {RISK_CLASS, DATA_CLASSIFICATION, DIRECTION} {
      ReadsClass(i, f, key, constants);
    } else {
      ReadsOther(i, f, key, constants);
    }
  }

  /** A reference to a constant is the constant of that name. */
  lemma ConstantReads(name: Text, input: Input, constants: Constants)
    ensures Actual(Ascii("constant.") + name, input, constants) == if name in constants then Some(constants[name]) else None
  {
    assert (Ascii("constant.") + name)[|Ascii("constant.")|..] == name;
    assert IsConstantReference(Ascii("constant.") + name);
  }

  // ---------------------------------------------------------------- names

  lemma OperatorsDiffer()
    ensures |OperatorName(Eq)| == 2 && |OperatorName(In)| == 2 && |OperatorName(Lt)| == 2 && |OperatorName(Gt)| == 2
    ensures |OperatorName(Lte)| == 3 && |OperatorName(Gte)| == 3 && |OperatorName(NotEq)| == 5 && |OperatorName(Exists)| == 6
    ensures |OperatorName(Contains)| == 8 && |OperatorName(SetSubset)| == 9 && |OperatorName(StartsWith)| == 10
    ensures |OperatorName(SetIntersects)| == 13
    ensures OperatorName(Eq)[0] == 101 && OperatorName(In)[0] == 105 && OperatorName(Lt)[0] == 108 && OperatorName(Gt)[0] == 103
    ensures OperatorName(Lte)[0] == 108 && OperatorName(Gte)[0] == 103
  {
  }

  /** The operators by the names policies use. */
  lemma OperatorsAreSpelled(t: Text)
    ensures ParseOperator(t) == Some(Eq) <==> t == Ascii("eq")
    ensures ParseOperator(t) == Some(NotEq) <==> t == Ascii("notEq")
    ensures ParseOperator(t) == Some(In) <==> t == Ascii("in")
    ensures ParseOperator(t) == Some(Contains) <==> t == Ascii("contains")
    ensures ParseOperator(t) == Some(Lt) <==> t == Ascii("lt")
    ensures ParseOperator(t) == Some(Lte) <==> t == Ascii("lte")
    ensures ParseOperator(t) == Some(Gt) <==> t == Ascii("gt")
    ensures ParseOperator(t) == Some(Gte) <==> t == Ascii("gte")
    ensures ParseOperator(t) == Some(Exists) <==> t == Ascii("exists")
    ensures ParseOperator(t) == Some(StartsWith) <==> t == Ascii("startsWith")
    ensures ParseOperator(t) == Some(SetSubset) <==> t == Ascii("setSubset")
    ensures ParseOperator(t) == Some(SetIntersects) <==> t == Ascii("setIntersects")
  {
    OperatorsDiffer();
  }

  lemma EffectsAreSpelled(t: Text)
    ensures ParseEffect(t) == Some(Allow) <==> t == Ascii("ALLOW")
    ensures ParseEffect(t) == Some(Deny) <==> t == Ascii("DENY")
  {
    assert |Ascii("ALLOW")| == 5 && |Ascii("DENY")| == 4;
  }

  lemma LevelsAreSpelled(t: Text)
    ensures ParseLevel(t) == Some(ProcessRestricted) <==> t == Ascii("PROCESS_RESTRICTED")
    ensures ParseLevel(t) == Some(OsSandboxed) <==> t == Ascii("OS_SANDBOXED")
    ensures ParseLevel(t) == Some(ContainerIsolated) <==> t == Ascii("CONTAINER_ISOLATED")
    ensures ParseLevel(t) == Some(RemoteIsolated) <==> t == Ascii("REMOTE_ISOLATED")
  {
    LevelNames(ProcessRestricted);
    LevelNames(OsSandboxed);
    LevelNames(ContainerIsolated);
    LevelNames(RemoteIsolated);
  }

  lemma KindsDiffer()
    ensures |KindName(Release)| == 7 && |KindName(Machine)| == 7 && |KindName(User)| == 4 && |KindName(Node)| == 4
    ensures |KindName(Workspace)| == 9 && |KindName(Workflow)| == 8
    ensures KindName(Release)[0] == 82 && KindName(Machine)[0] == 77 && KindName(User)[0] == 85 && KindName(Node)[0] == 78
  {
  }

  lemma KindsAreSpelled(t: Text)
    ensures ParseKind(t) == Some(Release) <==> t == Ascii("RELEASE")
    ensures ParseKind(t) == Some(Machine) <==> t == Ascii("MACHINE")
    ensures ParseKind(t) == Some(User) <==> t == Ascii("USER")
    ensures ParseKind(t) == Some(Workspace) <==> t == Ascii("WORKSPACE")
    ensures ParseKind(t) == Some(Node) <==> t == Ascii("NODE")
    ensures ParseKind(t) == Some(Workflow) <==> t == Ascii("WORKFLOW")
  {
    KindsDiffer();
  }

  lemma RisksAreSpelled(t: Text)
    ensures ParseRisk(t) == Some(R4) <==> t == Ascii("R4")
    ensures ParseRisk(t).Some? <==> t in {Ascii("R0"), Ascii("R1"), Ascii("R2"), Ascii("R3"), Ascii("R4")}
  {
    assert Ascii("R0")[1] == 48 && Ascii("R1")[1] == 49 && Ascii("R2")[1] == 50 && Ascii("R3")[1] == 51 && Ascii("R4")[1] == 52;
  }

  lemma ClassificationsAreSpelled(t: Text)
    ensures ParseClassification(t) == Some(Secret) <==> t == Ascii("SECRET")
    ensures ParseClassification(t).Some? <==> t in {Ascii("PUBLIC"), Ascii("INTERNAL"), Ascii("CONFIDENTIAL"), Ascii("SECRET")}
  {
    assert |Ascii("PUBLIC")| == 6 && |Ascii("INTERNAL")| == 8 && |Ascii("CONFIDENTIAL")| == 12 && |Ascii("SECRET")| == 6;
    assert Ascii("PUBLIC")[0] == 80 && Ascii("SECRET")[0] == 83;
  }

  lemma DirectionsAreSpelled(t: Text)
    ensures ParseDirection(t) == Some(Outbound) <==> t == Ascii("OUTBOUND")
    ensures ParseDirection(t).Some? <==> t in {Ascii("LOCAL"), Ascii("INBOUND"), Ascii("OUTBOUND")}
  {
    assert |Ascii("LOCAL")| == 5 && |Ascii("INBOUND")| == 7 && |Ascii("OUTBOUND")| == 8;
  }

  // ---------------------------------------------------------------- types

  /** The six types of JSON values. */
  function TypeOf(v: Value): string {
    match v
    case NullValue => "null"
    case BoolValue(_) => "boolean"
    case NumValue(_) => "number"
    case FloatValue(_) => "number"
    case StrValue(_) => "string"
    case ArrValue(_) => "array"
    case ObjValue(_) => "object"
  }

  lemma TypesDiffer(a: Value, b: Value)
    ensures SameType(a, b) <==> TypeOf(a) == TypeOf(b)
  {
    assert |"null"| == 4 && |"boolean"| == 7 && |"number"| == 6 && |"string"| == 6 && |"array"| == 5 && |"object"| == 6;
    assert "number"[0] == 'n' && "string"[0] == 's' && "object"[0] == 'o';
  }

  lemma NamesOfTypes(v: Value)
    ensures TypeOf(v) == "array" <==> v.ArrValue?
    ensures TypeOf(v) == "string" <==> v.StrValue?
    ensures TypeOf(v) == "number" <==> IsNumber(v)
  {
    assert |"null"| == 4 && |"boolean"| == 7 && |"number"| == 6 && |"string"| == 6 && |"array"| == 5 && |"object"| == 6;
    assert "number"[0] == 'n' && "string"[0] == 's' && "object"[0] == 'o';
  }

  /** The types each operator is about. */
  lemma TypesAreTold(operator: Text, op: Operator, a: Value, e: Value)
    requires ParseOperator(operator) == Some(op)
    ensures operator in {Ascii("eq"), Ascii("notEq")} ==> (TypesFit(op, a, Some(e)) <==> TypeOf(a) == TypeOf(e))
    ensures operator == Ascii("in") ==> (TypesFit(op, a, Some(e)) <==> TypeOf(e) == "array")
    ensures operator == Ascii("contains") ==>
      (TypesFit(op, a, Some(e)) <==> TypeOf(a) == "array" || TypeOf(a) == "string" == TypeOf(e))
    ensures operator in {Ascii("lt"), Ascii("lte"), Ascii("gt"), Ascii("gte")} ==>
      (TypesFit(op, a, Some(e)) <==> TypeOf(a) == "number" == TypeOf(e))
    ensures operator == Ascii("startsWith") ==> (TypesFit(op, a, Some(e)) <==> TypeOf(a) == "string" == TypeOf(e))
    ensures operator in {Ascii("setSubset"), Ascii("setIntersects")} ==> (TypesFit(op, a, Some(e)) <==> TypeOf(a) == "array" == TypeOf(e))
    ensures operator == Ascii("exists") ==> TypesFit(op, a, Some(e)) && TypesFit(op, a, None)
  {
    hide ParseOperator, SameType;
    OperatorsAreSpelled(operator);
    TypesDiffer(a, e);
    NamesOfTypes(a);
    NamesOfTypes(e);
  }

  // ---------------------------------------------------------------- conditions

  /** What a reference stands for, given the input and the constants. */
  function Referent(reference: Text, input: Value, constants: Fields): Option<Value> {
    if Ascii("constant.") <= reference then
      if reference[9..] in constants then Some(constants[reference[9..]]) else None
    else if Ascii("input.") <= reference && reference[6..] in READABLE && input.ObjValue? && reference[6..] in input.fields then
      Some(input.fields[reference[6..]])
    else None
  }

  /** What an operator says of two values: nothing, when it is not about their types. */
  ghost function LeafSays(operator: Text, actual: Option<Value>, operand: Option<Value>): Option<bool> {
    match ParseOperator(operator)
    case None => None
    case Some(op) =>
      if actual.Some? && TypesFit(op, actual.value, operand) then Some(Relates(op, actual.value, operand)) else None
  }

  /** What several conditions say together, all of them or any. */
  function Joint(all: bool, said: seq<Option<bool>>): Option<bool> {
    if None in said then None else if all then Some(Some(false) !in said) else Some(Some(true) in said)
  }

  /** What a condition says of an input: nothing while one of its parts says nothing. */
  ghost function Says(c: Value, input: Value, constants: Fields): Option<bool>
    decreases c
  {
    if !c.ObjValue? || Ascii("operator") !in c.fields then None else
      var f := c.fields;
      var operator := f[Ascii("operator")];
      if operator in {Word("all"), Word("any")} && Ascii("conditions") in f && f[Ascii("conditions")].ArrValue? then
        var parts := f[Ascii("conditions")].items;
        Joint(operator == Word("all"), seq(|parts|, i requires 0 <= i < |parts| => Says(parts[i], input, constants)))
      else if operator == Word("not") && Ascii("condition") in f then
        match Says(f[Ascii("condition")], input, constants)
        case None => None
        case Some(holds) => Some(!holds)
      else if operator.StrValue? && Ascii("reference") in f && f[Ascii("reference")].StrValue? then
        LeafSays(operator.s, Referent(f[Ascii("reference")].s, input, constants), Operand(f))
      else None
  }

  function Operand(f: Fields): Option<Value> { if Ascii("operand") in f then Some(f[Ascii("operand")]) else None }

  function Spoken(v: Verdict): Option<bool> { if v.ok then Some(v.matched) else None }

  /** The condition says what the compiled one evaluates to. */
  ghost predicate SaysAs(v: Value, c: Condition, i: Input, input: Value, constants: Constants) {
    Says(v, input, constants) == Spoken(Evaluate(c, i, constants))
  }

  lemma KnownReference(reference: Text)
    requires reference in INPUT_REFERENCES
    ensures Ascii("input.") <= reference && reference[6..] in READABLE && !(Ascii("constant.") <= reference)
    ensures reference == Ascii("input.") + reference[6..]
  {
    TextNamesJoin();
    ClassNamesJoin();
    FlagNamesJoin();
    ListNamesJoin();
    var key :| key in READABLE && reference == Ascii("input.") + key;
    assert reference[6..] == key;
    NotConstant(reference);
  }

  lemma ReferentReads(p: Patterns, reference: Text, names: set<Text>, i: Input, input: Value, constants: Constants)
    requires ReferenceOk(p, reference, names) && input.ObjValue? && Holds(i, input.fields)
    ensures Referent(reference, input, constants) == Actual(reference, i, constants)
  {
    if reference in INPUT_REFERENCES {
      KnownReference(reference);
      ReadsField(i, input.fields, reference[6..], constants);
    }
  }

  lemma LeafIsSaid(p: Patterns, v: Value, depth: int, names: set<Text>, i: Input, input: Value, constants: Constants)
    requires ConditionOk(p, v, depth, names) && v.fields[OPERATOR].s !in {ALL, ANY, NOT}
    requires input.ObjValue? && Holds(i, input.fields)
    ensures SaysAs(v, MakeCondition(p, v, depth, names), i, input, constants)
  {
    ReferentReads(p, v.fields[REFERENCE].s, names, i, input, constants);
    LeafVerdict(MakeCondition(p, v, depth, names), i, constants);
  }

  predicate PartsOk(p: Patterns, parts: seq<Value>, depth: int, names: set<Text>) {
    forall k :: 0 <= k < |parts| ==> ConditionOk(p, parts[k], depth, names)
  }

  lemma {:induction false} MadeConditions(p: Patterns, items: seq<Value>, depth: int, names: set<Text>, k: nat)
    requires PartsOk(p, items, depth, names) && k < |items|
    ensures MakeConditions(p, items, depth, names)[k] == MakeCondition(p, items[k], depth, names)
  {
    if k > 0 {
      MadeConditions(p, items[1..], depth, names, k - 1);
    }
  }

  ghost function SaidBy(parts: seq<Value>, input: Value, constants: Constants): seq<Option<bool>> {
    seq(|parts|, k requires 0 <= k < |parts| => Says(parts[k], input, constants))
  }

  function Spoke(cs: seq<Condition>, i: Input, constants: Constants): seq<Option<bool>> {
    seq(|cs|, k requires 0 <= k < |cs| => Spoken(Evaluate(cs[k], i, constants)))
  }

  lemma JunctionSpeaks(cs: seq<Condition>, i: Input, constants: Constants)
    ensures Spoken(Evaluate(AllOf(cs), i, constants)) == Joint(true, Spoke(cs, i, constants))
    ensures Spoken(Evaluate(AnyOf(cs), i, constants)) == Joint(false, Spoke(cs, i, constants))
  {
    var results, said := EvaluateEach(cs, i, constants), Spoke(cs, i, constants);
    forall k | 0 <= k < |cs|
      ensures said[k] == Spoken(results[k]) && said[k] in said
    {
    }
  }

  lemma JunctionIsSaid(v: Value, cs: seq<Condition>, i: Input, input: Value, constants: Constants)
    requires v.ObjValue? && v.fields.Keys == {OPERATOR, CONDITIONS} && v.fields[CONDITIONS].ArrValue?
    requires v.fields[OPERATOR] in {StrValue(ALL), StrValue(ANY)}
    requires SaidBy(v.fields[CONDITIONS].items, input, constants) == Spoke(cs, i, constants)
    ensures SaysAs(v, if v.fields[OPERATOR].s == ALL then AllOf(cs) else AnyOf(cs), i, input, constants)
  {
    JunctionSpeaks(cs, i, constants);
    var parts := v.fields[CONDITIONS].items;
    assert seq(|parts|, i requires 0 <= i < |parts| => Says(parts[i], input, constants)) == SaidBy(parts, input, constants);
  }

  lemma NegationIsSaid(v: Value, c: Condition, i: Input, input: Value, constants: Constants)
    requires v.ObjValue? && v.fields.Keys == {OPERATOR, CONDITION} && v.fields[OPERATOR] == StrValue(NOT)
    requires SaysAs(v.fields[CONDITION], c, i, input, constants)
    ensures SaysAs(v, Not(c), i, input, constants)
  {
    ConditionKeysDiffer();
  }

  /** Compiling and evaluating a condition keeps to what it says. */
  lemma {:induction false} ConditionIsSaid(p: Patterns, v: Value, depth: int, names: set<Text>, i: Input, input: Value, constants: Constants)
    requires ConditionOk(p, v, depth, names) && input.ObjValue? && Holds(i, input.fields)
    ensures SaysAs(v, MakeCondition(p, v, depth, names), i, input, constants)
    decreases depth + 1, 2
  {
    var name := v.fields[OPERATOR].s;
    if name == NOT {
      NotIsSaid(p, v, depth, names, i, input, constants);
    } else if name in {ALL, ANY} {
      JunctionMade(p, v, depth, names);
      AllOrAnyIsSaid(p, v, depth - 1, names, i, input, constants);
    } else {
      LeafIsSaid(p, v, depth, names, i, input, constants);
    }
  }

  lemma {:induction false} NotIsSaid(p: Patterns, v: Value, depth: int, names: set<Text>, i: Input, input: Value, constants: Constants)
    requires ConditionOk(p, v, depth, names) && input.ObjValue? && Holds(i, input.fields)
    requires v.fields[OPERATOR] == StrValue(NOT)
    ensures SaysAs(v, MakeCondition(p, v, depth, names), i, input, constants)
    decreases depth + 1, 1
  {
    assert ALL[1] == 108 && ANY[1] == 110 && NOT[1] == 111;
    ConditionIsSaid(p, v.fields[CONDITION], depth - 1, names, i, input, constants);
    NegationIsSaid(v, MakeCondition(p, v.fields[CONDITION], depth - 1, names), i, input, constants);
  }

  lemma JunctionMade(p: Patterns, v: Value, depth: int, names: set<Text>)
    requires ConditionOk(p, v, depth, names) && v.fields[OPERATOR] in {StrValue(ALL), StrValue(ANY)}
    ensures v.fields.Keys == {OPERATOR, CONDITIONS} && v.fields[CONDITIONS].ArrValue?
    ensures depth >= 0 && PartsOk(p, v.fields[CONDITIONS].items, depth - 1, names)
    ensures MakeCondition(p, v, depth, names) ==
      var cs := MakeConditions(p, v.fields[CONDITIONS].items, depth - 1, names);
      if v.fields[OPERATOR].s == ALL then AllOf(cs) else AnyOf(cs)
  {
    assert ALL[1] == 108 && ANY[1] == 110;
  }

  lemma {:induction false} AllOrAnyIsSaid(p: Patterns, v: Value, depth: int, names: set<Text>, i: Input, input: Value, constants: Constants)
    requires v.ObjValue? && v.fields.Keys == {OPERATOR, CONDITIONS} && v.fields[CONDITIONS].ArrValue?
    requires v.fields[OPERATOR] in {StrValue(ALL), StrValue(ANY)}
    requires PartsOk(p, v.fields[CONDITIONS].items, depth, names) && input.ObjValue? && Holds(i, input.fields)
    ensures var cs := MakeConditions(p, v.fields[CONDITIONS].items, depth, names);
      SaysAs(v, if v.fields[OPERATOR].s == ALL then AllOf(cs) else AnyOf(cs), i, input, constants)
    decreases depth + 1, 4
  {
    var parts := v.fields[CONDITIONS].items;
    PartsAreSaid(p, parts, depth, names, i, input, constants);
    JunctionIsSaid(v, MakeConditions(p, parts, depth, names), i, input, constants);
  }

  lemma {:induction false} PartsAreSaid(p: Patterns, parts: seq<Value>, depth: int, names: set<Text>, i: Input, input: Value, constants: Constants)
    requires PartsOk(p, parts, depth, names) && input.ObjValue? && Holds(i, input.fields)
    ensures SaidBy(parts, input, constants) == Spoke(MakeConditions(p, parts, depth, names), i, constants)
    decreases depth + 1, 3
  {
    forall k | 0 <= k < |parts|
      ensures Says(parts[k], input, constants) == Spoken(Evaluate(MakeConditions(p, parts, depth, names)[k], i, constants))
    {
      MadeConditions(p, parts, depth, names, k);
      ConditionIsSaid(p, parts[k], depth, names, i, input, constants);
    }
  }
}
