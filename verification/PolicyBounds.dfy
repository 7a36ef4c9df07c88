/** Which policy sets come out of `compilePolicySet`. */
module PolicyBounds {
  // The bounds that a compiled set keeps, stated on the set itself, and the proof that the sets within the
  // bounds are exactly those that some source compiles to, each of them from its own JSON.
  import opened CodeUnits
  import opened CanonicalJson
  import opened CanonicalMeaning
  import opened TextOrder
  import opened Policy
  import opened PolicyCompiler
  import opened PolicyNormalForm
  import opened PolicySnapshots
  import opened PolicyEvaluator
  import opened PolicyDecisions
  import opened PolicyLanguage

  // ---------------------------------------------------------------- conditions

  /** An input field, or a constant that is declared under a proper name. */
  predicate RefersTo(p: Patterns, names: set<Text>, reference: Text) {
    || (Ascii("input.") <= reference && reference[6..] in READABLE)
    || (Ascii("constant.") <= reference && reference[9..] in names && p.constantName(reference[9..]))
  }

  /** Operators have an operand unless they ask for presence; lists of conditions are neither empty nor longer
      than 32; nesting goes so many levels deeper at most. */
  predicate Bounded(p: Patterns, names: set<Text>, c: Condition, levels: nat) {
    match c
    case Leaf(op, reference, operand) => RefersTo(p, names, reference) && (operand.None? <==> op == Exists)
    case AllOf(cs) => levels > 0 && 1 <= |cs| <= 32 && forall i :: 0 <= i < |cs| ==> Bounded(p, names, cs[i], levels - 1)
    case AnyOf(cs) => levels > 0 && 1 <= |cs| <= 32 && forall i :: 0 <= i < |cs| ==> Bounded(p, names, cs[i], levels - 1)
    case Not(d) => levels > 0 && Bounded(p, names, d, levels - 1)
  }

  lemma ReferenceIsKnown(p: Patterns, names: set<Text>, reference: Text)
    ensures ReferenceOk(p, reference, names) <==> RefersTo(p, names, reference)
    ensures ReferenceOk(p, reference, names) ==> reference != []
  {
    if reference in INPUT_REFERENCES {
      KnownReference(reference);
    }
    if Ascii("input.") <= reference && reference[6..] in READABLE {
      InputReference(reference);
    }
  }

  lemma InputReference(reference: Text)
    requires Ascii("input.") <= reference && reference[6..] in READABLE
    ensures reference in INPUT_REFERENCES && !IsConstantReference(reference)
  {
    assert reference == Ascii("input.") + reference[6..];
    TextNamesJoin();
    ClassNamesJoin();
    FlagNamesJoin();
    ListNamesJoin();
    NotConstant(reference);
  }

  lemma OperatorIsNoJunction(op: Operator)
    ensures OperatorName(op) !in {ALL, ANY, NOT} && ParseOperator(OperatorName(op)) == Some(op)
  {
    OperatorsDiffer();
    OperatorsAreSpelled(OperatorName(op));
    assert |ALL| == 3 && |ANY| == 3 && |NOT| == 3 && ALL[0] == 97 && ANY[0] == 97 && NOT[0] == 110;
  }

  /** The fields of a leaf as JSON. */
  lemma EncodedLeaf(op: Operator, reference: Text, operand: Option<Value>)
    ensures var f := EncodeCondition(Leaf(op, reference, operand)).fields;
      && f.Keys == (if operand.Some? then {OPERATOR, REFERENCE, OPERAND} else {OPERATOR, REFERENCE})
      && f[OPERATOR] == StrValue(OperatorName(op)) && f[REFERENCE] == StrValue(reference)
      && (operand.Some? ==> f[OPERAND] == operand.value) && (operand.None? ==> OPERAND !in f)
  {
    ConditionKeysDiffer();
  }

  lemma LeafBounded(p: Patterns, c: Condition, depth: int, names: set<Text>)
    requires c.Leaf?
    ensures ConditionOk(p, EncodeCondition(c), depth, names) <==> depth >= 0 && Bounded(p, names, c, depth)
    ensures ConditionOk(p, EncodeCondition(c), depth, names) ==> MakeCondition(p, EncodeCondition(c), depth, names) == c
  {
    hide ParseOperator, OperatorName;
    EncodedLeaf(c.operator, c.reference, c.operand);
    OperatorIsNoJunction(c.operator);
    ReferenceIsKnown(p, names, c.reference);
  }

  lemma {:induction false} EncodedAt(cs: seq<Condition>, i: nat)
    requires i < |cs|
    ensures EncodeConditions(cs)[i] == EncodeCondition(cs[i])
  {
    if i > 0 {
      EncodedAt(cs[1..], i - 1);
    }
  }

  /** A condition's JSON compiles iff the condition is within bounds, and then to the condition. */
  lemma {:induction false} ConditionBounded(p: Patterns, c: Condition, depth: int, names: set<Text>)
    ensures ConditionOk(p, EncodeCondition(c), depth, names) <==> depth >= 0 && Bounded(p, names, c, depth)
    ensures ConditionOk(p, EncodeCondition(c), depth, names) ==> MakeCondition(p, EncodeCondition(c), depth, names) == c
    decreases c
  {
    match c
    case Leaf(_, _, _) => LeafBounded(p, c, depth, names);
    case AllOf(cs) =>
      PartsBounded(p, cs, depth - 1, names);
      JunctionBounded(p, c, depth, names);
    case AnyOf(cs) =>
      PartsBounded(p, cs, depth - 1, names);
      JunctionBounded(p, c, depth, names);
    case Not(d) =>
      ConditionBounded(p, d, depth - 1, names);
      ConditionKeysDiffer();
  }

  predicate PartsAlike(p: Patterns, cs: seq<Condition>, items: seq<Value>, depth: int, names: set<Text>) {
    |items| == |cs|
    && forall i :: 0 <= i < |cs| ==>
         && (ConditionOk(p, items[i], depth, names) <==> depth >= 0 && Bounded(p, names, cs[i], depth))
         && (ConditionOk(p, items[i], depth, names) ==> MakeCondition(p, items[i], depth, names) == cs[i])
  }

  lemma {:induction false} PartsBounded(p: Patterns, cs: seq<Condition>, depth: int, names: set<Text>)
    ensures PartsAlike(p, cs, EncodeConditions(cs), depth, names)
    decreases cs
  {
    forall i | 0 <= i < |cs|
      ensures ConditionOk(p, EncodeConditions(cs)[i], depth, names) <==> depth >= 0 && Bounded(p, names, cs[i], depth)
      ensures ConditionOk(p, EncodeConditions(cs)[i], depth, names) ==> MakeCondition(p, EncodeConditions(cs)[i], depth, names) == cs[i]
    {
      EncodedAt(cs, i);
      ConditionBounded(p, cs[i], depth, names);
    }
  }

  lemma EncodedJunction(c: Condition)
    requires c.AllOf? || c.AnyOf?
    ensures var v := EncodeCondition(c);
      && v.ObjValue? && v.fields.Keys == {OPERATOR, CONDITIONS} && v.fields[CONDITIONS] == ArrValue(EncodeConditions(c.conditions))
      && v.fields[OPERATOR] == StrValue(if c.AllOf? then ALL else ANY)
  {
    ConditionKeysDiffer();
  }

  lemma JunctionAccepted(p: Patterns, c: Condition, depth: int, names: set<Text>)
    requires (c.AllOf? || c.AnyOf?) && PartsAlike(p, c.conditions, EncodeConditions(c.conditions), depth - 1, names)
    ensures ConditionOk(p, EncodeCondition(c), depth, names) <==> depth >= 0 && Bounded(p, names, c, depth)
  {
    hide MakeCondition, MakeConditions, EncodeCondition, EncodeConditions, LeafOk, ParseOperator;
    EncodedJunction(c);
    var cs, items := c.conditions, EncodeConditions(c.conditions);
    forall i | 0 <= i < |cs|
      ensures ConditionOk(p, items[i], depth - 1, names) <==> depth - 1 >= 0 && Bounded(p, names, cs[i], depth - 1)
    {
    }
    assert 1 <= |cs| && depth == 0 ==> !ConditionOk(p, items[0], depth - 1, names);
  }

  lemma JunctionBounded(p: Patterns, c: Condition, depth: int, names: set<Text>)
    requires (c.AllOf? || c.AnyOf?) && PartsAlike(p, c.conditions, EncodeConditions(c.conditions), depth - 1, names)
    ensures ConditionOk(p, EncodeCondition(c), depth, names) <==> depth >= 0 && Bounded(p, names, c, depth)
    ensures ConditionOk(p, EncodeCondition(c), depth, names) ==> MakeCondition(p, EncodeCondition(c), depth, names) == c
  {
    JunctionAccepted(p, c, depth, names);
    hide ConditionOk, MakeCondition, MakeConditions, EncodeCondition, EncodeConditions, Bounded;
    EncodedJunction(c);
    var items := EncodeConditions(c.conditions);
    if ConditionOk(p, EncodeCondition(c), depth, names) {
      JunctionMade(p, EncodeCondition(c), depth, names);
      forall i | 0 <= i < |items|
        ensures MakeConditions(p, items, depth - 1, names)[i] == c.conditions[i]
      {
        MadeConditions(p, items, depth - 1, names, i);
      }
      assert MakeConditions(p, items, depth - 1, names) == c.conditions;
      assert |ALL| == 3 && ALL[1] == 108 && ANY[1] == 110;
    }
  }

  // ---------------------------------------------------------------- lists and requirements

  /** Different texts of 1 to 256 units, in order. */
  predicate BoundedTexts(list: seq<Text>) { Ascending(list) && forall i :: 0 <= i < |list| ==> 1 <= |list[i]| <= 256 }

  lemma ListBounded(list: seq<Text>)
    ensures IsTexts(Texts(list)) && Ascending(list) <==> BoundedTexts(list)
    ensures BoundedTexts(list) ==> SortedTexts(Texts(list)) == list
  {
    var items := Texts(list).items;
    forall i, j | 0 <= i < j < |list| && Less(list[i], list[j])
      ensures items[i] != items[j]
    {
      LessIsTotal(list[i], list[j]);
    }
    if BoundedTexts(list) {
      forall i | 0 <= i < |items|
        ensures StringOk(items[i])
      {
        assert items[i].s == list[i];
      }
      SortSorted(Entries(items));
    } else if IsTexts(Texts(list)) && Ascending(list) {
      forall i | 0 <= i < |list|
        ensures 1 <= |list[i]| <= 256
      {
        assert StringOk(items[i]);
      }
    }
  }

  predicate BoundedRequirements(q: Requirements) { q.permissionScopes.Some? ==> BoundedTexts(q.permissionScopes.value) }

  lemma EncodedRequirements(q: Requirements)
    ensures var v := EncodeRequirements(q);
      && v.ObjValue? && v.fields.Keys <= REQUIREMENT_KEYS
      && (if q.permissionScopes.Some? then PERMISSION_SCOPES in v.fields && v.fields[PERMISSION_SCOPES] == Texts(q.permissionScopes.value)
          else PERMISSION_SCOPES !in v.fields)
      && (if q.minimumIsolationLevel.Some? then MINIMUM_ISOLATION_LEVEL in v.fields
            && v.fields[MINIMUM_ISOLATION_LEVEL] == StrValue(LevelName(q.minimumIsolationLevel.value))
          else MINIMUM_ISOLATION_LEVEL !in v.fields)
      && (if q.timeoutMs.Some? then TIMEOUT_MS in v.fields && v.fields[TIMEOUT_MS] == NumValue(q.timeoutMs.value) else TIMEOUT_MS !in v.fields)
      && (if q.maxConcurrency.Some? then MAX_CONCURRENCY in v.fields && v.fields[MAX_CONCURRENCY] == NumValue(q.maxConcurrency.value)
          else MAX_CONCURRENCY !in v.fields)
      && (if q.postVerificationRequired.Some? then POST_VERIFICATION_REQUIRED in v.fields
            && v.fields[POST_VERIFICATION_REQUIRED] == BoolValue(q.postVerificationRequired.value)
          else POST_VERIFICATION_REQUIRED !in v.fields)
  {
    RequirementKeysDiffer();
  }

  /** Requirements whose list is in order compile from their JSON iff they are within bounds, to themselves. */
  lemma RequirementsBounded(q: Requirements)
    requires q.permissionScopes.Some? ==> Ascending(q.permissionScopes.value)
    ensures RequirementsOk(EncodeRequirements(q)) <==> BoundedRequirements(q)
    ensures BoundedRequirements(q) ==> MakeRequirements(EncodeRequirements(q)) == q
  {
    EncodedRequirements(q);
    if q.permissionScopes.Some? {
      ListBounded(q.permissionScopes.value);
    }
    if q.minimumIsolationLevel.Some? {
      LevelNames(q.minimumIsolationLevel.value);
    }
  }

  // ---------------------------------------------------------------- rules

  predicate BoundedRule(p: Patterns, names: set<Text>, r: Rule) {
    && 1 <= |r.ruleId| <= 128 && p.ruleId(r.ruleId)
    && 1 <= |r.domain| <= 64 && 1 <= |r.action| <= 128
    && BoundedTexts(r.subjectTypes) && BoundedTexts(r.resourceTypes)
    && Bounded(p, names, r.when, 4)
    && BoundedRequirements(r.requirements)
    && 3 <= |r.reasonCode| <= 128 && p.stableCode(r.reasonCode)
  }

  lemma SelectorBounded(list: seq<Text>, key: Text)
    requires Ascending(list)
    ensures SelectorOk(ObjValue(map[key := Texts(list)]), key) <==> BoundedTexts(list)
    ensures BoundedTexts(list) ==> SortedTexts(Texts(list)) == list
  {
    ListBounded(list);
  }

  lemma EffectsRead(effect: Effect)
    ensures ParseEffect(EffectName(effect)) == Some(effect)
  {
    EffectsAreSpelled(EffectName(effect));
  }

  /** A rule whose lists are in order compiles from its JSON iff it is within bounds, to itself. */
  lemma RuleBounded(p: Patterns, names: set<Text>, r: Rule)
    requires ListsInOrder(r)
    ensures RuleOk(p, EncodeRule(r), names) <==> BoundedRule(p, names, r)
    ensures BoundedRule(p, names, r) ==> MakeRule(p, EncodeRule(r), names) == r
  {
    hide ConditionOk, MakeCondition, EncodeCondition, Bounded, RequirementsOk, MakeRequirements, EncodeRequirements, ParseEffect, EffectName;
    hide SortedTexts, IsTexts;
    EncodedTexts(r);
    EncodedLists(r);
    SelectorBounded(r.subjectTypes, SUBJECT_TYPES);
    SelectorBounded(r.resourceTypes, RESOURCE_TYPES);
    ConditionBounded(p, r.when, MAX_DEPTH, names);
    RequirementsBounded(r.requirements);
    EffectsRead(r.ruleEffect);
  }

  // ---------------------------------------------------------------- policy sets

  predicate BoundedSet(p: Patterns, s: PolicySet) {
    && s.policySetId != [] && p.uuidV7(s.policySetId) && s.version != [] && p.semver(s.version)
    && 1 <= |s.description| <= 2048 && 1 <= |s.ref| <= 512
    && (forall k :: k in s.constants ==> p.constantName(k))
    && BoundedRules(p, s.constants.Keys, s.rules)
  }

  /** At most 4096 rules, in the order of their ids. */
  predicate BoundedRules(p: Patterns, names: set<Text>, rules: seq<Rule>) {
    && |rules| <= 4096 && (forall i :: 0 <= i < |rules| ==> BoundedRule(p, names, rules[i]))
    && forall i, j :: 0 <= i < j < |rules| ==> Less(rules[i].ruleId, rules[j].ruleId)
  }

  function Keyed(rules: seq<Rule>): seq<Keyed<Rule>> {
    seq(|rules|, i requires 0 <= i < |rules| => Member(rules[i].ruleId, rules[i]))
  }

  lemma RulesCompile(p: Patterns, names: set<Text>, rules: seq<Rule>)
    requires BoundedRules(p, names, rules)
    ensures RulesOk(p, ArrValue(EncodeRules(rules)), names)
    ensures ValuesOf(SortMembers(MakeRules(p, EncodeRules(rules), names))) == rules
  {
    hide BoundedRule, RuleOk, MakeRule, EncodeRule;
    var items, ms := EncodeRules(rules), Keyed(rules);
    forall i | 0 <= i < |rules|
      ensures RuleOk(p, items[i], names) && MakeRule(p, items[i], names) == rules[i]
    {
      BoundedInOrder(p, names, rules[i]);
      RuleBounded(p, names, rules[i]);
    }
    assert MakeRules(p, items, names) == ms;
    forall i, j | 0 <= i < j < |ms|
      ensures ms[i].key != ms[j].key
    {
      LessIsTotal(ms[i].key, ms[j].key);
    }
    SortSorted(ms);
  }

  lemma BoundedInOrder(p: Patterns, names: set<Text>, r: Rule)
    requires BoundedRule(p, names, r)
    ensures ListsInOrder(r)
  {
  }

  lemma RulesBounded(p: Patterns, names: set<Text>, rules: seq<Rule>)
    requires RulesOk(p, ArrValue(EncodeRules(rules)), names)
    requires forall i, j :: 0 <= i < j < |rules| ==> Less(rules[i].ruleId, rules[j].ruleId)
    requires forall r :: r in rules ==> ListsInOrder(r)
    ensures BoundedRules(p, names, rules)
  {
    hide BoundedRule, RuleOk, MakeRule, EncodeRule;
    forall i | 0 <= i < |rules|
      ensures BoundedRule(p, names, rules[i])
    {
      assert rules[i] in rules && RuleOk(p, EncodeRules(rules)[i], names);
      RuleBounded(p, names, rules[i]);
    }
  }

  lemma KindsRead(kind: SourceKind)
    ensures ParseKind(KindName(kind)) == Some(kind)
  {
    KindsAreSpelled(KindName(kind));
  }

  /** Every set within bounds compiles from its own JSON, to itself. */
  lemma BoundedCompiles(p: Patterns, s: PolicySet)
    requires BoundedSet(p, s) && PolicyJsonOk(EncodePolicySet(s))
    ensures Compile(p, EncodePolicySet(s)) == Some(s)
  {
    hide BoundedRules, EncodeRules, MakeRules, PolicyJsonOk, RulesOk, KindName, ParseKind, SortMembers;
    EncodedSet(s);
    RulesCompile(p, s.constants.Keys, s.rules);
    KindsRead(s.kind);
  }

  /** Every compiled set is within bounds. */
  lemma CompiledIsBounded(p: Patterns, v: Value)
    requires Compile(p, v).Some?
    ensures BoundedSet(p, Compile(p, v).value) && PolicyJsonOk(EncodePolicySet(Compile(p, v).value))
  {
    hide BoundedRules, EncodeRules, MakeRules, RulesOk, KindName, ParseKind, SortMembers, Normalised;
    var s := Compile(p, v).value;
    CompileIsIdempotent(p, v);
    EncodedSet(s);
    CompiledIsNormal(p, EncodePolicySet(s));
    CompiledInOrder(p, EncodePolicySet(s));
    RulesBounded(p, s.constants.Keys, s.rules);
  }

  /** The compiler's image: a policy set is what some source compiles to iff it is I-JSON and within bounds. */
  lemma CompiledIffBounded(p: Patterns, s: PolicySet)
    ensures (exists v :: Compile(p, v) == Some(s)) <==> BoundedSet(p, s) && PolicyJsonOk(EncodePolicySet(s))
  {
    hide Compile, BoundedSet, PolicyJsonOk, EncodePolicySet;
    if v :| Compile(p, v) == Some(s) {
      CompiledIsBounded(p, v);
    }
    if BoundedSet(p, s) && PolicyJsonOk(EncodePolicySet(s)) {
      BoundedCompiles(p, s);
    }
  }

  /** The properties of a source, each there and none else. */
  lemma SourceIsSpelled(p: Patterns, v: Value)
    requires Compile(p, v).Some?
    ensures v.ObjValue? && v.fields.Keys == {
      Ascii("schemaVersion"), Ascii("policySetId"), Ascii("version"), Ascii("description"), Ascii("source"),
      Ascii("defaultOutcome"), Ascii("constants"), Ascii("rules")}
    ensures v.fields[Ascii("schemaVersion")] == StrValue(Ascii("1.0.0")) && v.fields[Ascii("defaultOutcome")] == StrValue(Ascii("DENY"))
    ensures v.fields[Ascii("source")].ObjValue? && v.fields[Ascii("source")].fields.Keys == {Ascii("kind"), Ascii("ref")}
    ensures v.fields[Ascii("rules")].ArrValue? && forall i :: 0 <= i < |v.fields[Ascii("rules")].items| ==> RuleSpelled(v.fields[Ascii("rules")].items[i])
  {
    var rules, names := v.fields[Ascii("rules")], v.fields[Ascii("constants")].fields.Keys;
    forall i | 0 <= i < |rules.items|
      ensures RuleSpelled(rules.items[i])
    {
      assert RuleOk(p, rules.items[i], names);
    }
  }

  /** The properties of a rule. */
  predicate RuleSpelled(v: Value) {
    && v.ObjValue? && v.fields.Keys == {
      Ascii("schemaVersion"), Ascii("ruleId"), Ascii("domain"), Ascii("subjectSelector"), Ascii("action"),
      Ascii("resourceSelector"), Ascii("when"), Ascii("ruleEffect"), Ascii("requirements"), Ascii("reasonCode"), Ascii("metadata")}
    && v.fields[Ascii("schemaVersion")] == StrValue(Ascii("1.0.0"))
    && HasOnly(v.fields[Ascii("subjectSelector")], {Ascii("subjectTypes")})
    && HasOnly(v.fields[Ascii("resourceSelector")], {Ascii("resourceTypes")})
    && v.fields[Ascii("requirements")].ObjValue?
    && v.fields[Ascii("requirements")].fields.Keys <= {
      Ascii("permissionScopes"), Ascii("minimumIsolationLevel"), Ascii("timeoutMs"), Ascii("maxConcurrency"),
      Ascii("postVerificationRequired")}
  }

  predicate HasOnly(v: Value, keys: set<Text>) { v.ObjValue? && v.fields.Keys == keys }

  // ---------------------------------------------------------------- inputs

  /** Different texts of 1 to 256 units, in any order. */
  predicate BoundedList(list: seq<Text>) { Distinct(list) && forall i :: 0 <= i < |list| ==> 1 <= |list[i]| <= 256 }

  predicate BoundedInput(p: Patterns, i: Input) {
    && p.uuidV7(i.policySnapshotId)
    && 1 <= |i.domain| <= 64 && 1 <= |i.subjectType| <= 128 && 1 <= |i.action| <= 128 && 1 <= |i.resourceType| <= 128
    && BoundedList(i.permissionScopes) && BoundedList(i.capabilityIds)
  }

  /** A field that is a text of this form. */
  predicate HasForm(f: Fields, name: string, form: Text -> bool) {
    Ascii(name) in f && f[Ascii(name)].StrValue? && form(f[Ascii(name)].s)
  }

  lemma ListIsBounded(list: seq<Text>)
    ensures IsTexts(Texts(list)) <==> BoundedList(list)
    ensures IsTexts(Texts(list)) ==> TextsOf(Texts(list)) == list
  {
    var items := Texts(list).items;
    forall i | 0 <= i < |list|
      ensures items[i] == StrValue(list[i]) && (StringOk(items[i]) <==> 1 <= |list[i]| <= 256)
    {
    }
    if IsTexts(Texts(list)) {
      forall i, j | 0 <= i < j < |list|
        ensures list[i] != list[j]
      {
        assert items[i] != items[j];
      }
      var back := TextsOf(Texts(list));
      forall i | 0 <= i < |list|
        ensures back[i] == list[i]
      {
        assert Texts(back).items[i] == StrValue(back[i]);
      }
    }
  }

  lemma NamesRead(i: Input)
    ensures ParseRisk(RiskName(i.riskClass)) == Some(i.riskClass)
    ensures ParseClassification(ClassificationName(i.dataClassification)) == Some(i.dataClassification)
    ensures ParseDirection(DirectionName(i.direction)) == Some(i.direction)
  {
    RiskNamesRead(i.riskClass);
    ClassificationNamesRead(i.dataClassification);
    DirectionNamesRead(i.direction);
  }

  lemma RiskNamesRead(risk: RiskClass)
    ensures ParseRisk(RiskName(risk)) == Some(risk)
  {
    assert Ascii("R0")[1] == 48 && Ascii("R1")[1] == 49 && Ascii("R2")[1] == 50 && Ascii("R3")[1] == 51 && Ascii("R4")[1] == 52;
  }

  lemma ClassificationNamesRead(c: Classification)
    ensures ParseClassification(ClassificationName(c)) == Some(c)
  {
    assert |Ascii("PUBLIC")| == 6 && |Ascii("INTERNAL")| == 8 && |Ascii("CONFIDENTIAL")| == 12 && |Ascii("SECRET")| == 6;
    assert Ascii("PUBLIC")[0] == 80 && Ascii("SECRET")[0] == 83;
  }

  lemma DirectionNamesRead(d: Direction)
    ensures ParseDirection(DirectionName(d)) == Some(d)
  {
    assert |Ascii("LOCAL")| == 5 && |Ascii("INBOUND")| == 7 && |Ascii("OUTBOUND")| == 8;
  }

  /** A value is read as an input iff it has the input's fields and no others, its version and the forms of its
      id and time are right, and the input is within bounds. */
  lemma InputsAreBounded(p: Patterns, v: Value, i: Input)
    ensures ParseInput(p, v) == Some(i) <==>
      v.ObjValue? && Holds(i, v.fields) && BoundedInput(p, i)
      && v.fields[Ascii("schemaVersion")] == Word("1.0.0")
      && HasForm(v.fields, "evaluationId", p.uuidV7) && HasForm(v.fields, "capturedAt", p.dateTime)
  {
    hide ParseRisk, ParseClassification, ParseDirection, RiskName, ClassificationName, DirectionName;
    NamesRead(i);
    ListIsBounded(i.permissionScopes);
    ListIsBounded(i.capabilityIds);
    if ParseInput(p, v).Some? {
      ParsedHolds(p, v);
    }
  }

  // ---------------------------------------------------------------- snapshots

  lemma SnapshotKeysSpelled(keys: set<Text>)
    ensures keys == SNAPSHOT_KEYS <==> keys == {
      Ascii("schemaVersion"), Ascii("snapshotId"), Ascii("policySetId"), Ascii("policyVersion"), Ascii("policyHash"),
      Ascii("compiledPolicySet"), Ascii("compilerVersion"), Ascii("createdAt")}
  {
  }

  /** A snapshot that an input asks for: nothing but its eight fields, which name the input's snapshot and the
      policy that its embedded set compiles to, by id, version and hash. */
  predicate Binds(p: Patterns, f: Fields, id: Text, policy: PolicySet) {
    && f.Keys == {
         Ascii("schemaVersion"), Ascii("snapshotId"), Ascii("policySetId"), Ascii("policyVersion"), Ascii("policyHash"),
         Ascii("compiledPolicySet"), Ascii("compilerVersion"), Ascii("createdAt")}
    && f[Ascii("schemaVersion")] == Word("1.0.0")
    && f[Ascii("snapshotId")] == StrValue(id) && f[Ascii("policySetId")] == StrValue(policy.policySetId)
    && f[Ascii("policyVersion")] == StrValue(policy.version)
    && f[Ascii("policyHash")] == StrValue(p.sha256(EncodePolicySet(policy)))
    && HasForm(f, "snapshotId", p.uuidV7) && HasForm(f, "policyHash", p.hex64)
    && HasForm(f, "compilerVersion", p.semver) && HasForm(f, "createdAt", p.dateTime)
    && Compile(p, f[Ascii("compiledPolicySet")]) == Some(policy)
  }

  /** The recompile-and-hash check passes, for a policy, iff the snapshot binds that policy. */
  lemma PassesIffBound(p: Patterns, v: Value, id: Text, policy: PolicySet)
    ensures CheckSnapshot(p, v, id) == Some(policy) <==> v.ObjValue? && Binds(p, v.fields, id, policy)
  {
    hide Compile, EncodePolicySet, BoundedRules;
    if v.ObjValue? {
      SnapshotKeysSpelled(v.fields.Keys);
      if COMPILED_POLICY_SET in v.fields && Compile(p, v.fields[COMPILED_POLICY_SET]).Some? {
        CompiledIsBounded(p, v.fields[COMPILED_POLICY_SET]);
      }
    }
  }

  // ---------------------------------------------------------------- I-JSON

  lemma {:induction false} PairsStay(s: Text, n: nat)
    requires n <= |s| && (n == |s| || n == 0 || !High(s[n - 1]))
    ensures UnicodeOk(s) ==> UnicodeOk(s[n..])
  {
    if UnicodeOk(s) {
      forall i | 0 <= i < |s[n..]|
        ensures PairedAt(s[n..], i)
      {
        assert PairedAt(s, n + i);
      }
    }
  }

  lemma PairsBack(s: Text, n: nat)
    requires n <= |s| && UnicodeOk(s[n..]) && forall i :: 0 <= i < n ==> PairedAt(s, i)
    ensures UnicodeOk(s)
  {
    forall i | 0 <= i < |s|
      ensures PairedAt(s, i)
    {
      if i >= n {
        assert PairedAt(s[n..], i - n);
      }
    }
  }

  /** The check for lone surrogates, unit by unit, accepts exactly the text that falls into characters. */
  lemma {:induction false} UnicodeIsPaired(s: Text)
    ensures UnicodeOk(s) <==> Paired(s)
    decreases |s|
  {
    if s != [] {
      var n := if |s| > 1 && High(s[0]) && Low(s[1]) then 2 else 1;
      if UnicodeOk(s) {
        assert PairedAt(s, 0);
        PairsStay(s, n);
      }
      UnicodeIsPaired(s[n..]);
      if Paired(s) {
        PairsBack(s, n);
      }
    }
  }

  /** The names of all members, at any depth. */
  function NamesIn(v: Value): set<Text> {
    match v
    case ArrValue(items) => set i, k | 0 <= i < |items| && k in NamesIn(items[i]) :: k
    case ObjValue(fields) => fields.Keys + set f, k | f in fields && k in NamesIn(fields[f]) :: k
    case _ => {}
  }

  /** All texts, names and strings, at any depth. */
  function TextsIn(v: Value): set<Text> {
    match v
    case StrValue(s) => {s}
    case ArrValue(items) => set i, t | 0 <= i < |items| && t in TextsIn(items[i]) :: t
    case ObjValue(fields) => fields.Keys + set f, t | f in fields && t in TextsIn(fields[f]) :: t
    case _ => {}
  }

  predicate Acceptable(v: Value) {
    && (forall t :: t in TextsIn(v) ==> Paired(t))
    && Ascii("__proto__") !in NamesIn(v) && Ascii("prototype") !in NamesIn(v) && Ascii("constructor") !in NamesIn(v)
  }

  /** I-JSON: no lone surrogate in any name or string, and no name that objects inherit. */
  lemma {:induction false} JsonIsAcceptable(v: Value)
    ensures PolicyJsonOk(v) <==> Acceptable(v)
  {
    match v
    case StrValue(s) => UnicodeIsPaired(s);
    case ArrValue(items) =>
      forall i | 0 <= i < |items|
        ensures PolicyJsonOk(items[i]) <==> Acceptable(items[i])
      {
        JsonIsAcceptable(items[i]);
      }
      ItemsAcceptable(items);
    case ObjValue(fields) =>
      forall f | f in fields
        ensures PolicyJsonOk(fields[f]) <==> Acceptable(fields[f])
        ensures UnicodeOk(f) <==> Paired(f)
      {
        JsonIsAcceptable(fields[f]);
        UnicodeIsPaired(f);
      }
      FieldsAcceptable(fields);
    case _ =>
  }

  lemma ItemsAcceptable(items: seq<Value>)
    ensures Acceptable(ArrValue(items)) <==> forall i :: 0 <= i < |items| ==> Acceptable(items[i])
  {
    var v := ArrValue(items);
    forall i | 0 <= i < |items|
      ensures TextsIn(items[i]) <= TextsIn(v) && NamesIn(items[i]) <= NamesIn(v)
    {
    }
  }

  lemma FieldsAcceptable(fields: map<Text, Value>)
    ensures Acceptable(ObjValue(fields)) <==>
      forall f :: f in fields ==>
        Acceptable(fields[f]) && Paired(f) && f !in {Ascii("__proto__"), Ascii("prototype"), Ascii("constructor")}
  {
    var v := ObjValue(fields);
    forall f | f in fields
      ensures TextsIn(fields[f]) <= TextsIn(v) && NamesIn(fields[f]) <= NamesIn(v)
    {
    }
  }
}
