/** Compiled policy sets compile to themselves, so the snapshots made of them are valid.

    A compiled set is encoded as JSON again.  Its conditions are those of the source, its lists are
    sorted already and its rules are in the order of their ids; so each check of the compiler accepts
    the encoding, and each normalisation leaves it as it is. */
module PolicySnapshots {
  import opened CodeUnits
  import opened CanonicalJson
  import opened CanonicalMeaning
  import opened TextOrder
  import opened Policy
  import opened PolicyCompiler
  import opened PolicyNormalForm

  // ---------------------------------------------------------------- parts of a rule

  lemma ConditionKeysDiffer()
    ensures |OPERATOR| == 8 && |REFERENCE| == 9 && |OPERAND| == 7 && |CONDITIONS| == 10 && |CONDITION| == 9
    ensures REFERENCE[0] == 114 && CONDITION[0] == 99
    ensures ALL[1] == 108 && ANY[1] == 110 && NOT[1] == 111
  {
  }

  lemma ParsedOperatorName(t: Text)
    requires ParseOperator(t).Some?
    ensures OperatorName(ParseOperator(t).value) == t
  {
  }

  /** Compilation passes conditions through: they are validated, not rewritten. */
  lemma {:induction false} ConditionsPassThrough(p: Patterns, v: Value, depth: int, names: set<Text>)
    requires ConditionOk(p, v, depth, names)
    ensures EncodeCondition(MakeCondition(p, v, depth, names)) == v
    decreases depth + 1, 0
  {
    ConditionKeysDiffer();
    var f := v.fields;
    var name := f[OPERATOR].s;
    if name == ALL || name == ANY {
      AllPassThrough(p, f[CONDITIONS].items, depth - 1, names);
      assert f == map[OPERATOR := StrValue(name), CONDITIONS := f[CONDITIONS]];
    } else if name == NOT {
      ConditionsPassThrough(p, f[CONDITION], depth - 1, names);
      assert f == map[OPERATOR := StrValue(name), CONDITION := f[CONDITION]];
    } else {
      LeafPassesThrough(p, v, depth, names);
    }
  }

  lemma LeafPassesThrough(p: Patterns, v: Value, depth: int, names: set<Text>)
    requires ConditionOk(p, v, depth, names) && v.fields[OPERATOR].s !in {ALL, ANY, NOT}
    ensures EncodeCondition(MakeCondition(p, v, depth, names)) == v
  {
    ConditionKeysDiffer();
    var f := v.fields;
    ParsedOperatorName(f[OPERATOR].s);
    var c := MakeCondition(p, v, depth, names);
    assert f == With(map[OPERATOR := f[OPERATOR], REFERENCE := f[REFERENCE]], OPERAND, c.operand);
  }

  lemma {:induction false} AllPassThrough(p: Patterns, items: seq<Value>, depth: int, names: set<Text>)
    requires forall i :: 0 <= i < |items| ==> ConditionOk(p, items[i], depth, names)
    ensures EncodeConditions(MakeConditions(p, items, depth, names)) == items
    decreases depth + 1, 1 + |items|
  {
    if items != [] {
      ConditionsPassThrough(p, items[0], depth, names);
      AllPassThrough(p, items[1..], depth, names);
    }
  }

  /** Compiling requirements twice changes nothing more. */
  lemma RequirementsStay(v: Value)
    requires RequirementsOk(v)
    ensures var e := EncodeRequirements(MakeRequirements(v)); RequirementsOk(e) && MakeRequirements(e) == MakeRequirements(v)
  {
    RequirementKeysDiffer();
    var q := MakeRequirements(v);
    if q.permissionScopes.Some? {
      SortedTextsStay(v.fields[PERMISSION_SCOPES]);
    }
    if q.minimumIsolationLevel.Some? {
      LevelNames(q.minimumIsolationLevel.value);
    }
  }

  lemma SelectorStays(v: Value, key: Text)
    requires SelectorOk(v, key)
    ensures var e := ObjValue(map[key := Texts(SortedTexts(v.fields[key]))]);
      SelectorOk(e, key) && SortedTexts(e.fields[key]) == SortedTexts(v.fields[key])
  {
    SortedTextsStay(v.fields[key]);
  }

  predicate SameOthers(f: map<Text, Value>, g: map<Text, Value>)
    requires f.Keys == RULE_KEYS == g.Keys
  {
    && g[SCHEMA_VERSION] == f[SCHEMA_VERSION] && g[RULE_ID] == f[RULE_ID] && g[DOMAIN] == f[DOMAIN]
    && g[ACTION] == f[ACTION] && g[WHEN] == f[WHEN] && g[RULE_EFFECT] == f[RULE_EFFECT]
    && g[REASON_CODE] == f[REASON_CODE] && g[METADATA] == f[METADATA]
  }

  /** The fields `g` that a rule with fields `f` has after compilation. */
  predicate Recoded(f: map<Text, Value>, g: map<Text, Value>)
    requires f.Keys == RULE_KEYS && RequirementsOk(f[REQUIREMENTS])
    requires SelectorOk(f[SUBJECT_SELECTOR], SUBJECT_TYPES) && SelectorOk(f[RESOURCE_SELECTOR], RESOURCE_TYPES)
  {
    && g.Keys == RULE_KEYS && SameOthers(f, g)
    && g[SUBJECT_SELECTOR] == ObjValue(map[SUBJECT_TYPES := Texts(SortedTexts(f[SUBJECT_SELECTOR].fields[SUBJECT_TYPES]))])
    && g[RESOURCE_SELECTOR] == ObjValue(map[RESOURCE_TYPES := Texts(SortedTexts(f[RESOURCE_SELECTOR].fields[RESOURCE_TYPES]))])
    && g[REQUIREMENTS] == EncodeRequirements(MakeRequirements(f[REQUIREMENTS]))
  }

  lemma EncodedLists(r: Rule)
    ensures var g := EncodeRule(r).fields;
      && g.Keys == RULE_KEYS && g[REQUIREMENTS] == EncodeRequirements(r.requirements)
      && g[SUBJECT_SELECTOR] == ObjValue(map[SUBJECT_TYPES := Texts(r.subjectTypes)])
      && g[RESOURCE_SELECTOR] == ObjValue(map[RESOURCE_TYPES := Texts(r.resourceTypes)])
  {
    RuleKeysDiffer();
  }

  lemma EncodedTexts(r: Rule)
    ensures var g := EncodeRule(r).fields;
      && g.Keys == RULE_KEYS
      && g[SCHEMA_VERSION] == StrValue(VERSION_ONE) && g[RULE_ID] == StrValue(r.ruleId) && g[DOMAIN] == StrValue(r.domain)
      && g[ACTION] == StrValue(r.action) && g[WHEN] == EncodeCondition(r.when)
      && g[RULE_EFFECT] == StrValue(EffectName(r.ruleEffect)) && g[REASON_CODE] == StrValue(r.reasonCode)
      && g[METADATA] == ObjValue(r.metadata)
  {
    RuleKeysDiffer();
  }

  lemma EffectReads(v: Value)
    requires v.StrValue? && ParseEffect(v.s).Some?
    ensures StrValue(EffectName(ParseEffect(v.s).value)) == v
  {
  }

  lemma EncodedIsRecoded(p: Patterns, v: Value, names: set<Text>)
    requires RuleOk(p, v, names)
    ensures Recoded(v.fields, EncodeRule(MakeRule(p, v, names)).fields)
  {
    EncodedLists(MakeRule(p, v, names));
    EncodedTexts(MakeRule(p, v, names));
    ConditionsPassThrough(p, v.fields[WHEN], MAX_DEPTH, names);
    EffectReads(v.fields[RULE_EFFECT]);
  }

  lemma RecodedStays(p: Patterns, f: map<Text, Value>, g: map<Text, Value>, names: set<Text>)
    requires RuleOk(p, ObjValue(f), names) && Recoded(f, g)
    ensures RuleOk(p, ObjValue(g), names) && MakeRule(p, ObjValue(g), names) == MakeRule(p, ObjValue(f), names)
  {
    SelectorStays(f[SUBJECT_SELECTOR], SUBJECT_TYPES);
    SelectorStays(f[RESOURCE_SELECTOR], RESOURCE_TYPES);
    RequirementsStay(f[REQUIREMENTS]);
  }

  lemma RuleStays(p: Patterns, v: Value, names: set<Text>)
    requires RuleOk(p, v, names)
    ensures RuleOk(p, EncodeRule(MakeRule(p, v, names)), names)
    ensures MakeRule(p, EncodeRule(MakeRule(p, v, names)), names) == MakeRule(p, v, names)
  {
    EncodedIsRecoded(p, v, names);
    RecodedStays(p, v.fields, EncodeRule(MakeRule(p, v, names)).fields, names);
  }

  // ---------------------------------------------------------------- the sorted rules

  /** Every compiled rule was compiled from some source rule. */
  lemma SortedRuleSource(p: Patterns, items: seq<Value>, names: set<Text>, k: nat) returns (i: nat)
    requires AllRulesOk(p, items, names) && k < |items|
    ensures i < |items| && SortMembers(MakeRules(p, items, names))[k] == MakeRules(p, items, names)[i]
  {
    i := SortedFrom(MakeRules(p, items, names), k);
  }

  lemma SortedFrom<T(!new)>(ms: seq<Keyed<T>>, k: nat) returns (i: nat)
    requires k < |ms|
    ensures i < |ms| && SortMembers(ms)[k] == ms[i]
  {
    assert SortMembers(ms)[k] in ms;
    i :| 0 <= i < |ms| && ms[i] == SortMembers(ms)[k];
  }

  /** The value compiles to the rule, whose key is its id. */
  predicate Compiles(p: Patterns, v: Value, names: set<Text>, m: Keyed<Rule>) {
    RuleOk(p, v, names) && MakeRule(p, v, names) == m.value && m.key == m.value.ruleId
  }

  lemma SortedRuleStays(p: Patterns, items: seq<Value>, names: set<Text>, k: nat)
    requires AllRulesOk(p, items, names) && k < |items|
    ensures var m := SortMembers(MakeRules(p, items, names))[k]; Compiles(p, EncodeRule(m.value), names, m)
  {
    var i := SortedRuleSource(p, items, names, k);
    RuleStays(p, items[i], names);
  }

  lemma MadeRules(p: Patterns, items: seq<Value>, names: set<Text>, ms: seq<Keyed<Rule>>)
    requires |ms| == |items| && forall i :: 0 <= i < |ms| ==> Compiles(p, items[i], names, ms[i])
    ensures AllRulesOk(p, items, names) && MakeRules(p, items, names) == ms
  {
    var made := MakeRules(p, items, names);
    forall i | 0 <= i < |ms|
      ensures made[i] == ms[i]
    {
      assert Compiles(p, items[i], names, ms[i]);
    }
  }

  lemma RulesStay(p: Patterns, items: seq<Value>, names: set<Text>)
    requires RulesOk(p, ArrValue(items), names)
    ensures var sorted := SortMembers(MakeRules(p, items, names));
      var again := EncodeRules(ValuesOf(sorted));
      RulesOk(p, ArrValue(again), names) && SortMembers(MakeRules(p, again, names)) == sorted
  {
    var sorted := SortMembers(MakeRules(p, items, names));
    var again := EncodeRules(ValuesOf(sorted));
    RulesAgain(p, items, names);
    SortTwice(MakeRules(p, items, names));
  }

  lemma RulesAgain(p: Patterns, items: seq<Value>, names: set<Text>)
    requires AllRulesOk(p, items, names)
    ensures var sorted := SortMembers(MakeRules(p, items, names));
      var again := EncodeRules(ValuesOf(sorted));
      AllRulesOk(p, again, names) && MakeRules(p, again, names) == sorted
  {
    var sorted := SortMembers(MakeRules(p, items, names));
    var again := EncodeRules(ValuesOf(sorted));
    forall k | 0 <= k < |again|
      ensures Compiles(p, again[k], names, sorted[k])
    {
      SortedRuleStays(p, items, names, k);
    }
    MadeRules(p, again, names, sorted);
  }

  lemma SortTwice<T(!new)>(ms: seq<Keyed<T>>)
    requires DistinctKeys(ms)
    ensures DistinctKeys(SortMembers(ms)) && SortMembers(SortMembers(ms)) == SortMembers(ms)
  {
    SortedMembers(ms);
    SortedIsDistinct(SortMembers(ms));
    SortSorted(SortMembers(ms));
  }

  // ---------------------------------------------------------------- I-JSON of compiled sets

  lemma SortedTextsJson(v: Value)
    requires IsTexts(v) && PolicyJsonOk(v)
    ensures PolicyJsonOk(Texts(SortedTexts(v)))
  {
    SortedTextsContent(v);
    var t := SortedTexts(v);
    forall i | 0 <= i < |t|
      ensures UnicodeOk(t[i])
    {
      assert t[i] in t;
      var j :| 0 <= j < |v.items| && v.items[j] == StrValue(t[i]);
      assert PolicyJsonOk(v.items[j]);
    }
  }

  predicate KeyOk(k: Text) { k !in PROTECTED_KEYS && UnicodeOk(k) }

  lemma WithJson(fields: map<Text, Value>, key: Text, value: Option<Value>)
    requires PolicyJsonOk(ObjValue(fields)) && (value.Some? ==> KeyOk(key) && PolicyJsonOk(value.value))
    ensures PolicyJsonOk(ObjValue(With(fields, key, value)))
  {
  }

  /** What is read from a field of I-JSON may be written under its key. */
  predicate FieldJson(v: Value, key: Text, value: Option<Value>)
    requires v.ObjValue?
  {
    value.Some? ==> key in v.fields && PolicyJsonOk(value.value)
  }

  lemma ScopesJson(v: Value)
    requires RequirementsOk(v) && PolicyJsonOk(v)
    ensures FieldJson(v, PERMISSION_SCOPES, TextsOption(MakeRequirements(v).permissionScopes))
  {
    if PERMISSION_SCOPES in v.fields {
      SortedTextsJson(v.fields[PERMISSION_SCOPES]);
    }
  }

  lemma LevelJson(v: Value)
    requires RequirementsOk(v) && PolicyJsonOk(v)
    ensures FieldJson(v, MINIMUM_ISOLATION_LEVEL, LevelOption(MakeRequirements(v).minimumIsolationLevel))
  {
    if MINIMUM_ISOLATION_LEVEL in v.fields {
      var level := v.fields[MINIMUM_ISOLATION_LEVEL];
      assert PolicyJsonOk(level);
      ParsedLevel(level.s);
    }
  }

  lemma ParsedLevel(s: Text)
    ensures ParseLevel(s).Some? ==> LevelName(ParseLevel(s).value) == s
  {
  }

  lemma OthersJson(v: Value)
    requires RequirementsOk(v)
    ensures var q := MakeRequirements(v);
      && FieldJson(v, TIMEOUT_MS, NumberOption(q.timeoutMs)) && FieldJson(v, MAX_CONCURRENCY, NumberOption(q.maxConcurrency))
      && FieldJson(v, POST_VERIFICATION_REQUIRED, BoolOption(q.postVerificationRequired))
  {
  }

  lemma WithFieldJson(v: Value, fields: map<Text, Value>, key: Text, value: Option<Value>)
    requires v.ObjValue? && PolicyJsonOk(v) && PolicyJsonOk(ObjValue(fields)) && FieldJson(v, key, value)
    ensures PolicyJsonOk(ObjValue(With(fields, key, value)))
  {
    assert key in v.fields ==> KeyOk(key);
    WithJson(fields, key, value);
  }

  lemma RequirementsJson(v: Value)
    requires RequirementsOk(v) && PolicyJsonOk(v)
    ensures PolicyJsonOk(EncodeRequirements(MakeRequirements(v)))
  {
    var q := MakeRequirements(v);
    ScopesJson(v);
    LevelJson(v);
    OthersJson(v);
    var e := With(map[], PERMISSION_SCOPES, TextsOption(q.permissionScopes));
    WithFieldJson(v, map[], PERMISSION_SCOPES, TextsOption(q.permissionScopes));
    WithFieldJson(v, e, MINIMUM_ISOLATION_LEVEL, LevelOption(q.minimumIsolationLevel));
    e := With(e, MINIMUM_ISOLATION_LEVEL, LevelOption(q.minimumIsolationLevel));
    WithFieldJson(v, e, TIMEOUT_MS, NumberOption(q.timeoutMs));
    e := With(e, TIMEOUT_MS, NumberOption(q.timeoutMs));
    WithFieldJson(v, e, MAX_CONCURRENCY, NumberOption(q.maxConcurrency));
    e := With(e, MAX_CONCURRENCY, NumberOption(q.maxConcurrency));
    WithFieldJson(v, e, POST_VERIFICATION_REQUIRED, BoolOption(q.postVerificationRequired));
  }

  lemma SelectorJson(v: Value, key: Text)
    requires SelectorOk(v, key) && PolicyJsonOk(v)
    ensures PolicyJsonOk(ObjValue(map[key := Texts(SortedTexts(v.fields[key]))]))
  {
    SortedTextsJson(v.fields[key]);
    assert key in v.fields;
  }

  /** The fields under `keys` are exchanged for I-JSON, the others are kept. */
  predicate Exchanged(f: map<Text, Value>, g: map<Text, Value>, keys: set<Text>) {
    g.Keys == f.Keys && forall k :: k in f ==> if k in keys then PolicyJsonOk(g[k]) else g[k] == f[k]
  }

  /** Exchanging some fields for others that are I-JSON keeps an object I-JSON. */
  lemma ExchangedJson(f: map<Text, Value>, g: map<Text, Value>, keys: set<Text>)
    requires PolicyJsonOk(ObjValue(f)) && Exchanged(f, g, keys)
    ensures PolicyJsonOk(ObjValue(g))
  {
    forall k | k in g
      ensures KeyOk(k) && PolicyJsonOk(g[k])
    {
      assert k in f && KeyOk(k) && PolicyJsonOk(f[k]);
    }
  }

  const RECODED_KEYS: set<Text> := {SUBJECT_SELECTOR, RESOURCE_SELECTOR, REQUIREMENTS}

  /** The recoded fields are I-JSON. */
  predicate PartsJson(g: map<Text, Value>)
    requires g.Keys == RULE_KEYS
  {
    PolicyJsonOk(g[SUBJECT_SELECTOR]) && PolicyJsonOk(g[RESOURCE_SELECTOR]) && PolicyJsonOk(g[REQUIREMENTS])
  }

  lemma FieldsExchanged(f: map<Text, Value>, g: map<Text, Value>)
    requires f.Keys == RULE_KEYS == g.Keys && SameOthers(f, g) && PartsJson(g)
    ensures Exchanged(f, g, RECODED_KEYS)
  {
    RecodedOthers(f, g);
  }

  lemma FieldsJson(f: map<Text, Value>)
    requires PolicyJsonOk(ObjValue(f))
    ensures forall k :: k in f ==> PolicyJsonOk(f[k])
  {
  }

  lemma RecodedParts(f: map<Text, Value>, g: map<Text, Value>)
    requires f.Keys == RULE_KEYS && RequirementsOk(f[REQUIREMENTS])
    requires SelectorOk(f[SUBJECT_SELECTOR], SUBJECT_TYPES) && SelectorOk(f[RESOURCE_SELECTOR], RESOURCE_TYPES)
    requires PartsJson(f) && Recoded(f, g)
    ensures PartsJson(g)
  {
    SelectorJson(f[SUBJECT_SELECTOR], SUBJECT_TYPES);
    SelectorJson(f[RESOURCE_SELECTOR], RESOURCE_TYPES);
    RequirementsJson(f[REQUIREMENTS]);
  }

  /** Maps of the same eleven keys that agree on all but three. */
  lemma AllButThree(f: map<Text, Value>, g: map<Text, Value>, keys: set<Text>, others: set<Text>,
                    a: Text, b: Text, c: Text, d: Text, e: Text, h: Text, i: Text, j: Text)
    requires f.Keys == keys == g.Keys && keys == {a, b, c, d, e, h, i, j} + others
    requires g[a] == f[a] && g[b] == f[b] && g[c] == f[c] && g[d] == f[d]
    requires g[e] == f[e] && g[h] == f[h] && g[i] == f[i] && g[j] == f[j]
    ensures forall k :: k in f && k !in others ==> g[k] == f[k]
  {
  }

  lemma RecodedOthers(f: map<Text, Value>, g: map<Text, Value>)
    requires f.Keys == RULE_KEYS == g.Keys && SameOthers(f, g)
    ensures forall k :: k in f && k !in RECODED_KEYS ==> g[k] == f[k]
  {
    AllButThree(f, g, RULE_KEYS, RECODED_KEYS, SCHEMA_VERSION, RULE_ID, DOMAIN, ACTION, WHEN, RULE_EFFECT, REASON_CODE, METADATA);
  }

  lemma RuleJson(p: Patterns, v: Value, names: set<Text>)
    requires RuleOk(p, v, names) && PolicyJsonOk(v)
    ensures PolicyJsonOk(EncodeRule(MakeRule(p, v, names)))
  {
    var f, g := v.fields, EncodeRule(MakeRule(p, v, names)).fields;
    FieldsJson(f);
    EncodedIsRecoded(p, v, names);
    RecodedParts(f, g);
    FieldsExchanged(f, g);
    ExchangedJson(f, g, RECODED_KEYS);
  }

  lemma SortedRuleJson(p: Patterns, items: seq<Value>, names: set<Text>, k: nat)
    requires AllRulesOk(p, items, names) && PolicyJsonOk(ArrValue(items)) && k < |items|
    ensures PolicyJsonOk(EncodeRule(SortMembers(MakeRules(p, items, names))[k].value))
  {
    var i := SortedRuleSource(p, items, names, k);
    assert PolicyJsonOk(items[i]);
    RuleJson(p, items[i], names);
  }

  lemma RulesJson(p: Patterns, v: Value, names: set<Text>)
    requires RulesOk(p, v, names) && PolicyJsonOk(v)
    ensures PolicyJsonOk(ArrValue(EncodeRules(ValuesOf(SortMembers(MakeRules(p, v.items, names))))))
  {
    var encoded := EncodeRules(ValuesOf(SortMembers(MakeRules(p, v.items, names))));
    forall k | 0 <= k < |encoded|
      ensures PolicyJsonOk(encoded[k])
    {
      SortedRuleJson(p, v.items, names, k);
    }
  }

  // ---------------------------------------------------------------- idempotence

  lemma EncodedSet(s: PolicySet)
    ensures var g := EncodePolicySet(s).fields;
      && g.Keys == SET_KEYS
      && g[SCHEMA_VERSION] == StrValue(VERSION_ONE) && g[DEFAULT_OUTCOME] == StrValue(EffectName(Deny))
      && g[POLICY_SET_ID] == StrValue(s.policySetId) && g[VERSION] == StrValue(s.version)
      && g[DESCRIPTION] == StrValue(s.description) && g[CONSTANTS] == ObjValue(s.constants)
      && g[SOURCE] == ObjValue(map[KIND := StrValue(KindName(s.kind)), REF := StrValue(s.ref)])
      && g[RULES] == ArrValue(EncodeRules(s.rules))
  {
    SetKeysDiffer();
  }

  lemma SourceStays(v: Value)
    requires SourceOk(v)
    ensures v == ObjValue(map[KIND := StrValue(KindName(ParseKind(v.fields[KIND].s).value)), REF := StrValue(v.fields[REF].s)])
  {
    assert |KIND| == 4 && |REF| == 3;
    assert KindName(ParseKind(v.fields[KIND].s).value) == v.fields[KIND].s;
    assert v.fields == map[KIND := v.fields[KIND], REF := v.fields[REF]];
  }

  lemma SetFields(p: Patterns, v: Value)
    requires SetOk(p, v)
    ensures var f, g := v.fields, EncodePolicySet(MakeSet(p, v)).fields;
      && g.Keys == SET_KEYS
      && SameSetFields(f, g)
      && g[RULES] == ArrValue(EncodeRules(MakeSet(p, v).rules))
  {
    EncodedSet(MakeSet(p, v));
    SourceStays(v.fields[SOURCE]);
  }

  lemma RulesExchanged(f: map<Text, Value>, g: map<Text, Value>)
    requires f.Keys == SET_KEYS == g.Keys && SameSetFields(f, g) && PolicyJsonOk(g[RULES])
    ensures Exchanged(f, g, {RULES})
  {
    AllButLast(f, g, SCHEMA_VERSION, POLICY_SET_ID, VERSION, DESCRIPTION, SOURCE, DEFAULT_OUTCOME, CONSTANTS, RULES);
  }

  lemma EncodedSetStable(p: Patterns, v: Value)
    requires SetOk(p, v)
    ensures var f, g := v.fields, EncodePolicySet(MakeSet(p, v)).fields;
      && PolicyJsonOk(ObjValue(g)) && RULES in g && Stable(p, f[RULES].items, f[CONSTANTS].fields.Keys, g[RULES])
  {
    var f, g := v.fields, EncodePolicySet(MakeSet(p, v)).fields;
    SetFields(p, v);
    FieldsJson(f);
    RulesStable(p, f[RULES], f[CONSTANTS].fields.Keys);
    RulesExchanged(f, g);
    ExchangedJson(f, g, {RULES});
  }

  /** Compiling a compiled set gives the set itself. */
  lemma CompileIsIdempotent(p: Patterns, v: Value)
    requires Compile(p, v).Some?
    ensures Compile(p, EncodePolicySet(Compile(p, v).value)) == Compile(p, v)
  {
    SetFields(p, v);
    EncodedSetStable(p, v);
    SetStays(p, v.fields, EncodePolicySet(MakeSet(p, v)).fields);
  }

  /** The compiled rules are valid rules that sort to the list the source rules sort to. */
  predicate Stable(p: Patterns, items: seq<Value>, names: set<Text>, again: Value)
    requires AllRulesOk(p, items, names)
  {
    RulesOk(p, again, names) && PolicyJsonOk(again)
    && SortMembers(MakeRules(p, again.items, names)) == SortMembers(MakeRules(p, items, names))
  }

  lemma RulesStable(p: Patterns, v: Value, names: set<Text>)
    requires RulesOk(p, v, names) && PolicyJsonOk(v)
    ensures Stable(p, v.items, names, ArrValue(EncodeRules(ValuesOf(SortMembers(MakeRules(p, v.items, names))))))
  {
    RulesStay(p, v.items, names);
    RulesJson(p, v, names);
  }

  /** A set whose rules are exchanged for others that sort to the same list compiles the same. */
  lemma SetStays(p: Patterns, f: map<Text, Value>, g: map<Text, Value>)
    requires SetOk(p, ObjValue(f)) && g.Keys == SET_KEYS && SameSetFields(f, g)
    requires PolicyJsonOk(ObjValue(g)) && Stable(p, f[RULES].items, f[CONSTANTS].fields.Keys, g[RULES])
    ensures Compile(p, ObjValue(g)) == Compile(p, ObjValue(f))
  {
  }

  /** The same rules, in the order of their distinct ids. */
  ghost predicate Normalised(ms: seq<Keyed<Rule>>, rules: seq<Rule>) {
    && (forall i, j :: 0 <= i < j < |rules| ==> Less(rules[i].ruleId, rules[j].ruleId))
    && (forall r: Rule :: r in rules <==> r in ValuesOf(ms))
  }

  /** What a compiled set looks like: rules in the order of distinct ids, lists in strict code-unit
      order, and the rules are exactly those of the source. */
  lemma CompiledIsNormal(p: Patterns, v: Value)
    requires Compile(p, v).Some?
    ensures Normalised(MakeRules(p, v.fields[RULES].items, v.fields[CONSTANTS].fields.Keys), Compile(p, v).value.rules)
    ensures forall r :: r in Compile(p, v).value.rules ==> ListsInOrder(r)
  {
    NormalRules(MakeRules(p, v.fields[RULES].items, v.fields[CONSTANTS].fields.Keys));
    MadeListsInOrder(p, v.fields[RULES].items, v.fields[CONSTANTS].fields.Keys);
  }

  /** Selector lists and permission scopes are in strict code-unit order. */
  predicate ListsInOrder(r: Rule) {
    && Ascending(r.subjectTypes) && Ascending(r.resourceTypes)
    && (r.requirements.permissionScopes.Some? ==> Ascending(r.requirements.permissionScopes.value))
  }

  lemma RuleListsInOrder(p: Patterns, v: Value, names: set<Text>)
    requires RuleOk(p, v, names)
    ensures ListsInOrder(MakeRule(p, v, names))
  {
    var f := v.fields;
    SortedTextsContent(f[SUBJECT_SELECTOR].fields[SUBJECT_TYPES]);
    SortedTextsContent(f[RESOURCE_SELECTOR].fields[RESOURCE_TYPES]);
    if PERMISSION_SCOPES in f[REQUIREMENTS].fields {
      SortedTextsContent(f[REQUIREMENTS].fields[PERMISSION_SCOPES]);
    }
  }

  predicate AllListsInOrder(ms: seq<Keyed<Rule>>) { forall k :: 0 <= k < |ms| ==> ListsInOrder(ms[k].value) }

  lemma MadeListsInOrder(p: Patterns, items: seq<Value>, names: set<Text>)
    requires AllRulesOk(p, items, names)
    ensures AllListsInOrder(SortMembers(MakeRules(p, items, names)))
  {
    forall k | 0 <= k < |items|
      ensures ListsInOrder(MakeRules(p, items, names)[k].value)
    {
      RuleListsInOrder(p, items[k], names);
    }
    SortedListsInOrder(MakeRules(p, items, names));
  }

  lemma SortedListsInOrder(ms: seq<Keyed<Rule>>)
    requires AllListsInOrder(ms)
    ensures AllListsInOrder(SortMembers(ms))
  {
    forall k | 0 <= k < |ms|
      ensures ListsInOrder(SortMembers(ms)[k].value)
    {
      var i := SortedFrom(ms, k);
    }
  }

  lemma NormalRules(ms: seq<Keyed<Rule>>)
    requires DistinctKeys(ms) && forall i :: 0 <= i < |ms| ==> ms[i].key == ms[i].value.ruleId
    ensures Normalised(ms, ValuesOf(SortMembers(ms)))
  {
    var sorted := SortMembers(ms);
    SortedMembers(ms);
    forall k | 0 <= k < |sorted|
      ensures sorted[k].key == sorted[k].value.ruleId
    {
      assert sorted[k] in ms;
    }
    forall r: Rule
      ensures r in ValuesOf(sorted) <==> r in ValuesOf(ms)
    {
      ValuesIncluded(sorted, ms, r);
      ValuesIncluded(ms, sorted, r);
    }
  }

  lemma ValuesIncluded<T>(a: seq<Keyed<T>>, b: seq<Keyed<T>>, x: T)
    requires forall m :: m in a ==> m in b
    ensures x in ValuesOf(a) ==> x in ValuesOf(b)
  {
    if x in ValuesOf(a) {
      var i :| 0 <= i < |a| && ValuesOf(a)[i] == x;
      assert a[i] in b;
      var j :| 0 <= j < |b| && b[j] == a[i];
      assert ValuesOf(b)[j] == x;
    }
  }

  // ---------------------------------------------------------------- snapshots

  datatype Metadata = Metadata(snapshotId: Text, compilerVersion: Text, createdAt: Text)

  const SNAPSHOT_ID: Text := Ascii("snapshotId")
  const POLICY_VERSION: Text := Ascii("policyVersion")
  const POLICY_HASH: Text := Ascii("policyHash")
  const COMPILED_POLICY_SET: Text := Ascii("compiledPolicySet")
  const COMPILER_VERSION: Text := Ascii("compilerVersion")
  const CREATED_AT: Text := Ascii("createdAt")

  const SNAPSHOT_KEYS: set<Text> := {
    SCHEMA_VERSION, SNAPSHOT_ID, POLICY_SET_ID, POLICY_VERSION, POLICY_HASH, COMPILED_POLICY_SET, COMPILER_VERSION, CREATED_AT}

  predicate MetadataOk(p: Patterns, m: Metadata) {
    p.uuidV7(m.snapshotId) && p.semver(m.compilerVersion) && p.dateTime(m.createdAt)
  }

  /** `createPolicySnapshot`; `None` where it throws. */
  function CreateSnapshot(p: Patterns, policy: PolicySet, m: Metadata): Option<Value> {
    if !MetadataOk(p, m) then None else
      Some(ObjValue(map[
        SCHEMA_VERSION := StrValue(VERSION_ONE),
        SNAPSHOT_ID := StrValue(m.snapshotId),
        POLICY_SET_ID := StrValue(policy.policySetId),
        POLICY_VERSION := StrValue(policy.version),
        POLICY_HASH := StrValue(p.sha256(EncodePolicySet(policy))),
        COMPILED_POLICY_SET := EncodePolicySet(policy),
        COMPILER_VERSION := StrValue(m.compilerVersion),
        CREATED_AT := StrValue(m.createdAt)]))
  }

  predicate IsString(v: Value) { v.StrValue? }

  /** `validateSnapshot` against the recompiled set and its hash. */
  predicate SnapshotOk(p: Patterns, v: Value, policySnapshotId: Text, compiled: PolicySet) {
    v.ObjValue? && v.fields.Keys == SNAPSHOT_KEYS
    && var f := v.fields;
    && f[SCHEMA_VERSION] == StrValue(VERSION_ONE)
    && IsString(f[SNAPSHOT_ID]) && p.uuidV7(f[SNAPSHOT_ID].s) && f[SNAPSHOT_ID].s == policySnapshotId
    && IsString(f[POLICY_SET_ID]) && p.uuidV7(f[POLICY_SET_ID].s) && f[POLICY_SET_ID].s == compiled.policySetId
    && IsString(f[POLICY_VERSION]) && p.semver(f[POLICY_VERSION].s) && f[POLICY_VERSION].s == compiled.version
    && IsString(f[POLICY_HASH]) && p.hex64(f[POLICY_HASH].s) && f[POLICY_HASH].s == p.sha256(EncodePolicySet(compiled))
    && IsString(f[COMPILER_VERSION]) && p.semver(f[COMPILER_VERSION].s)
    && IsString(f[CREATED_AT]) && p.dateTime(f[CREATED_AT].s)
  }

  /** The recompile-and-hash check of `evaluatePolicy`: the compiled set when the snapshot passes. */
  function CheckSnapshot(p: Patterns, v: Value, policySnapshotId: Text): Option<PolicySet> {
    if !v.ObjValue? || COMPILED_POLICY_SET !in v.fields then None else
      match Compile(p, v.fields[COMPILED_POLICY_SET])
      case None => None
      case Some(compiled) => if SnapshotOk(p, v, policySnapshotId, compiled) then Some(compiled) else None
  }

  lemma SnapshotKeysDiffer()
    ensures |SCHEMA_VERSION| == 13 && |SNAPSHOT_ID| == 10 && |POLICY_SET_ID| == 11 && |POLICY_VERSION| == 13
    ensures |POLICY_HASH| == 10 && |COMPILED_POLICY_SET| == 17 && |COMPILER_VERSION| == 15 && |CREATED_AT| == 9
    ensures SCHEMA_VERSION[0] == 115 && POLICY_VERSION[0] == 112 && SNAPSHOT_ID[0] == 115 && POLICY_HASH[0] == 112
  {
  }

  /** Every snapshot made of a compiled set passes the check for an input naming it, and for no other
      input. */
  lemma SnapshotsPass(p: Patterns, source: Value, m: Metadata, policySnapshotId: Text)
    requires Compile(p, source).Some? && MetadataOk(p, m)
    requires p.hex64(p.sha256(EncodePolicySet(Compile(p, source).value)))
    ensures CheckSnapshot(p, CreateSnapshot(p, Compile(p, source).value, m).value, policySnapshotId) ==
      if policySnapshotId == m.snapshotId then Compile(p, source) else None
  {
    var policy := Compile(p, source).value;
    CompileIsIdempotent(p, source);
    CompiledNamesOk(p, source);
    SnapshotFields(p, policy, m);
    CheckedFields(p, CreateSnapshot(p, policy, m).value.fields, policySnapshotId, policy, m);
  }

  /** The fields of a snapshot. */
  predicate Describes(p: Patterns, f: map<Text, Value>, policy: PolicySet, m: Metadata, embedded: Value) {
    && f.Keys == SNAPSHOT_KEYS
    && f[SCHEMA_VERSION] == StrValue(VERSION_ONE) && f[SNAPSHOT_ID] == StrValue(m.snapshotId)
    && f[POLICY_SET_ID] == StrValue(policy.policySetId) && f[POLICY_VERSION] == StrValue(policy.version)
    && f[POLICY_HASH] == StrValue(p.sha256(EncodePolicySet(policy))) && f[COMPILED_POLICY_SET] == embedded
    && f[COMPILER_VERSION] == StrValue(m.compilerVersion) && f[CREATED_AT] == StrValue(m.createdAt)
  }

  lemma SnapshotFields(p: Patterns, policy: PolicySet, m: Metadata)
    requires MetadataOk(p, m)
    ensures Describes(p, CreateSnapshot(p, policy, m).value.fields, policy, m, EncodePolicySet(policy))
  {
    SnapshotKeysDiffer();
  }

  lemma DescribedOk(p: Patterns, f: map<Text, Value>, policySnapshotId: Text, policy: PolicySet, m: Metadata)
    requires Describes(p, f, policy, m, EncodePolicySet(policy)) && MetadataOk(p, m)
    requires p.uuidV7(policy.policySetId) && p.semver(policy.version) && p.hex64(p.sha256(EncodePolicySet(policy)))
    ensures SnapshotOk(p, ObjValue(f), policySnapshotId, policy) <==> policySnapshotId == m.snapshotId
  {
  }

  lemma CheckedFields(p: Patterns, f: map<Text, Value>, policySnapshotId: Text, policy: PolicySet, m: Metadata)
    requires Describes(p, f, policy, m, EncodePolicySet(policy)) && MetadataOk(p, m)
    requires Compile(p, EncodePolicySet(policy)) == Some(policy)
    requires p.uuidV7(policy.policySetId) && p.semver(policy.version) && p.hex64(p.sha256(EncodePolicySet(policy)))
    ensures CheckSnapshot(p, ObjValue(f), policySnapshotId) == if policySnapshotId == m.snapshotId then Some(policy) else None
  {
    DescribedOk(p, f, policySnapshotId, policy, m);
  }

  lemma CompiledNamesOk(p: Patterns, v: Value)
    requires Compile(p, v).Some?
    ensures p.uuidV7(Compile(p, v).value.policySetId) && p.semver(Compile(p, v).value.version)
  {
  }

  /** When the hash is injective, a snapshot that passes holds exactly the set its hash was taken of:
      exchanging the policy of a snapshot for one that compiles differently is noticed. */
  lemma ExchangedPolicyFails(p: Patterns, source: Value, m: Metadata, other: Value, policySnapshotId: Text)
    requires forall v, w :: p.sha256(v) == p.sha256(w) ==> v == w
    requires Compile(p, source).Some? && MetadataOk(p, m)
    requires Compile(p, other) != Compile(p, source)
    ensures var snapshot := CreateSnapshot(p, Compile(p, source).value, m).value;
      CheckSnapshot(p, ObjValue(snapshot.fields[COMPILED_POLICY_SET := other]), policySnapshotId) == None
  {
    var policy := Compile(p, source).value;
    var f := CreateSnapshot(p, policy, m).value.fields[COMPILED_POLICY_SET := other];
    ExchangedFields(p, policy, m, other);
    PassedHash(p, f, policySnapshotId);
    if CheckSnapshot(p, ObjValue(f), policySnapshotId).Some? {
      EncodingsDiffer(p, source, other);
    }
  }

  lemma ExchangedFields(p: Patterns, policy: PolicySet, m: Metadata, other: Value)
    requires MetadataOk(p, m)
    ensures var f := CreateSnapshot(p, policy, m).value.fields[COMPILED_POLICY_SET := other];
      POLICY_HASH in f && f[POLICY_HASH] == StrValue(p.sha256(EncodePolicySet(policy))) && f[COMPILED_POLICY_SET] == other
  {
    SnapshotKeysDiffer();
    SnapshotFields(p, policy, m);
  }

  /** A snapshot that passes holds a set that compiles, and the hash of what it compiles to. */
  lemma PassedHash(p: Patterns, f: map<Text, Value>, policySnapshotId: Text)
    ensures var checked := CheckSnapshot(p, ObjValue(f), policySnapshotId);
      checked.Some? ==>
        && COMPILED_POLICY_SET in f && checked == Compile(p, f[COMPILED_POLICY_SET])
        && POLICY_HASH in f && f[POLICY_HASH] == StrValue(p.sha256(EncodePolicySet(checked.value)))
  {
  }

  lemma EncodingsDiffer(p: Patterns, a: Value, b: Value)
    requires Compile(p, a).Some? && Compile(p, b).Some?
    ensures EncodePolicySet(Compile(p, a).value) == EncodePolicySet(Compile(p, b).value) ==> Compile(p, a) == Compile(p, b)
  {
    CompileIsIdempotent(p, a);
    CompileIsIdempotent(p, b);
  }
}
