/** What a policy source permits, read off its JSON. */
module PolicyMeaning {
  // The decision on an input, stated on the source and the input as they are written, and the proof that
  // compiling, taking a snapshot and evaluating it come to exactly that.
  import opened CodeUnits
  import opened CanonicalJson
  import opened TextOrder
  import opened Policy
  import opened PolicyCompiler
  import opened PolicyNormalForm
  import opened PolicySnapshots
  import opened PolicyEvaluator
  import opened PolicyDecisions
  import opened PolicyLanguage

  // ---------------------------------------------------------------- merged requirements, part by part

  ghost predicate SomeTimeout(qs: set<Requirements>, n: Positive) { exists q :: q in qs && q.timeoutMs == Some(n) }

  ghost predicate SomeConcurrency(qs: set<Requirements>, n: Positive) { exists q :: q in qs && q.maxConcurrency == Some(n) }

  ghost predicate SomeLevel(qs: set<Requirements>, level: IsolationLevel) {
    exists q :: q in qs && q.minimumIsolationLevel == Some(level)
  }

  ghost predicate SomeScope(qs: set<Requirements>, x: Text) { exists q :: q in qs && x in ScopeSet(q) }

  ghost predicate SomePost(qs: set<Requirements>) { exists q :: q in qs && PostRequired(q) }

  lemma MergedScopes(m: Requirements, qs: set<Requirements>, x: Text)
    requires Merges(m, qs)
    ensures x in ScopeSet(m) <==> SomeScope(qs, x)
  {
    var scopes := Listed(set q, y | q in qs && y in ScopeSet(q) :: y);
    var u := m.(permissionScopes := Some(scopes));
    forall q | q in qs
      ensures AtLeast(q, u)
    {
      assert AtLeast(q, m);
    }
    assert UpperBound(u, qs) && AtLeast(m, u);
  }

  lemma MergedTimeout(m: Requirements, qs: set<Requirements>)
    requires Merges(m, qs)
    ensures m.timeoutMs.Some? ==> SomeTimeout(qs, m.timeoutMs.value)
    ensures forall n :: SomeTimeout(qs, n) ==> m.timeoutMs.Some? && m.timeoutMs.value <= n
  {
    var limit :=
      if m.timeoutMs.None? || SomeTimeout(qs, m.timeoutMs.value) then m.timeoutMs
      else if exists n :: SomeTimeout(qs, n) then Some(m.timeoutMs.value + 1) else None;
    var u := m.(timeoutMs := limit);
    forall q | q in qs
      ensures AtLeast(q, u)
    {
      assert AtLeast(q, m);
      assert q.timeoutMs.Some? ==> SomeTimeout(qs, q.timeoutMs.value);
    }
    assert UpperBound(u, qs) && AtLeast(m, u);
  }

  lemma MergedConcurrency(m: Requirements, qs: set<Requirements>)
    requires Merges(m, qs)
    ensures m.maxConcurrency.Some? ==> SomeConcurrency(qs, m.maxConcurrency.value)
    ensures forall n :: SomeConcurrency(qs, n) ==> m.maxConcurrency.Some? && m.maxConcurrency.value <= n
  {
    var limit :=
      if m.maxConcurrency.None? || SomeConcurrency(qs, m.maxConcurrency.value) then m.maxConcurrency
      else if exists n :: SomeConcurrency(qs, n) then Some(m.maxConcurrency.value + 1) else None;
    var u := m.(maxConcurrency := limit);
    forall q | q in qs
      ensures AtLeast(q, u)
    {
      assert AtLeast(q, m);
      assert q.maxConcurrency.Some? ==> SomeConcurrency(qs, q.maxConcurrency.value);
    }
    assert UpperBound(u, qs) && AtLeast(m, u);
  }

  lemma MergedLevel(m: Requirements, qs: set<Requirements>, level: IsolationLevel)
    requires Merges(m, qs)
    ensures m.minimumIsolationLevel == Some(level) <==>
      SomeLevel(qs, level) && (level == ProcessRestricted ==> forall other :: SomeLevel(qs, other) ==> other == ProcessRestricted)
  {
    forall q | q in qs
      ensures LevelAtLeast(q.minimumIsolationLevel, m.minimumIsolationLevel)
    {
      assert AtLeast(q, m);
    }
    var lower :=
      if m.minimumIsolationLevel.None? || SomeLevel(qs, m.minimumIsolationLevel.value) then m.minimumIsolationLevel
      else if exists other :: SomeLevel(qs, other) then Some(ProcessRestricted) else None;
    var u := m.(minimumIsolationLevel := lower);
    forall q | q in qs
      ensures AtLeast(q, u)
    {
      assert AtLeast(q, m);
      assert q.minimumIsolationLevel.Some? ==> SomeLevel(qs, q.minimumIsolationLevel.value);
    }
    assert UpperBound(u, qs) && AtLeast(m, u);
  }

  lemma MergedPost(m: Requirements, qs: set<Requirements>)
    requires Merges(m, qs)
    ensures PostRequired(m) <==> SomePost(qs)
  {
    var u := m.(postVerificationRequired := if SomePost(qs) then m.postVerificationRequired else None);
    forall q | q in qs
      ensures AtLeast(q, u)
    {
      assert AtLeast(q, m);
    }
    assert UpperBound(u, qs) && AtLeast(m, u);
    if q :| q in qs && PostRequired(q) {
      assert AtLeast(q, m);
    }
  }

  // ---------------------------------------------------------------- rules as written

  /** A field of an object, when it is there. */
  function Field(v: Value, name: string): Option<Value> {
    if v.ObjValue? && Ascii(name) in v.fields then Some(v.fields[Ascii(name)]) else None
  }

  function Inside(v: Value, outer: string, inner: string): Option<Value> {
    match Field(v, outer)
    case None => None
    case Some(o) => Field(o, inner)
  }

  predicate IsIn(x: Option<Value>, list: Option<Value>) {
    x.Some? && list.Some? && list.value.ArrValue? && x.value in list.value.items
  }

  predicate IsAbout(rule: Value, input: Value) {
    && Field(rule, "domain") == Field(input, "domain") && Field(rule, "action") == Field(input, "action")
    && IsIn(Field(input, "subjectType"), Inside(rule, "subjectSelector", "subjectTypes"))
    && IsIn(Field(input, "resourceType"), Inside(rule, "resourceSelector", "resourceTypes"))
  }

  ghost function RuleSays(rule: Value, input: Value, constants: Fields): Option<bool> {
    match Field(rule, "when")
    case None => None
    case Some(when) => Says(when, input, constants)
  }

  /** What a rule demands, as it is written. */
  datatype Demand = Demand(scopes: set<Text>, level: Option<Value>, timeout: Option<Value>, concurrency: Option<Value>, post: bool)

  function ReadDemand(requirements: Value): Demand {
    Demand(
      Strings(Field(requirements, "permissionScopes")), Field(requirements, "minimumIsolationLevel"),
      Field(requirements, "timeoutMs"), Field(requirements, "maxConcurrency"),
      Field(requirements, "postVerificationRequired") == Some(BoolValue(true)))
  }

  function Strings(list: Option<Value>): set<Text> {
    if list.Some? && list.value.ArrValue? then set v | v in list.value.items && v.StrValue? :: v.s else {}
  }

  /** What a rule comes to for an input, as both are written. */
  datatype Reading = Reading(about: bool, says: Option<bool>, effect: Option<Value>, id: Option<Value>, reason: Option<Value>, demand: Demand)

  ghost function Read(rule: Value, input: Value, constants: Fields): Reading {
    Reading(
      IsAbout(rule, input), RuleSays(rule, input, constants), Field(rule, "ruleEffect"), Field(rule, "ruleId"),
      Field(rule, "reasonCode"), ReadDemand(if Field(rule, "requirements").Some? then Field(rule, "requirements").value else NullValue))
  }

  // ---------------------------------------------------------------- compiled rules as written

  /** What a compiled rule is about is what its source says. */
  ghost predicate DescribedBy(v: Value, r: Rule) {
    && Field(v, "domain") == Some(StrValue(r.domain)) && Field(v, "action") == Some(StrValue(r.action))
    && (forall s :: IsIn(Some(StrValue(s)), Inside(v, "subjectSelector", "subjectTypes")) <==> s in r.subjectTypes)
    && (forall s :: IsIn(Some(StrValue(s)), Inside(v, "resourceSelector", "resourceTypes")) <==> s in r.resourceTypes)
  }

  lemma ListDescribed(list: Value)
    requires IsTexts(list)
    ensures forall s :: IsIn(Some(StrValue(s)), Some(list)) <==> s in SortedTexts(list)
  {
    SortedTextsContent(list);
  }

  lemma ListsDescribed(v: Value, r: Rule, subjects: Value, resources: Value)
    requires Field(v, "domain") == Some(StrValue(r.domain)) && Field(v, "action") == Some(StrValue(r.action))
    requires Inside(v, "subjectSelector", "subjectTypes") == Some(subjects) && IsTexts(subjects) && r.subjectTypes == SortedTexts(subjects)
    requires Inside(v, "resourceSelector", "resourceTypes") == Some(resources) && IsTexts(resources) && r.resourceTypes == SortedTexts(resources)
    ensures DescribedBy(v, r)
  {
    ListDescribed(subjects);
    ListDescribed(resources);
  }

  lemma RuleDescribed(p: Patterns, v: Value, names: set<Text>)
    requires RuleOk(p, v, names)
    ensures DescribedBy(v, MakeRule(p, v, names))
  {
    ListsDescribed(v, MakeRule(p, v, names), v.fields[SUBJECT_SELECTOR].fields[SUBJECT_TYPES],
                   v.fields[RESOURCE_SELECTOR].fields[RESOURCE_TYPES]);
  }

  lemma InputDescribed(i: Input, input: Value)
    requires input.ObjValue? && Holds(i, input.fields)
    ensures Field(input, "domain") == Some(StrValue(i.domain)) && Field(input, "action") == Some(StrValue(i.action))
    ensures Field(input, "subjectType") == Some(StrValue(i.subjectType))
    ensures Field(input, "resourceType") == Some(StrValue(i.resourceType))
  {
  }

  lemma AboutApplies(v: Value, r: Rule, i: Input, input: Value)
    requires DescribedBy(v, r) && input.ObjValue? && Holds(i, input.fields)
    ensures IsAbout(v, input) <==> Applies(r, i)
  {
    InputDescribed(i, input);
  }

  /** What compiled requirements demand. */
  function Demanded(q: Requirements): Demand {
    Demand(ScopeSet(q), LevelOption(q.minimumIsolationLevel), NumberOption(q.timeoutMs), NumberOption(q.maxConcurrency), PostRequired(q))
  }

  lemma RequirementsRead(v: Value)
    requires RequirementsOk(v)
    ensures ReadDemand(v) == Demanded(MakeRequirements(v))
  {
    if PERMISSION_SCOPES in v.fields {
      SortedTextsContent(v.fields[PERMISSION_SCOPES]);
      assert Strings(Field(v, "permissionScopes")) == ScopeSet(MakeRequirements(v));
    }
    if MINIMUM_ISOLATION_LEVEL in v.fields {
      ParsedLevel(v.fields[MINIMUM_ISOLATION_LEVEL].s);
    }
  }

  /** What a compiled rule comes to for an input. */
  ghost function Compiled(r: Rule, i: Input, constants: Constants): Reading {
    Reading(
      Applies(r, i), if Decided(r.when, i, constants) then Some(Truth(r.when, i, constants)) else None,
      Some(StrValue(EffectName(r.ruleEffect))), Some(StrValue(r.ruleId)), Some(StrValue(r.reasonCode)), Demanded(r.requirements))
  }

  lemma RuleIsSaid(p: Patterns, v: Value, names: set<Text>, i: Input, input: Value, constants: Constants)
    requires RuleOk(p, v, names) && input.ObjValue? && Holds(i, input.fields)
    ensures Read(v, input, constants).about == Compiled(MakeRule(p, v, names), i, constants).about
    ensures Read(v, input, constants).says == Compiled(MakeRule(p, v, names), i, constants).says
  {
    RuleDescribed(p, v, names);
    AboutApplies(v, MakeRule(p, v, names), i, input);
    ConditionIsSaid(p, v.fields[WHEN], MAX_DEPTH, names, i, input, constants);
    EvaluateIsThreeValued(MakeRule(p, v, names).when, i, constants);
  }

  lemma RuleTexts(p: Patterns, v: Value, names: set<Text>)
    requires RuleOk(p, v, names)
    ensures Field(v, "ruleId") == Some(StrValue(MakeRule(p, v, names).ruleId))
    ensures Field(v, "reasonCode") == Some(StrValue(MakeRule(p, v, names).reasonCode))
    ensures Field(v, "ruleEffect") == Some(StrValue(EffectName(MakeRule(p, v, names).ruleEffect)))
    ensures Field(v, "requirements").Some? && ReadDemand(Field(v, "requirements").value) == Demanded(MakeRule(p, v, names).requirements)
  {
    EffectReads(v.fields[RULE_EFFECT]);
    RequirementsRead(v.fields[REQUIREMENTS]);
  }

  /** A compiled rule comes to what its source says. */
  lemma RuleReads(p: Patterns, v: Value, names: set<Text>, i: Input, input: Value, constants: Constants)
    requires RuleOk(p, v, names) && input.ObjValue? && Holds(i, input.fields)
    ensures Read(v, input, constants) == Compiled(MakeRule(p, v, names), i, constants)
  {
    RuleIsSaid(p, v, names, i, input, constants);
    RuleTexts(p, v, names);
  }

  // ---------------------------------------------------------------- decisions on rules as written

  predicate Fires(x: Reading) { x.about && x.says == Some(true) }

  /** The rule is about the input, but its condition says nothing. */
  predicate Silent(x: Reading) { x.about && x.says == None }

  function TextOf(v: Option<Value>): Text {
    match v
    case Some(StrValue(s)) => s
    case _ => []
  }

  predicate SomeSilent(xs: set<Reading>) { exists x :: x in xs && Silent(x) }

  function Firing(xs: set<Reading>): set<Reading> { set x | x in xs && Fires(x) }

  function FiringTo(xs: set<Reading>, effect: string): set<Reading> {
    set x | x in xs && Fires(x) && x.effect == Some(Word(effect))
  }

  /** The firing rules whose ids precede those of all silent rules. */
  function BeforeSilent(xs: set<Reading>): set<Reading> {
    set x | x in xs && Fires(x) && forall u :: u in xs && Silent(u) ==> Less(TextOf(x.id), TextOf(u.id))
  }

  function IdsOf(xs: set<Reading>): set<Text> { set x | x in xs :: TextOf(x.id) }

  function ReasonsOf(xs: set<Reading>): set<Text> { set x | x in xs :: TextOf(x.reason) }

  /** Two demands are for different levels, both above the lowest. */
  predicate Disagree(ds: set<Demand>) {
    exists a, b :: a in ds && b in ds && AboveLowest(a.level) && AboveLowest(b.level) && a.level != b.level
  }

  /** The one level above the lowest, or the lowest if there is none, or none. */
  predicate HighestLevel(level: Option<Value>, asked: set<Option<Value>>) {
    && (level == None || level in asked)
    && (forall other :: other in asked && other.Some? ==> level.Some?)
    && (forall other :: other in asked && AboveLowest(other) ==> level == other)
  }

  predicate AboveLowest(level: Option<Value>) { level.Some? && level != Some(Word("PROCESS_RESTRICTED")) }

  /** The smallest of some numbers, when there are any. */
  predicate Smallest(limit: Option<Value>, asked: set<Option<Value>>) {
    && (limit == None || limit in asked)
    && forall n :: Some(NumValue(n)) in asked ==> limit.Some? && limit.value.NumValue? && limit.value.n <= n
  }

  function DemandsOf(xs: set<Reading>): set<Demand> { set x | x in xs :: x.demand }

  /** The requirements that meet all the demands and demand nothing else. */
  predicate Combines(q: Requirements, ds: set<Demand>) {
    var d := Demanded(q);
    && Tidy(q)
    && d.scopes == (set e, s | e in ds && s in e.scopes :: s)
    && Smallest(d.timeout, set e | e in ds :: e.timeout) && Smallest(d.concurrency, set e | e in ds :: e.concurrency)
    && (d.post <==> exists e :: e in ds && e.post)
    && HighestLevel(d.level, set e | e in ds :: e.level)
  }

  /** The hard invariants that an input breaks. */
  function Broken(input: Value): set<Text> {
    (if Field(input, "authorityMutation") == Some(BoolValue(true)) then {Ascii("NO_DIRECT_AUTHORITY_WRITE")} else {})
    + (if Field(input, "riskClass") == Some(Word("R4")) && Field(input, "controlVerified") == Some(BoolValue(false))
       then {Ascii("R4_REQUIRES_VERIFIED_CONTROL")} else {})
    + (if Field(input, "dataClassification") == Some(Word("SECRET")) && Field(input, "direction") == Some(Word("OUTBOUND"))
       then {Ascii("NO_SECRET_OUTBOUND")} else {})
  }

  /** The decision, from what the rules come to and the invariants that are broken. */
  predicate Concludes(d: Decision, xs: set<Reading>, broken: set<Text>) {
    ConcludesOn(d, broken, SomeSilent(xs), BeforeSilent(xs), Firing(xs), FiringTo(xs, "DENY"), FiringTo(xs, "ALLOW"))
  }

  predicate ConcludesOn(d: Decision, broken: set<Text>, silent: bool, before: set<Reading>, firing: set<Reading>,
                        denying: set<Reading>, allowing: set<Reading>) {
    if broken != {} then Outcomes(d, Denied, {}, broken, {Ascii("HARD_INVARIANT_VIOLATION")})
    else if silent then Outcomes(d, Indeterminate, IdsOf(before), {}, {Ascii("CONDITION_TYPE_MISMATCH")})
    else if denying != {} then Outcomes(d, Denied, IdsOf(firing), {}, ReasonsOf(denying))
    else if allowing == {} then Outcomes(d, Denied, {}, {}, {Ascii("DEFAULT_DENY")})
    else if Disagree(DemandsOf(allowing)) then
      Outcomes(d, Indeterminate, IdsOf(allowing), {}, {Ascii("REQUIREMENTS_CONFLICT")})
    else
      && d.outcome == (if d.requirements == Requirements(None, None, None, None, None) then Allowed else AllowedWithRequirements)
      && Lists(d.matchedRuleIds, IdsOf(allowing)) && Lists(d.hardInvariantIds, {}) && Lists(d.reasonCodes, {})
      && Combines(d.requirements, DemandsOf(allowing))
  }

  /** A decision that demands nothing. */
  predicate Outcomes(d: Decision, outcome: Outcome, ids: set<Text>, invariants: set<Text>, reasons: set<Text>) {
    && d.outcome == outcome && d.requirements == Requirements(None, None, None, None, None)
    && Lists(d.matchedRuleIds, ids) && Lists(d.hardInvariantIds, invariants) && Lists(d.reasonCodes, reasons)
  }

  // ---------------------------------------------------------------- readings of compiled rules

  ghost function CompiledAll(rs: set<Rule>, i: Input, constants: Constants): set<Reading> {
    set r | r in rs :: Compiled(r, i, constants)
  }

  lemma CompiledFires(r: Rule, i: Input, constants: Constants)
    ensures var x := Compiled(r, i, constants);
      && (Fires(x) <==> Matches(r, constants, i)) && (Silent(x) <==> Undecided(r, constants, i))
      && TextOf(x.id) == r.ruleId && TextOf(x.reason) == r.reasonCode
      && (x.effect == Some(Word("ALLOW")) <==> r.ruleEffect == Allow) && (x.effect == Some(Word("DENY")) <==> r.ruleEffect == Deny)
  {
    EffectsAreSpelled(EffectName(r.ruleEffect));
  }

  lemma FiringCompiled(rs: set<Rule>, i: Input, constants: Constants)
    ensures Firing(CompiledAll(rs, i, constants)) == CompiledAll(Matching(rs, constants, i), i, constants)
    ensures FiringTo(CompiledAll(rs, i, constants), "ALLOW") == CompiledAll(Effective(rs, constants, i, Allow), i, constants)
    ensures FiringTo(CompiledAll(rs, i, constants), "DENY") == CompiledAll(Effective(rs, constants, i, Deny), i, constants)
  {
    forall r | r in rs
      ensures Compiled(r, i, constants) in CompiledAll(rs, i, constants)
    {
      CompiledFires(r, i, constants);
    }
  }

  ghost predicate SomeUndecided(rs: set<Rule>, constants: Constants, i: Input) { exists r :: r in rs && Undecided(r, constants, i) }

  lemma SilentCompiled(rs: set<Rule>, i: Input, constants: Constants)
    ensures BeforeSilent(CompiledAll(rs, i, constants)) == CompiledAll(BeforeUndecided(rs, constants, i), i, constants)
    ensures SomeSilent(CompiledAll(rs, i, constants)) <==> SomeUndecided(rs, constants, i)
  {
    forall r | r in rs
      ensures Compiled(r, i, constants) in CompiledAll(rs, i, constants)
    {
      CompiledFires(r, i, constants);
    }
  }

  lemma NamesCompiled(rs: set<Rule>, i: Input, constants: Constants)
    ensures IdsOf(CompiledAll(rs, i, constants)) == Ids(rs) && ReasonsOf(CompiledAll(rs, i, constants)) == Reasons(rs)
    ensures CompiledAll(rs, i, constants) == {} <==> rs == {}
  {
    forall r | r in rs
      ensures Compiled(r, i, constants) in CompiledAll(rs, i, constants)
    {
      CompiledFires(r, i, constants);
    }
  }

  lemma AboveCompiled(level: Option<IsolationLevel>)
    ensures AboveLowest(LevelOption(level)) <==> Above(level)
  {
    if level.Some? {
      LevelNames(level.value);
      LevelNames(ProcessRestricted);
    }
  }

  lemma SameLevels(a: Option<IsolationLevel>, b: Option<IsolationLevel>)
    ensures LevelOption(a) == LevelOption(b) <==> a == b
  {
    if a.Some? && b.Some? {
      LevelNames(a.value);
      LevelNames(b.value);
    }
  }

  function DemandedAll(qs: set<Requirements>): set<Demand> { set q | q in qs :: Demanded(q) }

  lemma DemandsCompiled(rs: set<Rule>, i: Input, constants: Constants)
    ensures DemandsOf(CompiledAll(rs, i, constants)) == DemandedAll(Demands(rs))
  {
    forall r | r in rs
      ensures Compiled(r, i, constants).demand == Demanded(r.requirements) && r.requirements in Demands(rs)
    {
    }
  }

  lemma DisagreeCompiled(qs: set<Requirements>)
    ensures Disagree(DemandedAll(qs)) <==> Conflicting(qs)
  {
    forall a, b | a in qs && b in qs
      ensures Clash(a, b) <==>
        AboveLowest(Demanded(a).level) && AboveLowest(Demanded(b).level) && Demanded(a).level != Demanded(b).level
      ensures Demanded(a) in DemandedAll(qs)
    {
      AboveCompiled(a.minimumIsolationLevel);
      AboveCompiled(b.minimumIsolationLevel);
      SameLevels(a.minimumIsolationLevel, b.minimumIsolationLevel);
    }
  }

  lemma LevelCombines(m: Requirements, qs: set<Requirements>)
    requires Merges(m, qs)
    ensures HighestLevel(Demanded(m).level, set e | e in DemandedAll(qs) :: e.level)
  {
    var asked := set e | e in DemandedAll(qs) :: e.level;
    if m.minimumIsolationLevel.Some? {
      MergedLevel(m, qs, m.minimumIsolationLevel.value);
      var q :| q in qs && q.minimumIsolationLevel == m.minimumIsolationLevel;
      assert Demanded(q) in DemandedAll(qs) && Demanded(q).level in asked;
    }
    forall other | other in asked && other.Some?
      ensures LevelOption(m.minimumIsolationLevel).Some?
      ensures AboveLowest(other) ==> LevelOption(m.minimumIsolationLevel) == other
    {
      var e :| e in DemandedAll(qs) && e.level == other;
      var q :| q in qs && Demanded(q) == e;
      assert AtLeast(q, m);
      AboveCompiled(q.minimumIsolationLevel);
    }
  }

  lemma LimitsCombine(m: Requirements, qs: set<Requirements>)
    requires Merges(m, qs)
    ensures Smallest(Demanded(m).timeout, set e | e in DemandedAll(qs) :: e.timeout)
    ensures Smallest(Demanded(m).concurrency, set e | e in DemandedAll(qs) :: e.concurrency)
  {
    MergedTimeout(m, qs);
    MergedConcurrency(m, qs);
    forall q | q in qs
      ensures Demanded(q) in DemandedAll(qs)
      ensures Demanded(q).timeout == NumberOption(q.timeoutMs) && Demanded(q).concurrency == NumberOption(q.maxConcurrency)
      ensures q.timeoutMs.Some? ==> SomeTimeout(qs, q.timeoutMs.value)
      ensures q.maxConcurrency.Some? ==> SomeConcurrency(qs, q.maxConcurrency.value)
    {
    }
  }

  lemma MergeCombines(m: Requirements, qs: set<Requirements>)
    requires Merges(m, qs)
    ensures Combines(m, DemandedAll(qs))
  {
    LevelCombines(m, qs);
    LimitsCombine(m, qs);
    MergedPost(m, qs);
    forall q | q in qs
      ensures Demanded(q) in DemandedAll(qs) && Demanded(q).scopes == ScopeSet(q) && Demanded(q).post == PostRequired(q)
    {
    }
    forall x
      ensures x in ScopeSet(m) <==> exists e :: e in DemandedAll(qs) && x in e.scopes
    {
      MergedScopes(m, qs, x);
      if q :| q in qs && x in ScopeSet(q) {
        assert x in Demanded(q).scopes;
      }
    }
  }

  /** What the readings of some compiled rules are, part by part. */
  ghost predicate Mirrors(xs: set<Reading>, rs: set<Rule>) {
    IdsOf(xs) == Ids(rs) && ReasonsOf(xs) == Reasons(rs) && (xs == {} <==> rs == {})
    && DemandsOf(xs) == DemandedAll(Demands(rs))
  }

  lemma CompiledMirrors(rs: set<Rule>, i: Input, constants: Constants)
    ensures Mirrors(CompiledAll(rs, i, constants), rs)
  {
    NamesCompiled(rs, i, constants);
    DemandsCompiled(rs, i, constants);
  }

  lemma PartsMirror(rs: set<Rule>, constants: Constants, i: Input)
    ensures var xs := CompiledAll(rs, i, constants);
      && Mirrors(Firing(xs), Matching(rs, constants, i)) && Mirrors(BeforeSilent(xs), BeforeUndecided(rs, constants, i))
      && Mirrors(FiringTo(xs, "ALLOW"), Effective(rs, constants, i, Allow))
      && Mirrors(FiringTo(xs, "DENY"), Effective(rs, constants, i, Deny))
  {
    FiringCompiled(rs, i, constants);
    SilentCompiled(rs, i, constants);
    CompiledMirrors(Matching(rs, constants, i), i, constants);
    CompiledMirrors(BeforeUndecided(rs, constants, i), i, constants);
    CompiledMirrors(Effective(rs, constants, i, Allow), i, constants);
    CompiledMirrors(Effective(rs, constants, i, Deny), i, constants);
  }

  lemma DemandsMirror(q: Requirements, qs: set<Requirements>)
    ensures Disagree(DemandedAll(qs)) <==> Conflicting(qs)
    ensures Merges(q, qs) ==> Combines(q, DemandedAll(qs))
  {
    DisagreeCompiled(qs);
    if Merges(q, qs) {
      MergeCombines(q, qs);
    }
  }

  /** `Decides`, on the parts of the set of rules. */
  ghost predicate DecidesOn(d: Decision, violations: set<Text>, undecided: bool, before: set<Rule>, matching: set<Rule>,
                            denying: set<Rule>, allowing: set<Rule>) {
    if violations != {} then Is(d, Denied, {}, violations, NO_REQUIREMENTS, {HARD_INVARIANT_VIOLATION})
    else if undecided then Is(d, Indeterminate, Ids(before), {}, NO_REQUIREMENTS, {CONDITION_TYPE_MISMATCH})
    else if denying != {} then Is(d, Denied, Ids(matching), {}, NO_REQUIREMENTS, Reasons(denying))
    else if allowing == {} then Is(d, Denied, {}, {}, NO_REQUIREMENTS, {DEFAULT_DENY})
    else if Conflicting(Demands(allowing)) then
      Is(d, Indeterminate, Ids(allowing), {}, NO_REQUIREMENTS, {REQUIREMENTS_CONFLICT})
    else
      Merges(d.requirements, Demands(allowing))
      && Is(d, if d.requirements == NO_REQUIREMENTS then Allowed else AllowedWithRequirements, Ids(allowing), {}, d.requirements, {})
  }

  lemma DecidedOnParts(d: Decision, rs: set<Rule>, constants: Constants, i: Input)
    requires Decides(d, rs, constants, i)
    ensures DecidesOn(d, Violations(i), SomeUndecided(rs, constants, i), BeforeUndecided(rs, constants, i), Matching(rs, constants, i),
                      Effective(rs, constants, i, Deny), Effective(rs, constants, i, Allow))
  {
  }

  lemma PartsConclude(d: Decision, violations: set<Text>, undecided: bool, rBefore: set<Rule>, matching: set<Rule>,
                      rDenying: set<Rule>, rAllowing: set<Rule>, before: set<Reading>, firing: set<Reading>,
                      denying: set<Reading>, allowing: set<Reading>)
    requires DecidesOn(d, violations, undecided, rBefore, matching, rDenying, rAllowing)
    requires Mirrors(before, rBefore) && Mirrors(firing, matching) && Mirrors(denying, rDenying) && Mirrors(allowing, rAllowing)
    ensures ConcludesOn(d, violations, undecided, before, firing, denying, allowing)
  {
    DemandsMirror(d.requirements, Demands(rAllowing));
  }

  lemma ReadingsConclude(d: Decision, violations: set<Text>, undecided: bool, rs: set<Rule>, constants: Constants, i: Input)
    requires DecidesOn(d, violations, undecided, BeforeUndecided(rs, constants, i), Matching(rs, constants, i),
                       Effective(rs, constants, i, Deny), Effective(rs, constants, i, Allow))
    ensures var xs := CompiledAll(rs, i, constants);
      ConcludesOn(d, violations, undecided, BeforeSilent(xs), Firing(xs), FiringTo(xs, "DENY"), FiringTo(xs, "ALLOW"))
  {
    var xs := CompiledAll(rs, i, constants);
    PartsMirror(rs, constants, i);
    PartsConclude(d, violations, undecided, BeforeUndecided(rs, constants, i), Matching(rs, constants, i),
                  Effective(rs, constants, i, Deny), Effective(rs, constants, i, Allow),
                  BeforeSilent(xs), Firing(xs), FiringTo(xs, "DENY"), FiringTo(xs, "ALLOW"));
  }

  lemma DecisionReads(d: Decision, rs: set<Rule>, constants: Constants, i: Input)
    requires DecidesOn(d, Violations(i), SomeUndecided(rs, constants, i), BeforeUndecided(rs, constants, i),
                       Matching(rs, constants, i), Effective(rs, constants, i, Deny), Effective(rs, constants, i, Allow))
    ensures Concludes(d, CompiledAll(rs, i, constants), Violations(i))
  {
    SilentCompiled(rs, i, constants);
    ReadingsConclude(d, Violations(i), SomeUndecided(rs, constants, i), rs, constants, i);
  }

  // ---------------------------------------------------------------- sources

  function RulesOf(source: Value): seq<Value> {
    match Field(source, "rules")
    case Some(ArrValue(items)) => items
    case _ => []
  }

  function ConstantsIn(source: Value): Fields {
    match Field(source, "constants")
    case Some(ObjValue(fields)) => fields
    case _ => map[]
  }

  ghost function Readings(source: Value, input: Value): set<Reading> {
    set v | v in RulesOf(source) :: Read(v, input, ConstantsIn(source))
  }

  lemma RiskRead(i: Input, input: Value)
    requires input.ObjValue? && Holds(i, input.fields)
    ensures Field(input, "riskClass") == Some(Word("R4")) <==> i.riskClass == R4
  {
    RisksAreSpelled(RiskName(i.riskClass));
  }

  lemma SecretRead(i: Input, input: Value)
    requires input.ObjValue? && Holds(i, input.fields)
    ensures Field(input, "dataClassification") == Some(Word("SECRET")) <==> i.dataClassification == Secret
    ensures Field(input, "direction") == Some(Word("OUTBOUND")) <==> i.direction == Outbound
  {
    ClassificationsAreSpelled(ClassificationName(i.dataClassification));
    DirectionsAreSpelled(DirectionName(i.direction));
  }

  lemma BrokenReads(i: Input, input: Value)
    requires input.ObjValue? && Holds(i, input.fields)
    ensures Broken(input) == Violations(i)
  {
    RiskRead(i, input);
    SecretRead(i, input);
  }

  lemma CompiledParts(p: Patterns, source: Value)
    requires Compile(p, source).Some?
    ensures var names := ConstantsIn(source).Keys;
      && ConstantsIn(source) == Compile(p, source).value.constants && AllRulesOk(p, RulesOf(source), names)
      && Normalised(MakeRules(p, RulesOf(source), names), Compile(p, source).value.rules)
  {
    CompiledIsNormal(p, source);
  }

  lemma SourceReads(p: Patterns, source: Value, i: Input, input: Value)
    requires Compile(p, source).Some? && input.ObjValue? && Holds(i, input.fields)
    ensures var policy := Compile(p, source).value;
      CompiledAll(Members(policy.rules), i, policy.constants) == Readings(source, input)
  {
    CompiledParts(p, source);
    var constants := ConstantsIn(source);
    RulesRead(p, RulesOf(source), constants.Keys, Compile(p, source).value.rules, i, input, constants);
  }

  lemma RulesRead(p: Patterns, items: seq<Value>, names: set<Text>, rules: seq<Rule>, i: Input, input: Value, constants: Constants)
    requires AllRulesOk(p, items, names) && Normalised(MakeRules(p, items, names), rules)
    requires input.ObjValue? && Holds(i, input.fields)
    ensures CompiledAll(Members(rules), i, constants) == set v | v in items :: Read(v, input, constants)
  {
    var made := ValuesOf(MakeRules(p, items, names));
    forall k | 0 <= k < |items|
      ensures made[k] in Members(rules) && Read(items[k], input, constants) == Compiled(made[k], i, constants)
    {
      assert made[k] in made;
      RuleReads(p, items[k], names, i, input, constants);
    }
    forall r | r in Members(rules)
      ensures exists k :: 0 <= k < |items| && made[k] == r
    {
    }
  }

  /** From source to decision: the decision on a snapshot of a policy is the one its source calls for, read
      off the source and the input as they are written. */
  lemma SourceConcludes(p: Patterns, source: Value, m: Metadata, inputValue: Value, d: Decision)
    requires Compile(p, source).Some? && MetadataOk(p, m) && p.hex64(p.sha256(EncodePolicySet(Compile(p, source).value)))
    requires ParseInput(p, inputValue).Some? && Field(inputValue, "policySnapshotId") == Some(StrValue(m.snapshotId))
    requires var snapshot := CreateSnapshot(p, Compile(p, source).value, m).value;
      PolicyJsonOk(snapshot) && PolicyJsonOk(inputValue) && Answers(p, snapshot, inputValue, d)
    ensures Concludes(d, Readings(source, inputValue), Broken(inputValue))
  {
    var i, policy := ParseInput(p, inputValue).value, Compile(p, source).value;
    ParsedHolds(p, inputValue);
    SnapshotsPass(p, source, m, i.policySnapshotId);
    SourceReads(p, source, i, inputValue);
    BrokenReads(i, inputValue);
    DecidedOnParts(d, Members(policy.rules), policy.constants, i);
    DecisionReads(d, Members(policy.rules), policy.constants, i);
  }

  // ---------------------------------------------------------------- refusals

  /** What is not I-JSON, not an input, or not asked for a snapshot that passes, is indeterminate, for a reason of
      its own. */
  lemma RefusalsAreTold(p: Patterns, snapshot: Value, inputValue: Value, d: Decision)
    requires Answers(p, snapshot, inputValue, d)
    ensures !PolicyJsonOk(snapshot) || !PolicyJsonOk(inputValue) ==>
      Outcomes(d, Indeterminate, {}, {}, {Ascii("INVALID_EVALUATION_VALUE")})
    ensures PolicyJsonOk(snapshot) && PolicyJsonOk(inputValue) && (ParseInput(p, inputValue).None? || !snapshot.ObjValue?) ==>
      Outcomes(d, Indeterminate, {}, {}, {Ascii("INVALID_EVALUATION_INPUT")})
    ensures PolicyJsonOk(snapshot) && PolicyJsonOk(inputValue) && ParseInput(p, inputValue).Some? && snapshot.ObjValue?
            && CheckSnapshot(p, snapshot, ParseInput(p, inputValue).value.policySnapshotId).None? ==>
      Outcomes(d, Indeterminate, {}, {}, {Ascii("INVALID_POLICY_SNAPSHOT")})
  {
    hide PolicyJsonOk, ParseInput, CheckSnapshot, Decides;
    NoneListed();
    OneListed(INVALID_EVALUATION_VALUE);
    OneListed(INVALID_EVALUATION_INPUT);
    OneListed(INVALID_POLICY_SNAPSHOT);
  }

  /** A text field of an object, if it has the form. */
  function FormOr(v: Value, name: string, form: Text -> bool, otherwise: Text): Text {
    match Field(v, name)
    case Some(StrValue(s)) => if form(s) then s else otherwise
    case _ => otherwise
  }

  /** What a decision says it is about: the ids, hash and time of its arguments where they have their forms, and
      fixed values where they do not. */
  lemma HeadersAreTold(p: Patterns, snapshot: Value, inputValue: Value, h: Header)
    requires Names(p, snapshot, inputValue, h) && PolicyJsonOk(snapshot) && PolicyJsonOk(inputValue)
    ensures h.decisionId == FormOr(inputValue, "evaluationId", p.uuidV7, Ascii("00000000-0000-7000-8000-000000000000"))
    ensures h.evaluatedAt == FormOr(inputValue, "capturedAt", p.dateTime, Ascii("1970-01-01T00:00:00.000Z"))
    ensures h.policySnapshotId == FormOr(snapshot, "snapshotId", p.uuidV7, Ascii("00000000-0000-7000-8000-000000000000"))
    ensures h.policySnapshotHash ==
      FormOr(snapshot, "policyHash", p.hex64, Ascii("0000000000000000000000000000000000000000000000000000000000000000"))
    ensures h.inputHash == p.sha256(inputValue)
  {
  }

  /** And what it says where one of them is not policy JSON at all. */
  lemma UnreadableHeader(p: Patterns, snapshot: Value, inputValue: Value, h: Header)
    requires Names(p, snapshot, inputValue, h) && !(PolicyJsonOk(snapshot) && PolicyJsonOk(inputValue))
    ensures h == Header(
      Ascii("00000000-0000-7000-8000-000000000000"),
      Ascii("00000000-0000-7000-8000-000000000000"),
      Ascii("0000000000000000000000000000000000000000000000000000000000000000"),
      p.sha256(ObjValue(map[Ascii("invalidInput") := BoolValue(true)])),
      Ascii("1970-01-01T00:00:00.000Z"))
  {
  }
}
