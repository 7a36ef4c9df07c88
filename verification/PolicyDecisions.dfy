/** `evaluatePolicy` and its merge. */
module PolicyDecisions {
  // The requirements merge and the rule loop, against a specification without order, and what adding a
  // rule can do to a decision.
  import opened CodeUnits
  import opened CanonicalJson
  import opened CanonicalMeaning
  import opened TextOrder
  import opened Policy
  import opened PolicyCompiler
  import opened PolicyNormalForm
  import opened PolicySnapshots
  import opened PolicyEvaluator

  // ---------------------------------------------------------------- the order of requirements

  function ScopeSet(q: Requirements): set<Text> {
    if q.permissionScopes.Some? then set x | x in q.permissionScopes.value else {}
  }

  predicate LevelAtLeast(a: Option<IsolationLevel>, b: Option<IsolationLevel>) {
    a.None? || a == b || (a.value == ProcessRestricted && b.Some?)
  }

  predicate LimitAtLeast(a: Option<Positive>, b: Option<Positive>) {
    a.Some? ==> b.Some? && b.value <= a.value
  }

  predicate PostRequired(q: Requirements) { q.postVerificationRequired.Some? && q.postVerificationRequired.value }

  /** Whoever meets `b` meets `a`. */
  predicate AtLeast(a: Requirements, b: Requirements) {
    && ScopeSet(a) <= ScopeSet(b)
    && LevelAtLeast(a.minimumIsolationLevel, b.minimumIsolationLevel)
    && LimitAtLeast(a.timeoutMs, b.timeoutMs)
    && LimitAtLeast(a.maxConcurrency, b.maxConcurrency)
    && (PostRequired(a) ==> PostRequired(b))
  }

  predicate Above(a: Option<IsolationLevel>) { a.Some? && a.value != ProcessRestricted }

  /** Two different levels above PROCESS_RESTRICTED. */
  predicate Clash(a: Requirements, b: Requirements) {
    Above(a.minimumIsolationLevel) && Above(b.minimumIsolationLevel) && a.minimumIsolationLevel != b.minimumIsolationLevel
  }

  ghost predicate Conflicting(qs: set<Requirements>) {
    exists a, b :: a in qs && b in qs && Clash(a, b)
  }

  ghost predicate UpperBound(u: Requirements, qs: set<Requirements>) {
    forall q :: q in qs ==> AtLeast(q, u)
  }

  /** Nothing is said that says nothing. */
  predicate Tidy(q: Requirements) {
    && (q.permissionScopes.Some? ==> q.permissionScopes.value != [] && Ascending(q.permissionScopes.value))
    && (q.postVerificationRequired.Some? ==> q.postVerificationRequired.value)
  }

  /** The least common strengthening. */
  ghost predicate Merges(m: Requirements, qs: set<Requirements>) {
    Tidy(m) && UpperBound(m, qs) && forall u :: UpperBound(u, qs) ==> AtLeast(m, u)
  }

  lemma BoundExcludesConflict(qs: set<Requirements>, u: Requirements)
    requires UpperBound(u, qs)
    ensures !Conflicting(qs)
  {
    forall a, b | a in qs && b in qs
      ensures !Clash(a, b)
    {
      assert AtLeast(a, u) && AtLeast(b, u);
    }
  }

  /** All texts of a set, in some order. */
  lemma {:induction false} Listed(texts: set<Text>) returns (s: seq<Text>)
    ensures forall x :: x in s <==> x in texts
  {
    s := [];
    if texts != {} {
      var first :| first in texts;
      var others := Listed(texts - {first});
      s := [first] + others;
    }
  }

  /** A level at least as high as all of some requirements that do not conflict. */
  lemma CommonLevel(qs: set<Requirements>) returns (level: Option<IsolationLevel>)
    requires !Conflicting(qs)
    ensures forall q :: q in qs ==> LevelAtLeast(q.minimumIsolationLevel, level)
  {
    level := Some(ProcessRestricted);
    if q :| q in qs && Above(q.minimumIsolationLevel) {
      level := q.minimumIsolationLevel;
      forall r | r in qs
        ensures LevelAtLeast(r.minimumIsolationLevel, level)
      {
        assert !Clash(q, r);
      }
    }
  }

  /** Requirements conflict exactly when nothing strengthens them all. */
  lemma ConflictMeansNoBound(qs: set<Requirements>)
    ensures Conflicting(qs) <==> !exists u :: UpperBound(u, qs)
  {
    if u :| UpperBound(u, qs) {
      BoundExcludesConflict(qs, u);
    }
    if !Conflicting(qs) {
      var scopes := Listed(set q, x | q in qs && x in ScopeSet(q) :: x);
      var level := CommonLevel(qs);
      var u := Requirements(Some(scopes), level, Some(1), Some(1), Some(true));
      forall q | q in qs
        ensures AtLeast(q, u)
      {
        assert forall x :: x in ScopeSet(q) ==> x in scopes;
      }
      assert UpperBound(u, qs);
    }
  }

  lemma ScopesTold(q: Requirements)
    requires Tidy(q)
    ensures q.permissionScopes.Some? <==> ScopeSet(q) != {}
  {
    if q.permissionScopes.Some? {
      assert q.permissionScopes.value[0] in ScopeSet(q);
    }
  }

  lemma TidyIsOne(a: Requirements, b: Requirements)
    requires Tidy(a) && Tidy(b) && AtLeast(a, b) && AtLeast(b, a)
    ensures a == b
  {
    ScopesTold(a);
    ScopesTold(b);
    if a.permissionScopes.Some? {
      ListsOneWay(a.permissionScopes.value, b.permissionScopes.value, ScopeSet(a));
    }
    assert a.permissionScopes == b.permissionScopes && a.minimumIsolationLevel == b.minimumIsolationLevel;
    assert a.timeoutMs == b.timeoutMs && a.maxConcurrency == b.maxConcurrency;
    assert a.postVerificationRequired == b.postVerificationRequired;
  }

  /** A list of requirements has one merge at most. */
  lemma MergesOnce(a: Requirements, b: Requirements, qs: set<Requirements>)
    requires Merges(a, qs) && Merges(b, qs)
    ensures a == b
  {
    TidyIsOne(a, b);
  }

  // ---------------------------------------------------------------- the merge

  /** The smallest limit of the first requirements. */
  predicate Least(limits: seq<Option<Positive>>, m: Option<Positive>) {
    && (forall i :: 0 <= i < |limits| ==> LimitAtLeast(limits[i], m))
    && (m.Some? ==> m in limits)
  }

  predicate Highest(levels: seq<Option<IsolationLevel>>, m: Option<IsolationLevel>) {
    && (forall i :: 0 <= i < |levels| ==> LevelAtLeast(levels[i], m))
    && (m.Some? ==> m in levels)
  }

  function Levels(rs: seq<Requirements>): seq<Option<IsolationLevel>> {
    seq(|rs|, i requires 0 <= i < |rs| => rs[i].minimumIsolationLevel)
  }

  function Timeouts(rs: seq<Requirements>): seq<Option<Positive>> {
    seq(|rs|, i requires 0 <= i < |rs| => rs[i].timeoutMs)
  }

  function Concurrencies(rs: seq<Requirements>): seq<Option<Positive>> {
    seq(|rs|, i requires 0 <= i < |rs| => rs[i].maxConcurrency)
  }

  predicate Gathered(rs: seq<Requirements>, scopes: seq<Text>) {
    && Distinct(scopes)
    && (forall i :: 0 <= i < |rs| ==> ScopeSet(rs[i]) <= set x | x in scopes)
    && (forall x :: x in scopes ==> exists i :: 0 <= i < |rs| && x in ScopeSet(rs[i]))
  }

  predicate AnyPost(rs: seq<Requirements>) { exists i :: 0 <= i < |rs| && PostRequired(rs[i]) }

  /** Adds the scopes of one more requirement to a JavaScript set, which keeps insertion order. */
  method AddScopes(rs: seq<Requirements>, n: nat, sofar: seq<Text>) returns (scopes: seq<Text>)
    requires n < |rs| && Gathered(rs[..n], sofar)
    ensures Gathered(rs[..n + 1], scopes)
  {
    scopes := sofar;
    var more := if rs[n].permissionScopes.Some? then rs[n].permissionScopes.value else [];
    assert rs[..n + 1] == rs[..n] + [rs[n]];
    var i := 0;
    while i < |more|
      invariant 0 <= i <= |more| && Distinct(scopes)
      invariant forall x :: x in scopes <==> x in sofar || x in more[..i]
    {
      if more[i] !in scopes {
        scopes := scopes + [more[i]];
      }
      assert more[..i + 1] == more[..i] + [more[i]];
      i := i + 1;
    }
    assert more[..i] == more;
    ghost var all := rs[..n + 1];
    forall k | 0 <= k < |all|
      ensures ScopeSet(all[k]) <= set x | x in scopes
    {
      if k < n {
        assert all[k] == rs[..n][k];
      }
    }
    forall x | x in scopes
      ensures exists k :: 0 <= k < |all| && x in ScopeSet(all[k])
    {
      if x in sofar {
        var k :| 0 <= k < |rs[..n]| && x in ScopeSet(rs[..n][k]);
        assert x in ScopeSet(all[k]);
      } else {
        assert x in ScopeSet(all[n]);
      }
    }
  }

  function Smaller(a: Option<Positive>, b: Option<Positive>): Option<Positive> {
    if b.None? then a else if a.None? then b else if a.value <= b.value then a else b
  }

  lemma LeastExtends(limits: seq<Option<Positive>>, m: Option<Positive>, next: Option<Positive>)
    requires Least(limits, m)
    ensures Least(limits + [next], Smaller(m, next))
  {
    var all := limits + [next];
    assert all[|limits|] == next;
    forall i | 0 <= i < |all|
      ensures LimitAtLeast(all[i], Smaller(m, next))
    {
      if i < |limits| {
        assert LimitAtLeast(limits[i], m);
      }
    }
  }

  lemma HighestExtends(levels: seq<Option<IsolationLevel>>, m: Option<IsolationLevel>, next: Option<IsolationLevel>, raised: Option<IsolationLevel>)
    requires Highest(levels, m)
    requires raised == if next.None? then m else if m.None? || m.value == ProcessRestricted then next else m
    requires LevelAtLeast(next, raised)
    ensures Highest(levels + [next], raised)
  {
    var all := levels + [next];
    assert all[|levels|] == next;
    forall i | 0 <= i < |all|
      ensures LevelAtLeast(all[i], raised)
    {
      if i < |levels| {
        assert LevelAtLeast(levels[i], m);
      }
    }
  }

  /** `mergeRequirements`: the least common strengthening of all, or failure when two different levels
      above PROCESS_RESTRICTED meet. */
  method MergeRequirements(rs: seq<Requirements>) returns (merged: Option<Requirements>)
    ensures merged.None? <==> Conflicting(set q | q in rs)
    ensures merged.Some? ==> Merges(merged.value, set q | q in rs)
  {
    var permissionScopes: seq<Text> := [];
    var isolation: Option<IsolationLevel>, timeoutMs: Option<Positive>, maxConcurrency: Option<Positive> := None, None, None;
    var postVerificationRequired := false;
    var n := 0;
    while n < |rs|
      invariant 0 <= n <= |rs|
      invariant Gathered(rs[..n], permissionScopes)
      invariant Highest(Levels(rs[..n]), isolation)
      invariant Least(Timeouts(rs[..n]), timeoutMs) && Least(Concurrencies(rs[..n]), maxConcurrency)
      invariant postVerificationRequired <==> AnyPost(rs[..n])
    {
      var requirement := rs[n];
      Extended(rs, n);
      permissionScopes := AddScopes(rs, n, permissionScopes);
      var candidate := requirement.minimumIsolationLevel;
      if candidate.Some? && !(isolation.None? || isolation.value == ProcessRestricted)
         && candidate.value != ProcessRestricted && candidate != isolation {
        ClashFound(rs, n, isolation);
        return None;
      }
      ghost var was := isolation;
      if candidate.Some? && (isolation.None? || isolation.value == ProcessRestricted) {
        isolation := candidate;
      }
      HighestExtends(Levels(rs[..n]), was, candidate, isolation);
      LeastExtends(Timeouts(rs[..n]), timeoutMs, requirement.timeoutMs);
      LeastExtends(Concurrencies(rs[..n]), maxConcurrency, requirement.maxConcurrency);
      timeoutMs := Smaller(timeoutMs, requirement.timeoutMs);
      maxConcurrency := Smaller(maxConcurrency, requirement.maxConcurrency);
      postVerificationRequired := postVerificationRequired || PostRequired(requirement);
      n := n + 1;
    }
    assert rs[..n] == rs;
    merged := Some(Requirements(
      if |permissionScopes| > 0 then Some(SortTexts(permissionScopes)) else None,
      isolation, timeoutMs, maxConcurrency,
      if postVerificationRequired then Some(true) else None));
    SortTextsLists(permissionScopes);
    PartsMerge(rs, merged.value, permissionScopes);
  }

  lemma Extended(rs: seq<Requirements>, n: nat)
    requires n < |rs|
    ensures Levels(rs[..n + 1]) == Levels(rs[..n]) + [rs[n].minimumIsolationLevel]
    ensures Timeouts(rs[..n + 1]) == Timeouts(rs[..n]) + [rs[n].timeoutMs]
    ensures Concurrencies(rs[..n + 1]) == Concurrencies(rs[..n]) + [rs[n].maxConcurrency]
    ensures AnyPost(rs[..n + 1]) <==> AnyPost(rs[..n]) || PostRequired(rs[n])
  {
    assert rs[..n + 1] == rs[..n] + [rs[n]];
    if AnyPost(rs[..n]) {
      var i :| 0 <= i < n && PostRequired(rs[..n][i]);
      assert PostRequired(rs[..n + 1][i]);
    }
    if PostRequired(rs[n]) {
      assert PostRequired(rs[..n + 1][n]);
    }
    if AnyPost(rs[..n + 1]) {
      var i :| 0 <= i < n + 1 && PostRequired(rs[..n + 1][i]);
      assert i < n ==> PostRequired(rs[..n][i]);
    }
  }

  lemma ClashFound(rs: seq<Requirements>, n: nat, isolation: Option<IsolationLevel>)
    requires n < |rs| && Highest(Levels(rs[..n]), isolation)
    requires Above(isolation) && Above(rs[n].minimumIsolationLevel) && rs[n].minimumIsolationLevel != isolation
    ensures Conflicting(set q | q in rs)
  {
    var i :| 0 <= i < n && Levels(rs[..n])[i] == isolation;
    assert rs[i] in rs && rs[n] in rs && Clash(rs[i], rs[n]);
  }

  lemma PartsMerge(rs: seq<Requirements>, m: Requirements, scopes: seq<Text>)
    requires Gathered(rs, scopes) && Tidy(m)
    requires ScopeSet(m) == set x | x in scopes
    requires Highest(Levels(rs), m.minimumIsolationLevel)
    requires Least(Timeouts(rs), m.timeoutMs) && Least(Concurrencies(rs), m.maxConcurrency)
    requires PostRequired(m) <==> AnyPost(rs)
    ensures Merges(m, set q | q in rs) && !Conflicting(set q | q in rs)
  {
    var qs := set q | q in rs;
    forall q | q in qs
      ensures AtLeast(q, m)
    {
      var i :| 0 <= i < |rs| && rs[i] == q;
      assert LevelAtLeast(Levels(rs)[i], m.minimumIsolationLevel);
      assert LimitAtLeast(Timeouts(rs)[i], m.timeoutMs) && LimitAtLeast(Concurrencies(rs)[i], m.maxConcurrency);
      assert PostRequired(rs[i]) ==> AnyPost(rs);
    }
    forall u | UpperBound(u, qs)
      ensures AtLeast(m, u)
    {
      LeastBound(rs, m, scopes, u);
    }
    BoundExcludesConflict(qs, m);
  }

  lemma LeastBound(rs: seq<Requirements>, m: Requirements, scopes: seq<Text>, u: Requirements)
    requires Gathered(rs, scopes) && ScopeSet(m) == set x | x in scopes
    requires Highest(Levels(rs), m.minimumIsolationLevel)
    requires Least(Timeouts(rs), m.timeoutMs) && Least(Concurrencies(rs), m.maxConcurrency)
    requires PostRequired(m) <==> AnyPost(rs)
    requires UpperBound(u, set q | q in rs)
    ensures AtLeast(m, u)
  {
    forall x | x in ScopeSet(m)
      ensures x in ScopeSet(u)
    {
      var i :| 0 <= i < |rs| && x in ScopeSet(rs[i]);
      assert AtLeast(rs[i], u);
    }
    if m.minimumIsolationLevel.Some? {
      var i :| 0 <= i < |rs| && Levels(rs)[i] == m.minimumIsolationLevel;
      assert AtLeast(rs[i], u);
    }
    if m.timeoutMs.Some? {
      var i :| 0 <= i < |rs| && Timeouts(rs)[i] == m.timeoutMs;
      assert AtLeast(rs[i], u);
    }
    if m.maxConcurrency.Some? {
      var i :| 0 <= i < |rs| && Concurrencies(rs)[i] == m.maxConcurrency;
      assert AtLeast(rs[i], u);
    }
    if PostRequired(m) {
      var i :| 0 <= i < |rs| && PostRequired(rs[i]);
      assert AtLeast(rs[i], u);
    }
  }

  // ---------------------------------------------------------------- decisions

  datatype Outcome = Allowed | AllowedWithRequirements | Denied | Indeterminate

  /** The fields of a decision that evaluation determines; the rest it copies from its arguments. */
  datatype Decision = Decision(
    outcome: Outcome,
    matchedRuleIds: seq<Text>,
    hardInvariantIds: seq<Text>,
    requirements: Requirements,
    reasonCodes: seq<Text>)

  const NO_REQUIREMENTS: Requirements := Requirements(None, None, None, None, None)

  const NO_DIRECT_AUTHORITY_WRITE: Text := Ascii("NO_DIRECT_AUTHORITY_WRITE")
  const R4_REQUIRES_VERIFIED_CONTROL: Text := Ascii("R4_REQUIRES_VERIFIED_CONTROL")
  const NO_SECRET_OUTBOUND: Text := Ascii("NO_SECRET_OUTBOUND")
  const HARD_INVARIANT_VIOLATION: Text := Ascii("HARD_INVARIANT_VIOLATION")
  const CONDITION_TYPE_MISMATCH: Text := Ascii("CONDITION_TYPE_MISMATCH")
  const DEFAULT_DENY: Text := Ascii("DEFAULT_DENY")
  const REQUIREMENTS_CONFLICT: Text := Ascii("REQUIREMENTS_CONFLICT")
  const INVALID_EVALUATION_VALUE: Text := Ascii("INVALID_EVALUATION_VALUE")
  const INVALID_EVALUATION_INPUT: Text := Ascii("INVALID_EVALUATION_INPUT")
  const INVALID_POLICY_SNAPSHOT: Text := Ascii("INVALID_POLICY_SNAPSHOT")

  /** The invariants an input violates, whatever the policy. */
  function Violations(input: Input): set<Text> {
    (if input.authorityMutation then {NO_DIRECT_AUTHORITY_WRITE} else {})
    + (if input.riskClass == R4 && !input.controlVerified then {R4_REQUIRES_VERIFIED_CONTROL} else {})
    + (if input.dataClassification == Secret && input.direction == Outbound then {NO_SECRET_OUTBOUND} else {})
  }

  /** The rule is about this input. */
  predicate Applies(r: Rule, input: Input) {
    r.domain == input.domain && r.action == input.action
    && input.subjectType in r.subjectTypes && input.resourceType in r.resourceTypes
  }

  ghost predicate Undecided(r: Rule, constants: Constants, input: Input) {
    Applies(r, input) && !Decided(r.when, input, constants)
  }

  ghost predicate Matches(r: Rule, constants: Constants, input: Input) {
    Applies(r, input) && Decided(r.when, input, constants) && Truth(r.when, input, constants)
  }

  ghost function Matching(rules: set<Rule>, constants: Constants, input: Input): set<Rule> {
    set r | r in rules && Matches(r, constants, input)
  }

  ghost function Effective(rules: set<Rule>, constants: Constants, input: Input, effect: Effect): set<Rule> {
    set r | r in rules && Matches(r, constants, input) && r.ruleEffect == effect
  }

  ghost function Ids(rules: set<Rule>): set<Text> { set r | r in rules :: r.ruleId }

  ghost function Reasons(rules: set<Rule>): set<Text> { set r | r in rules :: r.reasonCode }

  ghost function Demands(rules: set<Rule>): set<Requirements> { set r | r in rules :: r.requirements }

  /** The matching rules whose ids precede those of all undecided rules. */
  ghost function BeforeUndecided(rules: set<Rule>, constants: Constants, input: Input): set<Rule> {
    set r | r in rules && Matches(r, constants, input)
            && forall u :: u in rules && Undecided(u, constants, input) ==> Less(r.ruleId, u.ruleId)
  }

  ghost predicate Is(d: Decision, outcome: Outcome, ids: set<Text>, invariants: set<Text>, requirements: Requirements, reasons: set<Text>) {
    d.outcome == outcome && Lists(d.matchedRuleIds, ids) && Lists(d.hardInvariantIds, invariants)
    && d.requirements == requirements && Lists(d.reasonCodes, reasons)
  }

  /** The decision on a set of rules.  No order of anything enters, except that of rule ids. */
  ghost predicate Decides(d: Decision, rules: set<Rule>, constants: Constants, input: Input) {
    var denying, allowing := Effective(rules, constants, input, Deny), Effective(rules, constants, input, Allow);
    if Violations(input) != {} then
      Is(d, Denied, {}, Violations(input), NO_REQUIREMENTS, {HARD_INVARIANT_VIOLATION})
    else if exists r :: r in rules && Undecided(r, constants, input) then
      Is(d, Indeterminate, Ids(BeforeUndecided(rules, constants, input)), {}, NO_REQUIREMENTS, {CONDITION_TYPE_MISMATCH})
    else if denying != {} then
      Is(d, Denied, Ids(Matching(rules, constants, input)), {}, NO_REQUIREMENTS, Reasons(denying))
    else if allowing == {} then
      Is(d, Denied, {}, {}, NO_REQUIREMENTS, {DEFAULT_DENY})
    else if Conflicting(Demands(allowing)) then
      Is(d, Indeterminate, Ids(allowing), {}, NO_REQUIREMENTS, {REQUIREMENTS_CONFLICT})
    else
      Merges(d.requirements, Demands(allowing))
      && Is(d, if d.requirements == NO_REQUIREMENTS then Allowed else AllowedWithRequirements,
            Ids(allowing), {}, d.requirements, {})
  }

  /** The specification leaves nothing open. */
  lemma DecidesOnce(d: Decision, e: Decision, rules: set<Rule>, constants: Constants, input: Input)
    requires Decides(d, rules, constants, input) && Decides(e, rules, constants, input)
    ensures d == e
  {
    var allowing := Effective(rules, constants, input, Allow);
    if Merges(d.requirements, Demands(allowing)) && Merges(e.requirements, Demands(allowing)) {
      MergesOnce(d.requirements, e.requirements, Demands(allowing));
    }
    SameLists(d.matchedRuleIds, e.matchedRuleIds);
    SameLists(d.hardInvariantIds, e.hardInvariantIds);
    SameLists(d.reasonCodes, e.reasonCodes);
  }

  lemma SameLists(s: seq<Text>, t: seq<Text>)
    ensures Ascending(s) && Ascending(t) && (set x | x in s) == (set x | x in t) ==> s == t
  {
    if Ascending(s) && Ascending(t) && (set x | x in s) == (set x | x in t) {
      ListsOneWay(s, t, set x | x in s);
    }
  }

  predicate Allows(d: Decision) { d.outcome == Allowed || d.outcome == AllowedWithRequirements }

  /** No invariant is violated, nothing is undecided, nobody denies, somebody allows, and those who allow
      do not conflict. */
  ghost predicate AllowedBy(rules: set<Rule>, constants: Constants, input: Input) {
    && Violations(input) == {}
    && (forall r :: r in rules ==> !Undecided(r, constants, input))
    && Effective(rules, constants, input, Deny) == {}
    && Effective(rules, constants, input, Allow) != {}
    && !Conflicting(Demands(Effective(rules, constants, input, Allow)))
  }

  lemma AllowsWhen(d: Decision, rules: set<Rule>, constants: Constants, input: Input)
    requires Decides(d, rules, constants, input)
    ensures Allows(d) <==> AllowedBy(rules, constants, input)
  {
  }

  // ---------------------------------------------------------------- the rule loop

  predicate InOrder(rules: seq<Rule>) {
    forall i, j :: 0 <= i < j < |rules| ==> Less(rules[i].ruleId, rules[j].ruleId)
  }

  function RuleIds(rules: seq<Rule>): (r: seq<Text>)
    ensures |r| == |rules| && forall i :: 0 <= i < |r| ==> r[i] == rules[i].ruleId
  {
    seq(|rules|, i requires 0 <= i < |rules| => rules[i].ruleId)
  }

  function ReasonCodes(rules: seq<Rule>): (r: seq<Text>)
    ensures |r| == |rules| && forall i :: 0 <= i < |r| ==> r[i] == rules[i].reasonCode
  {
    seq(|rules|, i requires 0 <= i < |rules| => rules[i].reasonCode)
  }

  function RequirementsOf(rules: seq<Rule>): (r: seq<Requirements>)
    ensures |r| == |rules| && forall i :: 0 <= i < |r| ==> r[i] == rules[i].requirements
  {
    seq(|rules|, i requires 0 <= i < |rules| => rules[i].requirements)
  }

  function WithEffect(rules: seq<Rule>, effect: Effect): (r: seq<Rule>)
    ensures forall x :: x in r <==> x in rules && x.ruleEffect == effect
    ensures InOrder(rules) ==> InOrder(r)
  {
    if rules == [] then [] else
      var init, last := rules[..|rules| - 1], rules[|rules| - 1];
      if last.ruleEffect == effect then WithEffect(init, effect) + [last] else WithEffect(init, effect)
  }

  /** `[...new Set(texts)]` */
  function Dedupe(s: seq<Text>): (r: seq<Text>)
    ensures Distinct(r) && forall x :: x in r <==> x in s
  {
    if s == [] then [] else
      var init, last := s[..|s| - 1], s[|s| - 1];
      if last in init then Dedupe(init) else Dedupe(init) + [last]
  }

  ghost function Members(rules: seq<Rule>): set<Rule> { set r | r in rules }

  lemma IdsListed(rules: seq<Rule>)
    requires InOrder(rules)
    ensures Lists(SortTexts(RuleIds(rules)), Ids(Members(rules)))
  {
    var ids := RuleIds(rules);
    forall i, j | 0 <= i < j < |ids|
      ensures ids[i] != ids[j]
    {
      LessIsTotal(ids[i], ids[j]);
    }
    SortTextsLists(ids);
    forall x
      ensures x in ids <==> x in Ids(Members(rules))
    {
      if x in ids {
        var i :| 0 <= i < |ids| && ids[i] == x;
        assert rules[i] in Members(rules);
      }
      if x in Ids(Members(rules)) {
        var r :| r in Members(rules) && r.ruleId == x;
        var i :| 0 <= i < |rules| && rules[i] == r;
        assert ids[i] == x;
      }
    }
  }

  lemma ReasonsListed(rules: seq<Rule>)
    ensures Lists(SortTexts(Dedupe(ReasonCodes(rules))), Reasons(Members(rules)))
  {
    var codes := ReasonCodes(rules);
    SortTextsLists(Dedupe(codes));
    forall x
      ensures x in codes <==> x in Reasons(Members(rules))
    {
      if x in codes {
        var i :| 0 <= i < |codes| && codes[i] == x;
        assert rules[i] in Members(rules);
      }
      if x in Reasons(Members(rules)) {
        var r :| r in Members(rules) && r.reasonCode == x;
        var i :| 0 <= i < |rules| && rules[i] == r;
        assert codes[i] == x;
      }
    }
  }

  lemma DemandsListed(rules: seq<Rule>)
    ensures (set q | q in RequirementsOf(rules)) == Demands(Members(rules))
  {
    var qs := RequirementsOf(rules);
    forall x
      ensures x in qs <==> x in Demands(Members(rules))
    {
      if x in qs {
        var i :| 0 <= i < |qs| && qs[i] == x;
        assert rules[i] in Members(rules);
      }
      if x in Demands(Members(rules)) {
        var r :| r in Members(rules) && r.requirements == x;
        var i :| 0 <= i < |rules| && rules[i] == r;
        assert qs[i] == x;
      }
    }
  }

  lemma NoneListed()
    ensures Lists([], {})
  {
    assert (set x: Text | x in []) == {};
  }

  lemma OneListed(x: Text)
    ensures Lists([x], {x})
  {
  }

  /** `hardInvariantViolations` */
  method HardInvariantViolations(input: Input) returns (violations: seq<Text>)
    ensures Lists(violations, Violations(input))
    ensures violations == [] <==> Violations(input) == {}
  {
    var found: seq<Text> := [];
    if input.authorityMutation {
      found := found + [NO_DIRECT_AUTHORITY_WRITE];
    }
    if input.riskClass == R4 && !input.controlVerified {
      found := found + [R4_REQUIRES_VERIFIED_CONTROL];
    }
    if input.dataClassification == Secret && input.direction == Outbound {
      found := found + [NO_SECRET_OUTBOUND];
    }
    assert |NO_DIRECT_AUTHORITY_WRITE| == 25 && |R4_REQUIRES_VERIFIED_CONTROL| == 28 && |NO_SECRET_OUTBOUND| == 18;
    assert (set x | x in found) == Violations(input);
    SortTextsLists(found);
    violations := SortTexts(found);
  }

  /** What the loop has established about the rules before the next one. */
  ghost predicate Scanned(before: seq<Rule>, matched: seq<Rule>, constants: Constants, input: Input) {
    && InOrder(matched)
    && (forall r :: r in before ==> !Undecided(r, constants, input))
    && (forall r :: r in matched <==> r in before && Matches(r, constants, input))
  }

  lemma ScannedMore(rules: seq<Rule>, n: nat, matched: seq<Rule>, more: seq<Rule>, constants: Constants, input: Input)
    requires InOrder(rules) && n < |rules| && Scanned(rules[..n], matched, constants, input)
    requires !Undecided(rules[n], constants, input)
    requires more == if Matches(rules[n], constants, input) then matched + [rules[n]] else matched
    ensures Scanned(rules[..n + 1], more, constants, input)
  {
    assert rules[..n + 1] == rules[..n] + [rules[n]];
    forall i | 0 <= i < |matched|
      ensures Less(matched[i].ruleId, rules[n].ruleId)
    {
      assert matched[i] in matched;
      var k :| 0 <= k < n && rules[..n][k] == matched[i];
    }
  }

  lemma StoppedAt(rules: seq<Rule>, n: nat, matched: seq<Rule>, constants: Constants, input: Input)
    requires InOrder(rules) && n < |rules| && Scanned(rules[..n], matched, constants, input)
    requires Undecided(rules[n], constants, input)
    ensures Members(matched) == BeforeUndecided(Members(rules), constants, input)
    ensures rules[n] in Members(rules)
  {
    assert rules[n] in Members(rules);
    forall r
      ensures r in Members(matched) <==> r in BeforeUndecided(Members(rules), constants, input)
    {
      if r in BeforeUndecided(Members(rules), constants, input) {
        var k :| 0 <= k < |rules| && rules[k] == r;
        LessIsTotal(r.ruleId, rules[n].ruleId);
        assert k < n && rules[..n][k] == r;
      }
      if r in matched {
        var k :| 0 <= k < n && rules[..n][k] == r;
        PrecedesUndecided(rules, n, k, matched, constants, input);
      }
    }
  }

  lemma PrecedesUndecided(rules: seq<Rule>, n: nat, k: nat, matched: seq<Rule>, constants: Constants, input: Input)
    requires InOrder(rules) && k < n <= |rules| && Scanned(rules[..n], matched, constants, input)
    ensures forall u :: u in rules && Undecided(u, constants, input) ==> Less(rules[k].ruleId, u.ruleId)
  {
    forall i | 0 <= i < n
      ensures !Undecided(rules[i], constants, input)
    {
      assert rules[..n][i] in rules[..n];
    }
    forall u | u in rules && Undecided(u, constants, input)
      ensures Less(rules[k].ruleId, u.ruleId)
    {
      var l :| 0 <= l < |rules| && rules[l] == u;
    }
  }

  /** The part of `evaluatePolicy` that looks at rules. */
  method EvaluateRules(policy: PolicySet, input: Input) returns (d: Decision)
    requires InOrder(policy.rules)
    ensures Decides(d, Members(policy.rules), policy.constants, input)
    ensures Allows(d) <==> AllowedBy(Members(policy.rules), policy.constants, input)
  {
    d := DecideRules(policy, input);
    AllowsWhen(d, Members(policy.rules), policy.constants, input);
  }

  method DecideRules(policy: PolicySet, input: Input) returns (d: Decision)
    requires InOrder(policy.rules)
    ensures Decides(d, Members(policy.rules), policy.constants, input)
  {
    NoneListed();
    var rules, constants := policy.rules, policy.constants;
    var invariantIds := HardInvariantViolations(input);
    if |invariantIds| > 0 {
      OneListed(HARD_INVARIANT_VIOLATION);
      return Decision(Denied, [], invariantIds, NO_REQUIREMENTS, [HARD_INVARIANT_VIOLATION]);
    }
    var matched: seq<Rule> := [];
    var n := 0;
    while n < |rules|
      invariant 0 <= n <= |rules|
      invariant Scanned(rules[..n], matched, constants, input)
    {
      var rule := rules[n];
      ghost var was := matched;
      if Applies(rule, input) {
        EvaluateIsThreeValued(rule.when, input, constants);
        var result := Evaluate(rule.when, input, constants);
        if !result.ok {
          StoppedAt(rules, n, matched, constants, input);
          IdsListed(matched);
          OneListed(CONDITION_TYPE_MISMATCH);
          return Decision(Indeterminate, SortTexts(RuleIds(matched)), [], NO_REQUIREMENTS, [CONDITION_TYPE_MISMATCH]);
        }
        if result.matched {
          matched := matched + [rule];
        }
      }
      ScannedMore(rules, n, was, matched, constants, input);
      n := n + 1;
    }
    assert rules[..n] == rules;
    d := Conclude(matched, rules, constants, input);
  }

  /** The outcome once all rules are decided. */
  method Conclude(matched: seq<Rule>, rules: seq<Rule>, constants: Constants, input: Input) returns (d: Decision)
    requires Scanned(rules, matched, constants, input) && Violations(input) == {}
    ensures Decides(d, Members(rules), constants, input)
  {
    NoneListed();
    assert Members(matched) == Matching(Members(rules), constants, input);
    var denied := WithEffect(matched, Deny);
    assert Members(denied) == Effective(Members(rules), constants, input, Deny);
    if |denied| > 0 {
      assert denied[0] in Members(denied);
      IdsListed(matched);
      ReasonsListed(denied);
      return Decision(Denied, SortTexts(RuleIds(matched)), [], NO_REQUIREMENTS, SortTexts(Dedupe(ReasonCodes(denied))));
    }
    var allowed := WithEffect(matched, Allow);
    assert Members(allowed) == Effective(Members(rules), constants, input, Allow);
    if |allowed| == 0 {
      OneListed(DEFAULT_DENY);
      return Decision(Denied, [], [], NO_REQUIREMENTS, [DEFAULT_DENY]);
    }
    assert allowed[0] in Members(allowed);
    IdsListed(allowed);
    DemandsListed(allowed);
    var merged := MergeRequirements(RequirementsOf(allowed));
    if merged.None? {
      OneListed(REQUIREMENTS_CONFLICT);
      return Decision(Indeterminate, SortTexts(RuleIds(allowed)), [], NO_REQUIREMENTS, [REQUIREMENTS_CONFLICT]);
    }
    BoundExcludesConflict(Demands(Members(allowed)), merged.value);
    d := Decision(if merged.value == NO_REQUIREMENTS then Allowed else AllowedWithRequirements,
                  SortTexts(RuleIds(allowed)), [], merged.value, []);
  }

  // ---------------------------------------------------------------- adding rules

  /** Adding a DENY rule never turns an outcome that does not allow into one that does, and an allow
      that survives it is the same decision. */
  lemma AddingDeny(d: Decision, e: Decision, rules: set<Rule>, rule: Rule, constants: Constants, input: Input)
    requires Decides(d, rules, constants, input) && Decides(e, rules + {rule}, constants, input)
    requires rule.ruleEffect == Deny && Allows(e)
    ensures d == e
  {
    var more := rules + {rule};
    AllowsWhen(e, more, constants, input);
    assert rule in more && !Undecided(rule, constants, input);
    assert Matches(rule, constants, input) <==> rule in Effective(more, constants, input, Deny);
    assert Effective(more, constants, input, Deny) == Effective(rules, constants, input, Deny);
    assert Effective(more, constants, input, Allow) == Effective(rules, constants, input, Allow);
    DecidesOnce(d, e, rules, constants, input);
  }

  /** Adding an ALLOW rule to an input that is allowed leaves it allowed, on requirements at least as
      strict, unless the new rule applies and is undecided or brings a conflicting level. */
  lemma AddingAllow(d: Decision, e: Decision, rules: set<Rule>, rule: Rule, constants: Constants, input: Input)
    requires Decides(d, rules, constants, input) && Decides(e, rules + {rule}, constants, input)
    requires rule.ruleEffect == Allow && Allows(d)
    ensures Allows(e) ==> AtLeast(d.requirements, e.requirements)
    ensures Allows(e) <==> !Undecided(rule, constants, input)
                           && !Conflicting(Demands(Effective(rules + {rule}, constants, input, Allow)))
    ensures !Allows(e) ==> e.outcome == Indeterminate
  {
    var more := rules + {rule};
    AllowsWhen(d, rules, constants, input);
    AllowsWhen(e, more, constants, input);
    assert Effective(more, constants, input, Deny) == Effective(rules, constants, input, Deny);
    assert Effective(rules, constants, input, Allow) <= Effective(more, constants, input, Allow);
    assert rule in more;
    if Allows(e) {
      StricterDemands(d.requirements, e.requirements, Effective(rules, constants, input, Allow), Effective(more, constants, input, Allow));
    }
  }

  lemma StricterDemands(m: Requirements, n: Requirements, few: set<Rule>, many: set<Rule>)
    requires few <= many && Merges(m, Demands(few)) && Merges(n, Demands(many))
    ensures AtLeast(m, n)
  {
    forall q | q in Demands(few)
      ensures AtLeast(q, n)
    {
      var r :| r in few && r.requirements == q;
      assert r in many && q in Demands(many);
    }
  }

  // ---------------------------------------------------------------- the whole evaluation

  const EVALUATION_ID: Text := Ascii("evaluationId")
  const CAPTURED_AT: Text := Ascii("capturedAt")
  const POLICY_SNAPSHOT_ID: Text := Ascii("policySnapshotId")
  const SUBJECT_TYPE: Text := Ascii("subjectType")
  const RESOURCE_TYPE: Text := Ascii("resourceType")
  const RISK_CLASS: Text := Ascii("riskClass")
  const DATA_CLASSIFICATION: Text := Ascii("dataClassification")
  const DIRECTION: Text := Ascii("direction")
  const AUTHORITY_MUTATION: Text := Ascii("authorityMutation")
  const CONTROL_VERIFIED: Text := Ascii("controlVerified")
  const CAPABILITY_IDS: Text := Ascii("capabilityIds")

  const INPUT_KEYS: set<Text> := {
    SCHEMA_VERSION, EVALUATION_ID, CAPTURED_AT, POLICY_SNAPSHOT_ID, DOMAIN, SUBJECT_TYPE, ACTION, RESOURCE_TYPE, RISK_CLASS,
    DATA_CLASSIFICATION, DIRECTION, AUTHORITY_MUTATION, CONTROL_VERIFIED, PERMISSION_SCOPES, CAPABILITY_IDS}

  function ParseRisk(t: Text): Option<RiskClass> {
    if t == RiskName(R0) then Some(R0)
    else if t == RiskName(R1) then Some(R1)
    else if t == RiskName(R2) then Some(R2)
    else if t == RiskName(R3) then Some(R3)
    else if t == RiskName(R4) then Some(R4)
    else None
  }

  function ParseClassification(t: Text): Option<Classification> {
    if t == ClassificationName(Public) then Some(Public)
    else if t == ClassificationName(Internal) then Some(Internal)
    else if t == ClassificationName(Confidential) then Some(Confidential)
    else if t == ClassificationName(Secret) then Some(Secret)
    else None
  }

  function ParseDirection(t: Text): Option<Direction> {
    if t == DirectionName(Local) then Some(Local)
    else if t == DirectionName(Inbound) then Some(Inbound)
    else if t == DirectionName(Outbound) then Some(Outbound)
    else None
  }

  predicate InputFieldsOk(p: Patterns, f: map<Text, Value>) {
    && f.Keys == INPUT_KEYS
    && f[SCHEMA_VERSION] == StrValue(VERSION_ONE)
    && IsString(f[EVALUATION_ID]) && p.uuidV7(f[EVALUATION_ID].s)
    && IsString(f[CAPTURED_AT]) && p.dateTime(f[CAPTURED_AT].s)
    && IsString(f[POLICY_SNAPSHOT_ID]) && p.uuidV7(f[POLICY_SNAPSHOT_ID].s)
    && HasText(f, DOMAIN, 1, 64) && HasText(f, SUBJECT_TYPE, 1, 128)
    && HasText(f, ACTION, 1, 128) && HasText(f, RESOURCE_TYPE, 1, 128)
    && IsString(f[RISK_CLASS]) && ParseRisk(f[RISK_CLASS].s).Some?
    && IsString(f[DATA_CLASSIFICATION]) && ParseClassification(f[DATA_CLASSIFICATION].s).Some?
    && IsString(f[DIRECTION]) && ParseDirection(f[DIRECTION].s).Some?
    && f[AUTHORITY_MUTATION].BoolValue? && f[CONTROL_VERIFIED].BoolValue?
    && IsTexts(f[PERMISSION_SCOPES]) && IsTexts(f[CAPABILITY_IDS])
  }

  function TextsOf(v: Value): (r: seq<Text>)
    requires IsTexts(v)
    ensures Texts(r) == v
  {
    var r := seq(|v.items|, i requires 0 <= i < |v.items| => v.items[i].s);
    assert Texts(r).items == v.items;
    r
  }

  /** `validateInput` */
  function ParseInput(p: Patterns, v: Value): Option<Input> {
    if !v.ObjValue? || !InputFieldsOk(p, v.fields) then None else
      var f := v.fields;
      Some(Input(
        f[POLICY_SNAPSHOT_ID].s, f[DOMAIN].s, f[SUBJECT_TYPE].s, f[ACTION].s, f[RESOURCE_TYPE].s,
        ParseRisk(f[RISK_CLASS].s).value, ParseClassification(f[DATA_CLASSIFICATION].s).value,
        ParseDirection(f[DIRECTION].s).value, f[AUTHORITY_MUTATION].b, f[CONTROL_VERIFIED].b,
        TextsOf(f[PERMISSION_SCOPES]), TextsOf(f[CAPABILITY_IDS])))
  }

  function Refused(reason: Text): Decision { Decision(Indeterminate, [], [], NO_REQUIREMENTS, [reason]) }

  // ---------------------------------------------------------------- what a decision is about

  const FALLBACK_ID: Text := Ascii("00000000-0000-7000-8000-000000000000")
  const FALLBACK_TIME: Text := Ascii("1970-01-01T00:00:00.000Z")
  const NO_HASH: Text := Ascii("0000000000000000000000000000000000000000000000000000000000000000")
  const INVALID_INPUT: Value := ObjValue(map[Ascii("invalidInput") := BoolValue(true)])

  /** What a decision says it is about. */
  datatype Header = Header(
    decisionId: Text, policySnapshotId: Text, policySnapshotHash: Text, inputHash: Text, evaluatedAt: Text)

  datatype Record = Record(decision: Decision, header: Header)

  function Kept(f: map<Text, Value>, key: Text, ok: Text -> bool, fallback: Text): Text {
    if key in f && IsString(f[key]) && ok(f[key].s) then f[key].s else fallback
  }

  /** `createDecision` */
  function CreateDecision(p: Patterns, snapshot: map<Text, Value>, input: map<Text, Value>, d: Decision, inputHash: Text): Record {
    Record(d, Header(
      Kept(input, EVALUATION_ID, p.uuidV7, FALLBACK_ID),
      Kept(snapshot, SNAPSHOT_ID, p.uuidV7, FALLBACK_ID),
      Kept(snapshot, POLICY_HASH, p.hex64, NO_HASH),
      inputHash,
      Kept(input, CAPTURED_AT, p.dateTime, FALLBACK_TIME)))
  }

  function FieldsOf(v: Value): map<Text, Value> { if v.ObjValue? then v.fields else map[] }

  /** The header is about exactly the two arguments, as far as they are well formed. */
  predicate Names(p: Patterns, snapshot: Value, inputValue: Value, h: Header) {
    if !PolicyJsonOk(snapshot) || !PolicyJsonOk(inputValue) then
      h == Header(FALLBACK_ID, FALLBACK_ID, NO_HASH, p.sha256(INVALID_INPUT), FALLBACK_TIME)
    else
      && h.inputHash == p.sha256(inputValue)
      && h.decisionId == Kept(FieldsOf(inputValue), EVALUATION_ID, p.uuidV7, FALLBACK_ID)
      && h.evaluatedAt == Kept(FieldsOf(inputValue), CAPTURED_AT, p.dateTime, FALLBACK_TIME)
      && h.policySnapshotId == Kept(FieldsOf(snapshot), SNAPSHOT_ID, p.uuidV7, FALLBACK_ID)
      && h.policySnapshotHash == Kept(FieldsOf(snapshot), POLICY_HASH, p.hex64, NO_HASH)
  }

  /** The header names the input. */
  predicate NamesInput(p: Patterns, inputValue: Value, h: Header) {
    && inputValue.ObjValue? && EVALUATION_ID in inputValue.fields && CAPTURED_AT in inputValue.fields
    && inputValue.fields[EVALUATION_ID] == StrValue(h.decisionId) && inputValue.fields[CAPTURED_AT] == StrValue(h.evaluatedAt)
    && h.inputHash == p.sha256(inputValue)
  }

  lemma InputIsNamed(p: Patterns, snapshot: Value, inputValue: Value, h: Header)
    requires Names(p, snapshot, inputValue, h) && PolicyJsonOk(snapshot) && PolicyJsonOk(inputValue)
    requires ParseInput(p, inputValue).Some?
    ensures NamesInput(p, inputValue, h)
  {
  }

  /** When the snapshot is valid, the header names it and carries the hash of the recompiled policy. */
  predicate NamesSnapshot(p: Patterns, snapshot: Value, policySnapshotId: Text, h: Header) {
    var checked := CheckSnapshot(p, snapshot, policySnapshotId);
    checked.Some? ==> h.policySnapshotId == policySnapshotId && h.policySnapshotHash == p.sha256(EncodePolicySet(checked.value))
  }

  lemma SnapshotIsNamed(p: Patterns, snapshot: Value, inputValue: Value, policySnapshotId: Text, h: Header)
    requires Names(p, snapshot, inputValue, h) && PolicyJsonOk(snapshot) && PolicyJsonOk(inputValue)
    ensures NamesSnapshot(p, snapshot, policySnapshotId, h)
  {
  }

  /** A decision on a valid input names that input and the snapshot it asked for. */
  predicate Identifies(p: Patterns, snapshot: Value, inputValue: Value, h: Header) {
    match ParseInput(p, inputValue)
    case None => true
    case Some(input) => NamesInput(p, inputValue, h) && NamesSnapshot(p, snapshot, input.policySnapshotId, h)
  }

  lemma HeaderIdentifies(p: Patterns, snapshot: Value, inputValue: Value, h: Header)
    requires Names(p, snapshot, inputValue, h) && PolicyJsonOk(snapshot) && PolicyJsonOk(inputValue)
    ensures Identifies(p, snapshot, inputValue, h)
  {
    var parsed := ParseInput(p, inputValue);
    if parsed.Some? {
      InputIsNamed(p, snapshot, inputValue, h);
      SnapshotIsNamed(p, snapshot, inputValue, parsed.value.policySnapshotId, h);
    }
  }

  /** The decision: whatever is not a valid input for a valid snapshot is indeterminate, each for its own
      reason; anything else is decided on the rules of the recompiled policy. */
  ghost predicate Answers(p: Patterns, snapshot: Value, inputValue: Value, d: Decision) {
    if !PolicyJsonOk(snapshot) || !PolicyJsonOk(inputValue) then d == Refused(INVALID_EVALUATION_VALUE)
    else if ParseInput(p, inputValue).None? || !snapshot.ObjValue? then d == Refused(INVALID_EVALUATION_INPUT)
    else AnswersInput(p, snapshot, ParseInput(p, inputValue).value, d)
  }

  ghost predicate AnswersInput(p: Patterns, snapshot: Value, input: Input, d: Decision) {
    match CheckSnapshot(p, snapshot, input.policySnapshotId)
    case None => d == Refused(INVALID_POLICY_SNAPSHOT)
    case Some(policy) => Decides(d, Members(policy.rules), policy.constants, input)
  }

  /** A valid input for a valid snapshot, whose policy allows it. */
  ghost predicate Permitted(p: Patterns, snapshot: Value, inputValue: Value) {
    PolicyJsonOk(snapshot) && PolicyJsonOk(inputValue) && snapshot.ObjValue?
    && match ParseInput(p, inputValue)
       case None => false
       case Some(input) => PermittedInput(p, snapshot, input)
  }

  ghost predicate PermittedInput(p: Patterns, snapshot: Value, input: Input) {
    match CheckSnapshot(p, snapshot, input.policySnapshotId)
    case None => false
    case Some(policy) => AllowedBy(Members(policy.rules), policy.constants, input)
  }

  lemma AllowsInputWhen(p: Patterns, snapshot: Value, input: Input, d: Decision)
    requires AnswersInput(p, snapshot, input, d)
    ensures Allows(d) <==> PermittedInput(p, snapshot, input)
  {
    var checked := CheckSnapshot(p, snapshot, input.policySnapshotId);
    if checked.Some? {
      AllowsWhen(d, Members(checked.value.rules), checked.value.constants, input);
    }
  }

  /** `evaluatePolicy` */
  method EvaluatePolicy(p: Patterns, snapshotValue: Value, inputValue: Value) returns (r: Record)
    ensures Answers(p, snapshotValue, inputValue, r.decision)
    ensures Allows(r.decision) <==> Permitted(p, snapshotValue, inputValue)
    ensures Names(p, snapshotValue, inputValue, r.header)
    ensures PolicyJsonOk(snapshotValue) && PolicyJsonOk(inputValue) ==> Identifies(p, snapshotValue, inputValue, r.header)
  {
    var inputHash := p.sha256(INVALID_INPUT);
    var snapshot: map<Text, Value>, input: map<Text, Value> := map[], map[];
    if PolicyJsonOk(snapshotValue) && PolicyJsonOk(inputValue) {
      snapshot, input, inputHash := FieldsOf(snapshotValue), FieldsOf(inputValue), p.sha256(inputValue);
    }
    var d := EvaluateValues(p, snapshotValue, inputValue);
    r := CreateDecision(p, snapshot, input, d, inputHash);
    if PolicyJsonOk(snapshotValue) && PolicyJsonOk(inputValue) {
      HeaderIdentifies(p, snapshotValue, inputValue, r.header);
    }
  }

  /** The outcome that `evaluatePolicy` passes on to `createDecision`. */
  method EvaluateValues(p: Patterns, snapshotValue: Value, inputValue: Value) returns (d: Decision)
    ensures Answers(p, snapshotValue, inputValue, d)
    ensures Allows(d) <==> Permitted(p, snapshotValue, inputValue)
  {
    if !PolicyJsonOk(snapshotValue) || !PolicyJsonOk(inputValue) {
      return Refused(INVALID_EVALUATION_VALUE);
    }
    var parsed := ParseInput(p, inputValue);
    if parsed.None? || !snapshotValue.ObjValue? {
      return Refused(INVALID_EVALUATION_INPUT);
    }
    d := EvaluateInput(p, snapshotValue, parsed.value);
  }

  /** The part of `evaluatePolicy` after the input has been validated. */
  method EvaluateInput(p: Patterns, snapshot: Value, input: Input) returns (d: Decision)
    ensures AnswersInput(p, snapshot, input, d)
    ensures Allows(d) <==> PermittedInput(p, snapshot, input)
  {
    var checked := CheckSnapshot(p, snapshot, input.policySnapshotId);
    if checked.None? {
      return Refused(INVALID_POLICY_SNAPSHOT);
    }
    CompiledInOrder(p, snapshot.fields[COMPILED_POLICY_SET]);
    d := EvaluateRules(checked.value, input);
    AllowsInputWhen(p, snapshot, input, d);
  }

  lemma CompiledInOrder(p: Patterns, v: Value)
    requires Compile(p, v).Some?
    ensures InOrder(Compile(p, v).value.rules)
  {
    CompiledIsNormal(p, v);
  }

  /** From source to decision: a snapshot made of a compiled source is decided on the rules of that
      source, and a reordered source is decided alike. */
  lemma SourceIsDecided(p: Patterns, a: Value, b: Value, m: Metadata, input: Input, d: Decision, e: Decision)
    requires SetReordered(a, b) && Compile(p, a).Some? && MetadataOk(p, m) && input.policySnapshotId == m.snapshotId
    requires p.hex64(p.sha256(EncodePolicySet(Compile(p, a).value)))
    requires Compile(p, b).Some? && AnswersInput(p, CreateSnapshot(p, Compile(p, a).value, m).value, input, d)
    requires AnswersInput(p, CreateSnapshot(p, Compile(p, b).value, m).value, input, e)
    ensures d == e && Decides(d, Members(Compile(p, a).value.rules), Compile(p, a).value.constants, input)
  {
    CompileIgnoresOrder(p, a, b);
    SnapshotsPass(p, a, m, input.policySnapshotId);
    var policy := Compile(p, a).value;
    DecidesOnce(d, e, Members(policy.rules), policy.constants, input);
  }
}
