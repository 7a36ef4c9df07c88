/** `evaluateCondition`. */
module PolicyEvaluator {
  // Against the classical meaning of conditions whose leaves are all decided.
  import opened CodeUnits
  import opened Numerals
  import opened CanonicalJson
  import opened CanonicalMeaning
  import opened Policy
  import opened PolicyCompiler
  import opened PolicyNormalForm
  import opened PolicySnapshots

  type Constants = map<Text, Value>

  // ---------------------------------------------------------------- leaves

  /** `referencedValue`, or the constant. */
  function Actual(reference: Text, input: Input, constants: Constants): Option<Value> {
    if IsConstantReference(reference) then
      if ConstantOf(reference) in constants then Some(constants[ConstantOf(reference)]) else None
    else if reference == INPUT_ACTION then Some(StrValue(input.action))
    else if reference == INPUT_DOMAIN then Some(StrValue(input.domain))
    else if reference == INPUT_SUBJECT_TYPE then Some(StrValue(input.subjectType))
    else if reference == INPUT_RESOURCE_TYPE then Some(StrValue(input.resourceType))
    else if reference == INPUT_RISK_CLASS then Some(StrValue(RiskName(input.riskClass)))
    else if reference == INPUT_DATA_CLASSIFICATION then Some(StrValue(ClassificationName(input.dataClassification)))
    else if reference == INPUT_DIRECTION then Some(StrValue(DirectionName(input.direction)))
    else if reference == INPUT_AUTHORITY_MUTATION then Some(BoolValue(input.authorityMutation))
    else if reference == INPUT_CONTROL_VERIFIED then Some(BoolValue(input.controlVerified))
    else if reference == INPUT_PERMISSION_SCOPES then Some(Texts(input.permissionScopes))
    else if reference == INPUT_CAPABILITY_IDS then Some(Texts(input.capabilityIds))
    else None
  }

  predicate IsNumber(v: Value) { v.NumValue? || v.FloatValue? }

  /** The order of numbers is that of what their numerals denote. */
  function NumberOf(v: Value): real
    requires IsNumber(v)
  {
    if v.NumValue? then v.n as real else Denoted(v.numeral)
  }

  predicate SameType(a: Value, b: Value) {
    match a
    case NullValue => b.NullValue?
    case BoolValue(_) => b.BoolValue?
    case NumValue(_) => IsNumber(b)
    case FloatValue(_) => IsNumber(b)
    case StrValue(_) => b.StrValue?
    case ArrValue(_) => b.ArrValue?
    case ObjValue(_) => b.ObjValue?
  }

  /** `includes` of the items; equal canonical text is equal value. */
  predicate Includes(items: seq<Value>, v: Option<Value>) {
    exists i :: 0 <= i < |items| && v == Some(items[i])
  }

  /** `includes` of a string. */
  predicate Within(s: Text, t: Text) {
    exists i :: 0 <= i <= |s| && t <= s[i..]
  }

  datatype Verdict = Verdict(ok: bool, matched: bool)

  const UNDECIDED: Verdict := Verdict(false, false)

  function EvaluateLeaf(op: Operator, actual: Option<Value>, expected: Option<Value>): Verdict {
    if actual.None? then UNDECIDED else
      var a := actual.value;
      match op
      case Exists => Verdict(true, true)
      case Eq => if expected.Some? && SameType(a, expected.value) then Verdict(true, a == expected.value) else UNDECIDED
      case NotEq => if expected.Some? && SameType(a, expected.value) then Verdict(true, a != expected.value) else UNDECIDED
      case In => if expected.Some? && expected.value.ArrValue? then Verdict(true, Includes(expected.value.items, actual)) else UNDECIDED
      case Contains =>
        if a.StrValue? && expected.Some? && expected.value.StrValue? then Verdict(true, Within(a.s, expected.value.s))
        else if a.ArrValue? then Verdict(true, Includes(a.items, expected)) else UNDECIDED
      case Lt => Compare(op, a, expected)
      case Lte => Compare(op, a, expected)
      case Gt => Compare(op, a, expected)
      case Gte => Compare(op, a, expected)
      case StartsWith =>
        if a.StrValue? && expected.Some? && expected.value.StrValue? then Verdict(true, expected.value.s <= a.s) else UNDECIDED
      case SetSubset =>
        if a.ArrValue? && expected.Some? && expected.value.ArrValue? then
          Verdict(true, forall i :: 0 <= i < |a.items| ==> Includes(expected.value.items, Some(a.items[i])))
        else UNDECIDED
      case SetIntersects =>
        if a.ArrValue? && expected.Some? && expected.value.ArrValue? then
          Verdict(true, exists i :: 0 <= i < |a.items| && Includes(expected.value.items, Some(a.items[i])))
        else UNDECIDED
  }

  function Compare(op: Operator, a: Value, expected: Option<Value>): Verdict {
    if !IsNumber(a) || expected.None? || !IsNumber(expected.value) then UNDECIDED
    else if op == Lt then Verdict(true, NumberOf(a) < NumberOf(expected.value))
    else if op == Lte then Verdict(true, NumberOf(a) <= NumberOf(expected.value))
    else if op == Gt then Verdict(true, NumberOf(a) > NumberOf(expected.value))
    else Verdict(true, NumberOf(a) >= NumberOf(expected.value))
  }

  // ---------------------------------------------------------------- conditions

  /** `evaluateCondition` */
  function Evaluate(c: Condition, input: Input, constants: Constants): Verdict {
    match c
    case Leaf(op, reference, operand) => EvaluateLeaf(op, Actual(reference, input, constants), operand)
    case AllOf(cs) =>
      var results := EvaluateEach(cs, input, constants);
      if exists i :: 0 <= i < |results| && !results[i].ok then UNDECIDED
      else Verdict(true, forall i :: 0 <= i < |results| ==> results[i].matched)
    case AnyOf(cs) =>
      var results := EvaluateEach(cs, input, constants);
      if exists i :: 0 <= i < |results| && !results[i].ok then UNDECIDED
      else Verdict(true, exists i :: 0 <= i < |results| && results[i].matched)
    case Not(d) =>
      var result := Evaluate(d, input, constants);
      Verdict(result.ok, result.ok && !result.matched)
  }

  function EvaluateEach(cs: seq<Condition>, input: Input, constants: Constants): (r: seq<Verdict>)
    ensures |r| == |cs| && forall i :: 0 <= i < |cs| ==> r[i] == Evaluate(cs[i], input, constants)
  {
    if cs == [] then [] else [Evaluate(cs[0], input, constants)] + EvaluateEach(cs[1..], input, constants)
  }

  /** The leaves of a condition, wherever they are. */
  function Leaves(c: Condition): set<Condition> {
    match c
    case Leaf(_, _, _) => {c}
    case AllOf(cs) => set i, l | 0 <= i < |cs| && l in Leaves(cs[i]) :: l
    case AnyOf(cs) => set i, l | 0 <= i < |cs| && l in Leaves(cs[i]) :: l
    case Not(d) => Leaves(d)
  }

  /** The types a leaf's operator is about are those it is given. */
  predicate LeafDecided(l: Condition, input: Input, constants: Constants)
    requires l.Leaf?
  {
    var actual := Actual(l.reference, input, constants);
    actual.Some? && TypesFit(l.operator, actual.value, l.operand)
  }

  predicate TypesFit(op: Operator, a: Value, expected: Option<Value>) {
    if op == Exists then true
    else if expected.None? then op == Contains && a.ArrValue?
    else
      var e := expected.value;
      match op
      case Exists => true
      case Eq => SameType(a, e)
      case NotEq => SameType(a, e)
      case In => e.ArrValue?
      case Contains => a.ArrValue? || (a.StrValue? && e.StrValue?)
      case Lt => IsNumber(a) && IsNumber(e)
      case Lte => IsNumber(a) && IsNumber(e)
      case Gt => IsNumber(a) && IsNumber(e)
      case Gte => IsNumber(a) && IsNumber(e)
      case StartsWith => a.StrValue? && e.StrValue?
      case SetSubset => a.ArrValue? && e.ArrValue?
      case SetIntersects => a.ArrValue? && e.ArrValue?
  }

  function Elements(v: Value): set<Value>
    requires v.ArrValue?
  {
    set x | x in v.items
  }

  /** What an operator says of two values of types it is about. */
  ghost predicate Relates(op: Operator, a: Value, expected: Option<Value>)
    requires TypesFit(op, a, expected)
  {
    if op == Exists then true
    else if op == Contains && expected.None? then false
    else
      var e := expected.value;
      match op
      case Exists => true
      case Eq => a == e
      case NotEq => a != e
      case In => a in Elements(e)
      case Contains => if a.ArrValue? then e in Elements(a) else exists before, after :: a.s == before + e.s + after
      case Lt => NumberOf(a) < NumberOf(e)
      case Lte => NumberOf(a) <= NumberOf(e)
      case Gt => NumberOf(a) > NumberOf(e)
      case Gte => NumberOf(a) >= NumberOf(e)
      case StartsWith => exists after :: a.s == e.s + after
      case SetSubset => Elements(a) <= Elements(e)
      case SetIntersects => Elements(a) * Elements(e) != {}
  }

  ghost predicate LeafHolds(l: Condition, input: Input, constants: Constants)
    requires l.Leaf? && LeafDecided(l, input, constants)
  {
    Relates(l.operator, Actual(l.reference, input, constants).value, l.operand)
  }

  /** A condition is decided when all its leaves are. */
  ghost predicate Decided(c: Condition, input: Input, constants: Constants) {
    forall l :: l in Leaves(c) ==> l.Leaf? && LeafDecided(l, input, constants)
  }

  lemma PartDecided(c: Condition, i: nat, input: Input, constants: Constants)
    requires (c.AllOf? || c.AnyOf?) && i < |c.conditions| && Decided(c, input, constants)
    ensures Decided(c.conditions[i], input, constants)
  {
    forall l | l in Leaves(c.conditions[i])
      ensures l in Leaves(c)
    {
    }
  }

  /** The classical Boolean value of a decided condition. */
  ghost predicate Truth(c: Condition, input: Input, constants: Constants)
    requires Decided(c, input, constants)
  {
    match c
    case Leaf(_, _, _) =>
      assert c in Leaves(c);
      LeafHolds(c, input, constants)
    case AllOf(cs) =>
      forall i :: 0 <= i < |cs| ==> (PartDecided(c, i, input, constants); Truth(cs[i], input, constants))
    case AnyOf(cs) =>
      exists i :: 0 <= i < |cs| && (PartDecided(c, i, input, constants); Truth(cs[i], input, constants))
    case Not(d) => !Truth(d, input, constants)
  }

  lemma IncludesIsMembership(v: Value, x: Value)
    requires v.ArrValue?
    ensures Includes(v.items, Some(x)) <==> x in Elements(v)
  {
    if x in v.items {
      var i :| 0 <= i < |v.items| && v.items[i] == x;
      assert Some(x) == Some(v.items[i]);
    }
  }

  lemma WithinSplits(s: Text, t: Text)
    ensures Within(s, t) <==> exists before, after :: s == before + t + after
  {
    if Within(s, t) {
      var i :| 0 <= i <= |s| && t <= s[i..];
      assert s == s[..i] + t + s[i + |t|..];
    }
    if before, after :| s == before + t + after {
      assert s[|before|..] == t + after;
    }
  }

  lemma PrefixSplits(s: Text, t: Text)
    ensures t <= s <==> exists after :: s == t + after
  {
    if t <= s {
      assert s == t + s[|t|..];
    }
  }

  lemma SetLeafVerdict(a: Value, e: Value)
    requires a.ArrValue? && e.ArrValue?
    ensures (forall i :: 0 <= i < |a.items| ==> Includes(e.items, Some(a.items[i]))) <==> Elements(a) <= Elements(e)
    ensures (exists i :: 0 <= i < |a.items| && Includes(e.items, Some(a.items[i]))) <==> Elements(a) * Elements(e) != {}
  {
    forall x
      ensures Includes(e.items, Some(x)) <==> x in Elements(e)
    {
      IncludesIsMembership(e, x);
    }
    forall i | 0 <= i < |a.items|
      ensures a.items[i] in Elements(a)
    {
    }
    if x :| x in Elements(a) * Elements(e) {
      var i :| 0 <= i < |a.items| && a.items[i] == x;
    }
    if i :| 0 <= i < |a.items| && Includes(e.items, Some(a.items[i])) {
      assert a.items[i] in Elements(a) * Elements(e);
    }
  }

  lemma LeafVerdict(l: Condition, input: Input, constants: Constants)
    requires l.Leaf?
    ensures Evaluate(l, input, constants).ok <==> LeafDecided(l, input, constants)
    ensures Evaluate(l, input, constants).matched <==> LeafDecided(l, input, constants) && LeafHolds(l, input, constants)
  {
    var actual := Actual(l.reference, input, constants);
    if LeafDecided(l, input, constants) && l.operand.Some? {
      var a, e := actual.value, l.operand.value;
      if l.operator == In {
        IncludesIsMembership(e, a);
      } else if l.operator == Contains && a.ArrValue? {
        IncludesIsMembership(a, e);
      } else if l.operator == Contains {
        WithinSplits(a.s, e.s);
      } else if l.operator == StartsWith {
        PrefixSplits(a.s, e.s);
      } else if l.operator == SetSubset || l.operator == SetIntersects {
        SetLeafVerdict(a, e);
      }
    }
  }

  lemma DecidedByParts(c: Condition, input: Input, constants: Constants)
    requires c.AllOf? || c.AnyOf?
    ensures Decided(c, input, constants) <==> forall i :: 0 <= i < |c.conditions| ==> Decided(c.conditions[i], input, constants)
  {
    if Decided(c, input, constants) {
      forall i | 0 <= i < |c.conditions|
        ensures Decided(c.conditions[i], input, constants)
      {
        PartDecided(c, i, input, constants);
      }
    }
  }

  /** The evaluator is three-valued: it decides a condition iff all its leaves are decided, and then
      gives its classical Boolean value. */
  lemma {:induction false} EvaluateIsThreeValued(c: Condition, input: Input, constants: Constants)
    ensures Evaluate(c, input, constants).ok <==> Decided(c, input, constants)
    ensures Evaluate(c, input, constants).matched <==> Decided(c, input, constants) && Truth(c, input, constants)
  {
    if c.Leaf? {
      LeafVerdict(c, input, constants);
    } else if c.Not? {
      EvaluateIsThreeValued(c.condition, input, constants);
    } else {
      forall i | 0 <= i < |c.conditions|
        ensures Evaluate(c.conditions[i], input, constants).ok <==> Decided(c.conditions[i], input, constants)
        ensures Evaluate(c.conditions[i], input, constants).matched <==>
          Decided(c.conditions[i], input, constants) && Truth(c.conditions[i], input, constants)
      {
        EvaluateIsThreeValued(c.conditions[i], input, constants);
      }
      DecidedByParts(c, input, constants);
      var results := EvaluateEach(c.conditions, input, constants);
      assert forall i :: 0 <= i < |results| ==> results[i] == Evaluate(c.conditions[i], input, constants);
    }
  }
}
