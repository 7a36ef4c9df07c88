/** What compiling ignores: the order of rules, selector lists, permission scopes and constants.

    Sorting by distinct keys gives one list for all permutations of another, and every check of the
    compiler is blind to the orders that sorting removes. */
module PolicyNormalForm {
  import opened CodeUnits
  import opened CanonicalJson
  import opened CanonicalMeaning
  import opened TextOrder
  import opened Policy
  import opened PolicyCompiler

  // ---------------------------------------------------------------- sorting and permutations

  lemma {:induction false} NoRepeat<T(!new)>(a: seq<Keyed<T>>, x: Keyed<T>)
    requires DistinctKeys(a)
    ensures multiset(a)[x] <= 1
  {
    if a != [] {
      assert a == [a[0]] + a[1..];
      NoRepeat(a[1..], x);
      forall i | 0 <= i < |a[1..]|
        ensures a[1..][i] != a[0]
      {
        assert a[1..][i] == a[i + 1];
      }
      assert a[0] !in a[1..];
    }
  }

  lemma TwiceInside<T>(a: seq<T>, i: nat, j: nat)
    requires i < j < |a| && a[i] == a[j]
    ensures multiset(a)[a[i]] >= 2
  {
    assert a == a[..j] + a[j..];
    assert a[..j][i] == a[i] && a[j..][0] == a[i];
    assert a[i] in multiset(a[..j]) && a[i] in multiset(a[j..]);
  }

  lemma DistinctPermuted<T(!new)>(a: seq<Keyed<T>>, b: seq<Keyed<T>>)
    requires DistinctKeys(a) && multiset(a) == multiset(b)
    ensures DistinctKeys(b)
  {
    forall i, j | 0 <= i < j < |b|
      ensures b[i].key != b[j].key
    {
      if b[i].key == b[j].key {
        assert b[i] in multiset(b) && b[j] in multiset(b);
        assert b[i] in multiset(a) && b[j] in multiset(a);
        var k :| 0 <= k < |a| && a[k] == b[i];
        var l :| 0 <= l < |a| && a[l] == b[j];
        assert k == l;
        TwiceInside(b, i, j);
        NoRepeat(a, b[i]);
        assert false;
      }
    }
  }

  /** Sorted in one way only. */
  lemma SortedUnique<T(!new)>(a: seq<Keyed<T>>, b: seq<Keyed<T>>)
    requires SortedKeys(a) && SortedKeys(b) && multiset(a) == multiset(b)
    ensures a == b
  {
    SortedIsDistinct(b);
    forall k
      ensures HasKey(a, k) <==> HasKey(b, k)
    {
      SameMultisetSameKey(a, b, k);
    }
    SortedKeysAgree(a, b);
    forall i | 0 <= i < |a|
      ensures a[i] == b[i]
    {
      assert a[i] in multiset(b);
      var j :| 0 <= j < |b| && b[j] == a[i];
      assert b[j].key == b[i].key;
    }
  }

  lemma SameMultisetSameKey<T(!new)>(a: seq<Keyed<T>>, b: seq<Keyed<T>>, k: Text)
    requires multiset(a) == multiset(b)
    ensures HasKey(a, k) <==> HasKey(b, k)
  {
    if HasKey(a, k) {
      var i :| 0 <= i < |a| && a[i].key == k;
      assert a[i] in multiset(b);
      var j :| 0 <= j < |b| && b[j] == a[i];
    }
    if HasKey(b, k) {
      var i :| 0 <= i < |b| && b[i].key == k;
      assert b[i] in multiset(a);
      var j :| 0 <= j < |a| && a[j] == b[i];
    }
  }

  lemma SortPermuted<T(!new)>(a: seq<Keyed<T>>, b: seq<Keyed<T>>)
    requires DistinctKeys(a) && multiset(a) == multiset(b)
    ensures DistinctKeys(b) && SortMembers(a) == SortMembers(b)
  {
    DistinctPermuted(a, b);
    SortedMembers(a);
    SortedMembers(b);
    SortedUnique(SortMembers(a), SortMembers(b));
  }

  lemma SortSorted<T(!new)>(a: seq<Keyed<T>>)
    requires SortedKeys(a)
    ensures SortMembers(a) == a
  {
    SortedIsDistinct(a);
    SortedMembers(a);
    SortedUnique(SortMembers(a), a);
  }

  function Without<T>(s: seq<T>, j: nat): (r: seq<T>)
    requires j < |s|
    ensures |r| == |s| - 1 && multiset(s) == multiset(r) + multiset{s[j]} && multiset(r) == multiset(s) - multiset{s[j]}
    ensures forall k :: 0 <= k < |r| ==> r[k] == s[if k < j then k else k + 1]
  {
    assert s == s[..j] + [s[j]] + s[j + 1..];
    s[..j] + s[j + 1..]
  }

  /** Permuted lists have permuted images. */
  lemma {:induction false} PermutedImages<A, B>(a: seq<A>, b: seq<A>, x: seq<B>, y: seq<B>)
    requires |a| == |x| && |b| == |y| && multiset(a) == multiset(b)
    requires forall i, j :: 0 <= i < |a| && 0 <= j < |b| && a[i] == b[j] ==> x[i] == y[j]
    ensures multiset(x) == multiset(y)
    decreases |a|
  {
    assert |multiset(a)| == |multiset(b)|;
    if a == [] {
      assert b == [] && x == [] && y == [];
    } else {
      assert a[0] in multiset(b);
      var j :| 0 <= j < |b| && b[j] == a[0];
      PermutedImages(Without(a, 0), Without(b, j), Without(x, 0), Without(y, j));
    }
  }

  // ---------------------------------------------------------------- string lists

  lemma EntriesDistinct(v: Value)
    requires IsTexts(v)
    ensures DistinctKeys(Entries(v.items)) && SortedKeys(SortMembers(Entries(v.items)))
  {
    SortedMembers(Entries(v.items));
  }

  /** The strings of a sorted list, which are those of the source list. */
  lemma SortedTextsContent(v: Value)
    requires IsTexts(v)
    ensures forall i, j :: 0 <= i < j < |SortedTexts(v)| ==> Less(SortedTexts(v)[i], SortedTexts(v)[j])
    ensures forall s :: s in SortedTexts(v) <==> StrValue(s) in v.items
  {
    EntriesDistinct(v);
    var ms := SortMembers(Entries(v.items));
    forall s
      ensures s in SortedTexts(v) <==> StrValue(s) in v.items
    {
      if s in SortedTexts(v) {
        var i :| 0 <= i < |ms| && SortedTexts(v)[i] == s;
        assert ms[i] in Entries(v.items);
      }
      if StrValue(s) in v.items {
        var i :| 0 <= i < |v.items| && v.items[i] == StrValue(s);
        assert Entries(v.items)[i] in ms;
        var j :| 0 <= j < |ms| && ms[j] == Entries(v.items)[i];
        assert SortedTexts(v)[j] == s;
      }
    }
  }

  /** A sorted list compiles to itself. */
  lemma SortedTextsStay(v: Value)
    requires IsTexts(v)
    ensures IsTexts(Texts(SortedTexts(v))) && SortedTexts(Texts(SortedTexts(v))) == SortedTexts(v)
  {
    SortedTextsContent(v);
    var t := SortedTexts(v);
    var items := Texts(t).items;
    forall i | 0 <= i < |items|
      ensures StringOk(items[i])
    {
      assert t[i] in t;
    }
    forall i, j | 0 <= i < j < |t|
      ensures t[i] != t[j]
    {
      LessIsTotal(t[i], t[j]);
    }
    SortSorted(Entries(items));
  }

  predicate ListReordered(a: Value, b: Value) {
    a == b || (a.ArrValue? && b.ArrValue? && multiset(a.items) == multiset(b.items))
  }

  lemma ReorderedTexts(a: Value, b: Value)
    requires ListReordered(a, b) && IsTexts(a)
    ensures IsTexts(b) && SortedTexts(a) == SortedTexts(b)
  {
    forall i | 0 <= i < |b.items|
      ensures StringOk(b.items[i])
    {
      assert b.items[i] in multiset(b.items);
      assert b.items[i] in a.items;
    }
    EntriesDistinct(a);
    PermutedImages(a.items, b.items, Entries(a.items), Entries(b.items));
    SortPermuted(Entries(a.items), Entries(b.items));
    forall i, j | 0 <= i < j < |b.items|
      ensures b.items[i] != b.items[j]
    {
      assert Entries(b.items)[i].key != Entries(b.items)[j].key;
    }
  }

  // ---------------------------------------------------------------- irrelevant orders

  /** Equal objects, but for the order of the list under one key. */
  predicate ListReorderedIn(a: Value, b: Value, key: Text) {
    a == b
    || (a.ObjValue? && b.ObjValue? && a.fields.Keys == b.fields.Keys
        && forall k :: k in a.fields ==> if k == key then ListReordered(a.fields[k], b.fields[k]) else a.fields[k] == b.fields[k])
  }

  predicate FieldReordered(k: Text, a: Value, b: Value) {
    if k == SUBJECT_SELECTOR then ListReorderedIn(a, b, SUBJECT_TYPES)
    else if k == RESOURCE_SELECTOR then ListReorderedIn(a, b, RESOURCE_TYPES)
    else if k == REQUIREMENTS then ListReorderedIn(a, b, PERMISSION_SCOPES)
    else a == b
  }

  /** Equal rules, but for the order of selector lists and permission scopes. */
  predicate RuleReordered(a: Value, b: Value) {
    a == b
    || (a.ObjValue? && b.ObjValue? && a.fields.Keys == b.fields.Keys
        && forall k :: k in a.fields ==> FieldReordered(k, a.fields[k], b.fields[k]))
  }

  /** The same rules up to their own orders, in the same places. */
  predicate RulewiseReordered(a: seq<Value>, b: seq<Value>) {
    |a| == |b| && forall i :: 0 <= i < |a| ==> RuleReordered(a[i], b[i])
  }

  /** The same rules up to their own orders, in any places. */
  ghost predicate RulesReordered(a: Value, b: Value) {
    a == b
    || (a.ArrValue? && b.ArrValue?
        && exists mid: seq<Value> :: RulewiseReordered(a.items, mid) && multiset(mid) == multiset(b.items))
  }

  /** Equal policy sets, but for the order of rules, selector lists and permission scopes.  The order
      of constants, as of any object's members, is not part of a `Value` at all. */
  ghost predicate SetReordered(a: Value, b: Value) {
    a.ObjValue? && b.ObjValue? && a.fields.Keys == b.fields.Keys
    && forall k :: k in a.fields ==> if k == RULES then RulesReordered(a.fields[k], b.fields[k]) else a.fields[k] == b.fields[k]
  }

  lemma RuleReorderedSymmetric(a: Value, b: Value)
    requires RuleReordered(a, b)
    ensures RuleReordered(b, a)
  {
  }

  lemma ReorderedSelector(a: Value, b: Value, key: Text)
    requires ListReorderedIn(a, b, key) && SelectorOk(a, key)
    ensures SelectorOk(b, key) && SortedTexts(a.fields[key]) == SortedTexts(b.fields[key])
  {
    if a != b {
      assert key in a.fields;
      ReorderedTexts(a.fields[key], b.fields[key]);
    }
  }

  lemma RequirementKeysDiffer()
    ensures |PERMISSION_SCOPES| == 16 && |MINIMUM_ISOLATION_LEVEL| == 21 && |TIMEOUT_MS| == 9
    ensures |MAX_CONCURRENCY| == 14 && |POST_VERIFICATION_REQUIRED| == 24
  {
  }

  lemma ReorderedRequirements(a: Value, b: Value)
    requires ListReorderedIn(a, b, PERMISSION_SCOPES) && RequirementsOk(a)
    ensures RequirementsOk(b) && MakeRequirements(a) == MakeRequirements(b)
  {
    if a != b {
      RequirementKeysDiffer();
      if PERMISSION_SCOPES in a.fields {
        ReorderedTexts(a.fields[PERMISSION_SCOPES], b.fields[PERMISSION_SCOPES]);
      }
    }
  }

  lemma RuleKeysDiffer()
    ensures |SCHEMA_VERSION| == 13 && |RULE_ID| == 6 && |DOMAIN| == 6 && |SUBJECT_SELECTOR| == 15 && |ACTION| == 6
    ensures |RESOURCE_SELECTOR| == 16 && |WHEN| == 4 && |RULE_EFFECT| == 10 && |REQUIREMENTS| == 12
    ensures |REASON_CODE| == 10 && |METADATA| == 8
    ensures RULE_ID[0] == 114 && DOMAIN[0] == 100 && ACTION[0] == 97 && RULE_EFFECT[1] == 117 && REASON_CODE[1] == 101
  {
  }

  lemma ReorderedRule(p: Patterns, a: Value, b: Value, names: set<Text>)
    requires RuleReordered(a, b) && RuleOk(p, a, names)
    ensures RuleOk(p, b, names) && MakeRule(p, a, names) == MakeRule(p, b, names)
  {
    if a != b {
      RuleKeysDiffer();
      var f, g := a.fields, b.fields;
      assert FieldReordered(SUBJECT_SELECTOR, f[SUBJECT_SELECTOR], g[SUBJECT_SELECTOR]);
      assert FieldReordered(RESOURCE_SELECTOR, f[RESOURCE_SELECTOR], g[RESOURCE_SELECTOR]);
      assert FieldReordered(REQUIREMENTS, f[REQUIREMENTS], g[REQUIREMENTS]);
      ReorderedSelector(f[SUBJECT_SELECTOR], g[SUBJECT_SELECTOR], SUBJECT_TYPES);
      ReorderedSelector(f[RESOURCE_SELECTOR], g[RESOURCE_SELECTOR], RESOURCE_TYPES);
      ReorderedRequirements(f[REQUIREMENTS], g[REQUIREMENTS]);
      OtherFieldsEqual(f, g);
    }
  }

  lemma OtherFieldsEqual(f: map<Text, Value>, g: map<Text, Value>)
    requires f.Keys == RULE_KEYS == g.Keys && forall k :: k in f ==> FieldReordered(k, f[k], g[k])
    ensures f[SCHEMA_VERSION] == g[SCHEMA_VERSION] && f[RULE_ID] == g[RULE_ID] && f[DOMAIN] == g[DOMAIN]
    ensures f[ACTION] == g[ACTION] && f[WHEN] == g[WHEN] && f[RULE_EFFECT] == g[RULE_EFFECT]
    ensures f[REASON_CODE] == g[REASON_CODE] && f[METADATA] == g[METADATA]
  {
    RuleKeysDiffer();
    forall k | k in f && k !in {SUBJECT_SELECTOR, RESOURCE_SELECTOR, REQUIREMENTS}
      ensures f[k] == g[k]
    {
      assert FieldReordered(k, f[k], g[k]);
    }
  }

  predicate AllRulesOk(p: Patterns, items: seq<Value>, names: set<Text>) {
    forall i :: 0 <= i < |items| ==> RuleOk(p, items[i], names)
  }

  lemma RulewiseCompiles(p: Patterns, a: seq<Value>, b: seq<Value>, names: set<Text>)
    requires RulewiseReordered(a, b) && AllRulesOk(p, a, names)
    ensures AllRulesOk(p, b, names) && MakeRules(p, a, names) == MakeRules(p, b, names)
  {
    forall i | 0 <= i < |a|
      ensures RuleOk(p, b[i], names) && MakeRule(p, a[i], names) == MakeRule(p, b[i], names)
    {
      ReorderedRule(p, a[i], b[i], names);
    }
    assert MakeRules(p, a, names) == MakeRules(p, b, names);
  }

  lemma PermutedOk(p: Patterns, a: seq<Value>, b: seq<Value>, names: set<Text>)
    requires multiset(a) == multiset(b) && AllRulesOk(p, a, names)
    ensures |a| == |b| && AllRulesOk(p, b, names)
  {
    assert |multiset(a)| == |multiset(b)|;
    forall i | 0 <= i < |b|
      ensures RuleOk(p, b[i], names)
    {
      assert b[i] in multiset(a);
      assert b[i] in a;
    }
  }

  lemma PermutedCompiles(p: Patterns, a: seq<Value>, b: seq<Value>, names: set<Text>)
    requires multiset(a) == multiset(b) && AllRulesOk(p, a, names) && AllRulesOk(p, b, names)
    ensures multiset(MakeRules(p, a, names)) == multiset(MakeRules(p, b, names))
  {
    PermutedImages(a, b, MakeRules(p, a, names), MakeRules(p, b, names));
  }

  /** Valid rules stay valid, and sort to the same list. */
  lemma ReorderedRules(p: Patterns, a: seq<Value>, mid: seq<Value>, b: seq<Value>, names: set<Text>)
    requires RulewiseReordered(a, mid) && multiset(mid) == multiset(b) && RulesOk(p, ArrValue(a), names)
    ensures RulesOk(p, ArrValue(b), names)
    ensures SortMembers(MakeRules(p, a, names)) == SortMembers(MakeRules(p, b, names))
  {
    RulewiseCompiles(p, a, mid, names);
    PermutedOk(p, mid, b, names);
    PermutedCompiles(p, mid, b, names);
    SortPermuted(MakeRules(p, a, names), MakeRules(p, b, names));
  }

  lemma ReorderedRulesBack(p: Patterns, a: seq<Value>, mid: seq<Value>, b: seq<Value>, names: set<Text>)
    requires RulewiseReordered(a, mid) && multiset(mid) == multiset(b) && RulesOk(p, ArrValue(b), names)
    ensures RulesOk(p, ArrValue(a), names)
  {
    PermutedOk(p, b, mid, names);
    PermutedCompiles(p, b, mid, names);
    SortPermuted(MakeRules(p, b, names), MakeRules(p, mid, names));
    forall i | 0 <= i < |a|
      ensures RuleReordered(mid[i], a[i])
    {
      RuleReorderedSymmetric(a[i], mid[i]);
    }
    RulewiseCompiles(p, mid, a, names);
  }

  // ---------------------------------------------------------------- I-JSON under reordering

  lemma ReorderedListJson(a: Value, b: Value)
    requires ListReordered(a, b)
    ensures PolicyJsonOk(a) <==> PolicyJsonOk(b)
  {
    if a != b {
      forall i | 0 <= i < |a.items|
        ensures a.items[i] in b.items
      {
        assert a.items[i] in multiset(b.items);
      }
      forall i | 0 <= i < |b.items|
        ensures b.items[i] in a.items
      {
        assert b.items[i] in multiset(a.items);
      }
    }
  }

  lemma ReorderedListInJson(a: Value, b: Value, key: Text)
    requires ListReorderedIn(a, b, key)
    ensures PolicyJsonOk(a) <==> PolicyJsonOk(b)
  {
    if a != b && key in a.fields {
      ReorderedListJson(a.fields[key], b.fields[key]);
    }
  }

  lemma ReorderedRuleJson(a: Value, b: Value)
    requires RuleReordered(a, b)
    ensures PolicyJsonOk(a) <==> PolicyJsonOk(b)
  {
    if a != b {
      forall k | k in a.fields
        ensures PolicyJsonOk(a.fields[k]) <==> PolicyJsonOk(b.fields[k])
      {
        assert FieldReordered(k, a.fields[k], b.fields[k]);
        if k == SUBJECT_SELECTOR {
          ReorderedListInJson(a.fields[k], b.fields[k], SUBJECT_TYPES);
        } else if k == RESOURCE_SELECTOR {
          ReorderedListInJson(a.fields[k], b.fields[k], RESOURCE_TYPES);
        } else if k == REQUIREMENTS {
          ReorderedListInJson(a.fields[k], b.fields[k], PERMISSION_SCOPES);
        }
      }
    }
  }

  lemma ReorderedRulesJson(a: Value, b: Value)
    requires RulesReordered(a, b)
    ensures PolicyJsonOk(a) <==> PolicyJsonOk(b)
  {
    if a != b {
      var mid: seq<Value> :| RulewiseReordered(a.items, mid) && multiset(mid) == multiset(b.items);
      forall i | 0 <= i < |mid|
        ensures PolicyJsonOk(a.items[i]) <==> PolicyJsonOk(mid[i])
      {
        ReorderedRuleJson(a.items[i], mid[i]);
      }
      assert PolicyJsonOk(a) <==> PolicyJsonOk(ArrValue(mid));
      ReorderedListJson(ArrValue(mid), b);
    }
  }

  lemma ReorderedSetJson(a: Value, b: Value)
    requires SetReordered(a, b)
    ensures PolicyJsonOk(a) <==> PolicyJsonOk(b)
  {
    if RULES in a.fields {
      ReorderedRulesJson(a.fields[RULES], b.fields[RULES]);
    }
  }

  lemma SetKeysDiffer()
    ensures |SCHEMA_VERSION| == 13 && |POLICY_SET_ID| == 11 && |VERSION| == 7 && |DESCRIPTION| == 11 && |SOURCE| == 6
    ensures |DEFAULT_OUTCOME| == 14 && |CONSTANTS| == 9 && |RULES| == 5
    ensures POLICY_SET_ID[0] == 112 && DESCRIPTION[0] == 100
  {
  }

  lemma ReorderedRulesField(p: Patterns, a: Value, b: Value, names: set<Text>)
    requires RulesReordered(a, b)
    ensures RulesOk(p, a, names) <==> RulesOk(p, b, names)
    ensures RulesOk(p, a, names) ==>
      SortMembers(MakeRules(p, a.items, names)) == SortMembers(MakeRules(p, b.items, names))
  {
    if a != b {
      var mid: seq<Value> :| RulewiseReordered(a.items, mid) && multiset(mid) == multiset(b.items);
      if RulesOk(p, a, names) {
        ReorderedRules(p, a.items, mid, b.items, names);
      }
      if RulesOk(p, b, names) {
        ReorderedRulesBack(p, a.items, mid, b.items, names);
      }
    }
  }

  /** Equal in all fields but the rules. */
  predicate SameSetFields(f: map<Text, Value>, g: map<Text, Value>)
    requires f.Keys == SET_KEYS == g.Keys
  {
    && f[SCHEMA_VERSION] == g[SCHEMA_VERSION] && f[POLICY_SET_ID] == g[POLICY_SET_ID] && f[VERSION] == g[VERSION]
    && f[DESCRIPTION] == g[DESCRIPTION] && f[SOURCE] == g[SOURCE] && f[DEFAULT_OUTCOME] == g[DEFAULT_OUTCOME]
    && f[CONSTANTS] == g[CONSTANTS]
  }

  /** Maps of the same eight keys that agree on the first seven. */
  lemma AllButLast(f: map<Text, Value>, g: map<Text, Value>, a: Text, b: Text, c: Text, d: Text, e: Text, h: Text, i: Text, last: Text)
    requires f.Keys == {a, b, c, d, e, h, i, last} == g.Keys
    requires g[a] == f[a] && g[b] == f[b] && g[c] == f[c] && g[d] == f[d] && g[e] == f[e] && g[h] == f[h] && g[i] == f[i]
    ensures forall k :: k in f && k != last ==> g[k] == f[k]
  {
  }

  lemma ReorderedSetFields(f: map<Text, Value>, g: map<Text, Value>)
    requires f.Keys == SET_KEYS == g.Keys && SetReordered(ObjValue(f), ObjValue(g))
    ensures SameSetFields(f, g) && RulesReordered(f[RULES], g[RULES])
  {
    SetKeysDiffer();
  }

  lemma SameFieldsOk(p: Patterns, f: map<Text, Value>, g: map<Text, Value>)
    requires f.Keys == SET_KEYS == g.Keys && SameSetFields(f, g) && SetOk(p, ObjValue(f))
    requires PolicyJsonOk(ObjValue(g)) && RulesOk(p, g[RULES], f[CONSTANTS].fields.Keys)
    ensures SetOk(p, ObjValue(g))
  {
  }

  lemma SameFieldsMake(p: Patterns, f: map<Text, Value>, g: map<Text, Value>)
    requires f.Keys == SET_KEYS == g.Keys && SameSetFields(f, g) && SetOk(p, ObjValue(f)) && SetOk(p, ObjValue(g))
    requires var names := f[CONSTANTS].fields.Keys;
      SortMembers(MakeRules(p, f[RULES].items, names)) == SortMembers(MakeRules(p, g[RULES].items, names))
    ensures MakeSet(p, ObjValue(f)) == MakeSet(p, ObjValue(g))
  {
  }

  lemma SameFieldsCompile(p: Patterns, f: map<Text, Value>, g: map<Text, Value>)
    requires f.Keys == SET_KEYS == g.Keys && SameSetFields(f, g) && RulesReordered(f[RULES], g[RULES])
    requires PolicyJsonOk(ObjValue(f)) <==> PolicyJsonOk(ObjValue(g))
    ensures Compile(p, ObjValue(f)) == Compile(p, ObjValue(g))
  {
    var ok, also := SetOk(p, ObjValue(f)), SetOk(p, ObjValue(g));
    if ok || also {
      ReorderedRulesField(p, f[RULES], g[RULES], f[CONSTANTS].fields.Keys);
      if ok {
        SameFieldsOk(p, f, g);
      } else {
        SameFieldsOk(p, g, f);
      }
      SameFieldsMake(p, f, g);
    }
  }

  /** Compiling is blind to every order that does not matter: both sources are refused, or both compile
      to the same set. */
  lemma CompileIgnoresOrder(p: Patterns, a: Value, b: Value)
    requires SetReordered(a, b)
    ensures Compile(p, a) == Compile(p, b)
  {
    if a.fields.Keys == SET_KEYS {
      ReorderedSetJson(a, b);
      ReorderedSetFields(a.fields, b.fields);
      SameFieldsCompile(p, a.fields, b.fields);
    }
  }
}
