/** Laying a block out at two spaces a level, and parsing it back. */
module YamlLayout {
  import opened CodeUnits
  import opened Numerals
  import opened CanonicalJson
  import opened RestrictedYaml
  import opened YamlGrammar

  type ScalarJson = v: Json | !v.Arr? && !v.Obj? witness Null

  /** What restricted YAML can say. */
  datatype Tree =
    | Leaf(v: ScalarJson)
    | Mapping(entries: seq<Keyed<Tree>>)
    | Sequence(items: seq<Tree>)

  /** No empty block, usable and distinct keys. */
  predicate Sound(t: Tree) {
    match t
    case Leaf(_) => true
    case Mapping(entries) =>
      entries != [] && DistinctKeys(entries)
      && forall i :: 0 <= i < |entries| ==> GoodKey(entries[i].key) && Sound(entries[i].value)
    case Sequence(items) => items != [] && forall i :: 0 <= i < |items| ==> Sound(items[i])
  }

  // ---------------------------------------------------------------- what a tree says

  function TreeValue(t: Tree): Value
    decreases t, 0
  {
    match t
    case Leaf(v) => Meaning(v)
    case Mapping(entries) => ObjValue(FieldsFrom(map[], entries))
    case Sequence(items) => ArrValue(ValuesFrom([], items))
  }

  /** The fields, and then those of the entries. */
  function FieldsFrom(fields: Fields, entries: seq<Keyed<Tree>>): Fields
    decreases entries, 0
  {
    if entries == [] then fields else FieldsFrom(fields[entries[0].key := TreeValue(entries[0].value)], entries[1..])
  }

  /** The values, and then those of the items. */
  function ValuesFrom(values: seq<Value>, items: seq<Tree>): seq<Value>
    decreases items, 0
  {
    if items == [] then values else ValuesFrom(values + [TreeValue(items[0])], items[1..])
  }

  // ---------------------------------------------------------------- layout

  function LayOut(t: Tree, indent: nat): seq<Line>
    decreases t, 0
  {
    match t
    case Leaf(_) => []
    case Mapping(entries) => LayEntries(entries, indent)
    case Sequence(items) => LayItems(items, indent)
  }

  function LayEntry(key: Text, t: Tree, indent: nat): (r: seq<Line>)
    ensures r != [] && r[0].indent == indent && key <= r[0].content
    decreases t, 1
  {
    if t.Leaf? then [Line(indent, key + [COLON, SPACE] + Scalar(t.v))]
    else [Line(indent, key + [COLON])] + LayOut(t, indent + 2)
  }

  function LayEntries(entries: seq<Keyed<Tree>>, indent: nat): seq<Line>
    decreases entries, 0
  {
    if entries == [] then [] else LayEntry(entries[0].key, entries[0].value, indent) + LayEntries(entries[1..], indent)
  }

  function LayItem(t: Tree, indent: nat): (r: seq<Line>)
    ensures r != [] && r[0].indent == indent && [MINUS] <= r[0].content
    decreases t, 1
  {
    if t.Leaf? then [Line(indent, COMPACT_MARK + Scalar(t.v))] else [Line(indent, [MINUS])] + LayOut(t, indent + 2)
  }

  function LayItems(items: seq<Tree>, indent: nat): seq<Line>
    decreases items, 0
  {
    if items == [] then [] else LayItem(items[0], indent) + LayItems(items[1..], indent)
  }

  /** The limits of depth and scalar length leave room for a tree. */
  predicate Fits(t: Tree, limits: Limits, depth: nat)
  {
    match t
    case Leaf(v) => |Scalar(v)| <= limits.maxScalarLength
    case Mapping(entries) =>
      depth <= limits.maxDepth && forall i :: 0 <= i < |entries| ==> Fits(entries[i].value, limits, depth + 1)
    case Sequence(items) =>
      depth <= limits.maxDepth && forall i :: 0 <= i < |items| ==> Fits(items[i], limits, depth + 1)
  }

  // ---------------------------------------------------------------- scalars

  lemma ScalarStarts(v: ScalarJson)
    ensures Scalar(v) != [] && !IsSpace(Scalar(v)[0])
    ensures !StartsEntry(Scalar(v))
  {
    var t := Scalar(v);
    if v.Num? {
      NumeralStarts(v.n);
    }
    if v.Float? {
      FloatStarts(v.numeral);
    }
    if v.Null? || v.Bool? {
      assert COLON !in NULL_TEXT && COLON !in TRUE_TEXT && COLON !in FALSE_TEXT;
    } else {
      LetterFirst(t);
    }
  }

  /** A scalar's text is read as the scalar. */
  lemma ScalarParses(v: ScalarJson, limits: Limits)
    requires |Scalar(v)| <= limits.maxScalarLength
    ensures ParseScalar(Scalar(v), limits) == Ok(Meaning(v), 0, 0)
  {
    match v
    case Null => assert NULL_TEXT[0] != TRUE_TEXT[0] && NULL_TEXT[0] != FALSE_TEXT[0];
    case Bool(b) => assert TRUE_TEXT[0] != FALSE_TEXT[0];
    case Num(n) => NumeralParses(n, limits);
    case Float(numeral) => FloatParses(numeral, limits);
    case Str(s) => QuotedParses(s, limits);
  }

  lemma NumeralParses(n: SafeInt, limits: Limits)
    requires |Numeral(n)| <= limits.maxScalarLength
    ensures ParseScalar(Numeral(n), limits) == Ok(NumValue(n), 0, 0)
  {
    NumeralStarts(n);
    NumberReads(n, []);
    assert Numeral(n) + [] == Numeral(n);
  }

  lemma FloatParses(numeral: FloatText, limits: Limits)
    requires |numeral| <= limits.maxScalarLength
    ensures ParseScalar(numeral, limits) == Ok(FloatValue(numeral), 0, 0)
  {
    FloatStarts(numeral);
    FloatReads(numeral, []);
    assert numeral + [] == numeral;
  }

  lemma QuotedParses(s: Text, limits: Limits)
    requires |Quote(s)| <= limits.maxScalarLength
    ensures ParseScalar(Quote(s), limits) == Ok(StrValue(s), 0, 0)
  {
    var t := Quote(s);
    StringReads(s, []);
    assert t[1..] == QuoteBody(s) + [QUOTE] + [];
    assert t[0] == QUOTE && t[|t| - 1] == QUOTE;
    assert ParseNumber(t).Fail?;
  }

  // ---------------------------------------------------------------- what is laid out is written

  /** What a mapping says: exactly its keys, each with what its own subtree says. */
  lemma {:induction false} FieldsAreEntries(fields: Fields, entries: seq<Keyed<Tree>>)
    requires DistinctKeys(entries)
    ensures forall i :: 0 <= i < |entries| ==>
      entries[i].key in FieldsFrom(fields, entries) && FieldsFrom(fields, entries)[entries[i].key] == TreeValue(entries[i].value)
    ensures forall k :: k in FieldsFrom(fields, entries) <==> k in fields || exists i :: 0 <= i < |entries| && entries[i].key == k
    ensures forall k :: k in fields && (forall i :: 0 <= i < |entries| ==> entries[i].key != k) ==>
      FieldsFrom(fields, entries)[k] == fields[k]
    decreases entries
  {
    if entries != [] {
      var now, others := fields[entries[0].key := TreeValue(entries[0].value)], entries[1..];
      FieldsAreEntries(now, others);
      forall i | 0 <= i < |entries|
        ensures entries[i].key in FieldsFrom(fields, entries) && FieldsFrom(fields, entries)[entries[i].key] == TreeValue(entries[i].value)
      {
        if i > 0 {
          assert others[i - 1] == entries[i];
        }
      }
      forall k
        ensures k in FieldsFrom(fields, entries) <==> k in fields || exists i :: 0 <= i < |entries| && entries[i].key == k
      {
        if i :| 0 <= i < |entries| && entries[i].key == k {
          assert i > 0 ==> others[i - 1].key == k;
        }
        if i :| 0 <= i < |others| && others[i].key == k {
          assert entries[i + 1].key == k;
        }
      }
    }
  }

  /** What a sequence says: what each of its items says, in order. */
  lemma {:induction false} ValuesAreItems(values: seq<Value>, items: seq<Tree>)
    ensures var all := ValuesFrom(values, items);
      |all| == |values| + |items| && values <= all
      && forall i :: 0 <= i < |items| ==> all[|values| + i] == TreeValue(items[i])
    decreases items
  {
    if items != [] {
      var now := values + [TreeValue(items[0])];
      ValuesAreItems(now, items[1..]);
      var all := ValuesFrom(values, items);
      forall i | 0 <= i < |items|
        ensures all[|values| + i] == TreeValue(items[i])
      {
        if i > 0 {
          assert all[|now| + (i - 1)] == TreeValue(items[1..][i - 1]);
        }
      }
    }
  }

  /** The block that the layout of a tree is a writing of. */
  function BlockOf(t: Tree): Block
    decreases t, 0
  {
    match t
    case Leaf(v) => Plain(Scalar(v))
    case Mapping(entries) => Block.Keys(EntriesOf(entries))
    case Sequence(items) => List(ElementsOf(items))
  }

  function EntriesOf(entries: seq<Keyed<Tree>>): (r: seq<Entry>)
    ensures |r| == |entries|
    decreases entries, 0
  {
    if entries == [] then []
    else
      var t := entries[0].value;
      [Entry(entries[0].key, if t.Leaf? then [SPACE] else [], BlockOf(t))] + EntriesOf(entries[1..])
  }

  function ElementsOf(items: seq<Tree>): (r: seq<Element>)
    ensures |r| == |items|
    decreases items, 0
  {
    if items == [] then []
    else [if items[0].Leaf? then Inline(Scalar(items[0].v)) else Below(false, BlockOf(items[0]))] + ElementsOf(items[1..])
  }

  lemma {:induction false} EntryAt(entries: seq<Keyed<Tree>>, i: nat)
    requires i < |entries|
    ensures var t := entries[i].value;
      EntriesOf(entries)[i] == Entry(entries[i].key, if t.Leaf? then [SPACE] else [], BlockOf(t))
  {
    if i > 0 {
      EntryAt(entries[1..], i - 1);
    }
  }

  lemma {:induction false} ElementAt(items: seq<Tree>, i: nat)
    requires i < |items|
    ensures ElementsOf(items)[i] == if items[i].Leaf? then Inline(Scalar(items[i].v)) else Below(false, BlockOf(items[i]))
  {
    if i > 0 {
      ElementAt(items[1..], i - 1);
    }
  }

  lemma {:induction false} LaidIsSpelled(t: Tree, indent: nat)
    ensures Spelled(BlockOf(t), indent) == LayOut(t, indent)
    decreases t, 0
  {
    match t
    case Leaf(_) =>
    case Mapping(entries) => EntriesSpelled(entries, indent);
    case Sequence(items) => ElementsSpelled(items, indent);
  }

  lemma {:induction false} EntriesSpelled(entries: seq<Keyed<Tree>>, indent: nat)
    ensures SpelledEntries(EntriesOf(entries), indent) == LayEntries(entries, indent)
    decreases entries, 0
  {
    if entries != [] {
      var key, t := entries[0].key, entries[0].value;
      LaidIsSpelled(t, indent + 2);
      EntriesSpelled(entries[1..], indent);
      assert EntriesOf(entries)[1..] == EntriesOf(entries[1..]);
      assert Ascii(":") == [COLON] && key + [COLON] + [SPACE] == key + [COLON, SPACE] && key + [COLON] + [] + [] == key + [COLON];
    }
  }

  lemma {:induction false} ElementsSpelled(items: seq<Tree>, indent: nat)
    ensures SpelledItems(ElementsOf(items), indent) == LayItems(items, indent)
    decreases items, 0
  {
    if items != [] {
      LaidIsSpelled(items[0], indent + 2);
      ElementsSpelled(items[1..], indent);
      assert ElementsOf(items)[1..] == ElementsOf(items[1..]);
      assert MARK == COMPACT_MARK && Ascii("-") == [MINUS];
    }
  }

  lemma KeyIsProper(key: Text)
    requires GoodKey(key)
    ensures ProperKey(key)
  {
    KeyUnitsAre(key);
  }

  /** A sound tree that fits is a proper block that fits. */
  lemma {:induction false} TreeIsProper(t: Tree, limits: Limits, depth: nat)
    requires Sound(t) && Fits(t, limits, depth)
    ensures Proper(BlockOf(t)) && YamlGrammar.Fits(BlockOf(t), limits, depth)
    decreases t
  {
    match t
    case Leaf(_) =>
    case Mapping(entries) =>
      var es := EntriesOf(entries);
      forall i | 0 <= i < |es|
        ensures es[i].key == entries[i].key && ProperEntry(es[i]) && YamlGrammar.Fits(es[i].value, limits, depth + 1)
      {
        EntryAt(entries, i);
        TreeIsProper(entries[i].value, limits, depth + 1);
        KeyIsProper(entries[i].key);
        if entries[i].value.Leaf? {
          ScalarStarts(entries[i].value.v);
        }
      }
    case Sequence(items) =>
      var es := ElementsOf(items);
      forall i | 0 <= i < |es|
        ensures ProperItem(es[i]) && ItemFits(es[i], limits, depth)
      {
        ElementAt(items, i);
        TreeIsProper(items[i], limits, depth + 1);
        if items[i].Leaf? {
          ScalarStarts(items[i].v);
        }
      }
  }

  lemma ScalarMeant(v: ScalarJson)
    ensures ScalarMeans(Scalar(v), Meaning(v))
  {
    var limits := Limits(0, 0, |Scalar(v)|);
    ScalarParses(v, limits);
    ScalarIsMeant(Scalar(v), limits);
  }

  /** And it means what the tree says. */
  lemma {:induction false} TreeIsMeant(t: Tree)
    requires Sound(t)
    ensures Means(BlockOf(t), TreeValue(t))
    decreases t, 2
  {
    match t
    case Leaf(v) => ScalarMeant(v);
    case Mapping(entries) => EntriesAreMeant(entries);
    case Sequence(items) => ElementsAreMeant(items);
  }

  lemma {:induction false} EntriesAreMeant(entries: seq<Keyed<Tree>>)
    requires DistinctKeys(entries) && forall i :: 0 <= i < |entries| ==> Sound(entries[i].value)
    ensures EntriesMean(EntriesOf(entries), FieldsFrom(map[], entries))
    decreases entries, 1
  {
    hide Sound, TreeValue, BlockOf;
    var es, fields := EntriesOf(entries), FieldsFrom(map[], entries);
    FieldsAreEntries(map[], entries);
    forall i | 0 <= i < |es|
      ensures es[i].key == entries[i].key && es[i].key in fields && Means(es[i].value, fields[es[i].key])
    {
      EntryAt(entries, i);
      TreeIsMeant(entries[i].value);
    }
    assert fields.Keys == set i | 0 <= i < |es| :: es[i].key;
  }

  lemma {:induction false} ElementsAreMeant(items: seq<Tree>)
    requires forall i :: 0 <= i < |items| ==> Sound(items[i])
    ensures forall i :: 0 <= i < |items| ==> i < |ValuesFrom([], items)| && ItemMeans(ElementsOf(items)[i], ValuesFrom([], items)[i])
    ensures |ValuesFrom([], items)| == |items|
    decreases items, 1
  {
    ValuesAreItems([], items);
    forall i | 0 <= i < |items|
      ensures ItemMeans(ElementsOf(items)[i], TreeValue(items[i]))
    {
      ElementAt(items, i);
      TreeIsMeant(items[i]);
    }
  }

  /** A block laid out at its indentation parses to what it says, wherever it stands; it uses exactly
      its own lines and counts exactly one node for each. */
  lemma LayoutParses(t: Tree, indent: nat, limits: Limits, depth: nat, count: nat, suffix: seq<Line>)
    requires Sound(t) && !t.Leaf? && Fits(t, limits, depth) && Ends(suffix, indent)
    requires count + |LayOut(t, indent)| <= limits.maxNodes
    ensures Node(LayOut(t, indent) + suffix, indent, limits, depth, count) ==
      Ok(TreeValue(t), |LayOut(t, indent)|, count + |LayOut(t, indent)|)
  {
    LaidIsSpelled(t, indent);
    TreeIsProper(t, limits, depth);
    TreeIsMeant(t);
    BlockIsRead(BlockOf(t), TreeValue(t), indent, limits, depth, count, suffix);
  }

  /** A whole laid-out text is accepted, and is what it says. */
  lemma DocumentParses(t: Tree, limits: Limits)
    requires Sound(t) && !t.Leaf? && Fits(t, limits, 0) && |LayOut(t, 0)| <= limits.maxNodes
    ensures Document(LayOut(t, 0), limits) == Ok(TreeValue(t), |LayOut(t, 0)|, |LayOut(t, 0)|)
  {
    LaidIsSpelled(t, 0);
    TreeIsProper(t, limits, 0);
    TreeIsMeant(t);
    WrittenIsAccepted(BlockOf(t), LayOut(t, 0), limits, TreeValue(t));
  }
}
