/** The restricted YAML parser. */
module RestrictedYaml {
  // The indentation parser of policy sources.  It is specified on the lines that remain, so a result
  // says how many of them it used.
  import opened CodeUnits
  import opened Numerals
  import opened CanonicalJson
  import Policy

  datatype Line = Line(indent: nat, content: Text)

  datatype Limits = Limits(maxDepth: nat, maxNodes: nat, maxScalarLength: nat)

  datatype Failure = InvalidYaml | LimitExceeded

  /** A parsed value, the lines used for it and the node counter afterwards; or the failure. */
  datatype Result<+T> = Ok(value: T, used: nat, count: nat) | Err(failure: Failure)

  const SPACE: Unit := 32

  // ---------------------------------------------------------------- one line

  predicate IsLetter(u: Unit) { 65 <= u <= 90 || 97 <= u <= 122 }

  predicate IsKeyUnit(u: Unit) { IsLetter(u) || IsDigit(u) || u == 45 || u == 95 }

  /** `/^[A-Za-z][A-Za-z0-9_-]*$/` */
  predicate IsKey(t: Text) {
    t != [] && IsLetter(t[0]) && KeyUnits(t)
  }

  predicate KeyUnits(t: Text) { t == [] || (IsKeyUnit(t[0]) && KeyUnits(t[1..])) }

  /** White space as `trimStart` knows it. */
  predicate IsSpace(u: Unit) {
    9 <= u <= 13 || u in {32, 160, 0x1680, 0x2028, 0x2029, 0x202F, 0x205F, 0x3000, 0xFEFF} || 0x2000 <= u <= 0x200A
  }

  function TrimStart(t: Text): (r: Text)
    ensures |r| <= |t|
  {
    if t != [] && IsSpace(t[0]) then TrimStart(t[1..]) else t
  }

  function IndexOf(t: Text, u: Unit): (r: Option<nat>)
    ensures r.Some? ==> r.value < |t| && t[r.value] == u && forall i :: 0 <= i < r.value ==> t[i] != u
    ensures r.None? ==> forall i :: 0 <= i < |t| ==> t[i] != u
  {
    if t == [] then None
    else if t[0] == u then Some(0)
    else
      match IndexOf(t[1..], u)
      case None => None
      case Some(i) => Some(i + 1)
  }

  datatype Pair = Pair(key: Text, scalar: Text)

  /** `splitMapping` */
  function SplitMapping(content: Text): Option<Pair> {
    match IndexOf(content, COLON)
    case None => None
    case Some(i) =>
      var key, rest := content[..i], content[i + 1..];
      if i == 0 || !IsKey(key) || key in Policy.PROTECTED_KEYS then None
      else if rest != [] && rest[0] != SPACE then None
      else Some(Pair(key, TrimStart(rest)))
  }

  /** `/^[A-Za-z][A-Za-z0-9_-]*:/` */
  predicate StartsEntry(rest: Text) {
    IndexOf(rest, COLON).Some? && IsKey(rest[..IndexOf(rest, COLON).value])
  }

  predicate Dashed(content: Text) { content != [] && content[0] == MINUS }

  /** Starts with a marker and its space. */
  predicate Marked(content: Text) { |content| >= 2 && content[0] == MINUS && content[1] == SPACE }

  /** `parseScalar` */
  function ParseScalar(source: Text, limits: Limits): Result<Value> {
    if |source| > limits.maxScalarLength then Err(LimitExceeded)
    else if source == TRUE_TEXT then Ok(BoolValue(true), 0, 0)
    else if source == FALSE_TEXT then Ok(BoolValue(false), 0, 0)
    else if source == NULL_TEXT then Ok(NullValue, 0, 0)
    else
      var number := ParseNumber(source);
      if number.Done? && number.rest == [] then Ok(Meaning(number.value), 0, 0)
      else if source != [] && source[0] == QUOTE && source[|source| - 1] == QUOTE then
        match ParseString(source[1..])
        case Done(s, rest) => if rest == [] then Ok(StrValue(s), 0, 0) else Err(InvalidYaml)
        case Fail => Err(InvalidYaml)
      else Err(InvalidYaml)
  }

  // ---------------------------------------------------------------- blocks

  type Fields = map<Text, Value>

  /** No key in common. */
  predicate Apart(a: Fields, b: Fields) { forall k :: k in a ==> k !in b }

  /** A result reached after so many further lines. */
  function After(lines: nat, r: Result<Value>): Result<Value> {
    if r.Ok? then r.(used := lines + r.used) else r
  }

  /** The value of an entry whose key line has been read: its scalar, or the block on the next lines. */
  function EntryValue(scalar: Text, lines: seq<Line>, indent: nat, limits: Limits, depth: nat, count: nat): (r: Result<Value>)
    ensures r.Ok? ==> r.used <= |lines|
    decreases |lines|, 3
  {
    if scalar != [] then
      match ParseScalar(scalar, limits)
      case Ok(value, _, _) => Ok(value, 0, count)
      case Err(f) => Err(f)
    else if lines == [] || lines[0].indent != indent then Err(InvalidYaml)
    else Node(lines, indent, limits, depth, count)
  }

  /** `parseYamlNode` */
  function Node(lines: seq<Line>, indent: nat, limits: Limits, depth: nat, count: nat): (r: Result<Value>)
    ensures r.Ok? ==> r.used <= |lines|
    decreases |lines|, 2
  {
    if depth > limits.maxDepth then Err(LimitExceeded)
    else if lines == [] || lines[0].indent != indent then Err(InvalidYaml)
    else if Dashed(lines[0].content) then Items(lines, indent, limits, depth, count, [])
    else Members(lines, indent, limits, depth, count, map[])
  }

  /** The sequence loop, after `values`. */
  function Items(lines: seq<Line>, indent: nat, limits: Limits, depth: nat, count: nat, values: seq<Value>): (r: Result<Value>)
    ensures r.Ok? ==> r.used <= |lines|
    decreases |lines|, 1
  {
    if lines == [] || lines[0].indent != indent || !Dashed(lines[0].content) then Ok(ArrValue(values), 0, count)
    else
      match Item(lines[0].content, lines[1..], indent, limits, depth, count)
      case Err(f) => Err(f)
      case Ok(value, used, now) =>
        After(1 + used, Items(lines[1 + used..], indent, limits, depth, now, values + [value]))
  }

  /** One item, whose marker line has this content and is followed by `lines`. */
  function Item(content: Text, lines: seq<Line>, indent: nat, limits: Limits, depth: nat, count: nat): (r: Result<Value>)
    ensures r.Ok? ==> r.used <= |lines|
    decreases |lines|, 5
  {
    if content != [MINUS] && !Marked(content) then Err(InvalidYaml)
    else if count + 1 > limits.maxNodes then Err(LimitExceeded)
    else
      var rest := if content == [MINUS] then [] else content[2..];
      if rest == [] then
        if lines == [] || lines[0].indent != indent + 2 then Err(InvalidYaml)
        else Node(lines, indent + 2, limits, depth + 1, count + 1)
      else if StartsEntry(rest) then Compact(rest, lines, indent, limits, depth, count + 1)
      else
        match ParseScalar(rest, limits)
        case Ok(value, _, _) => Ok(value, 0, count + 1)
        case Err(f) => Err(f)
  }

  /** A mapping that starts on the marker line of its item. */
  function Compact(entry: Text, lines: seq<Line>, indent: nat, limits: Limits, depth: nat, count: nat): (r: Result<Value>)
    ensures r.Ok? ==> r.used <= |lines|
    decreases |lines|, 4
  {
    match SplitMapping(entry)
    case None => Err(InvalidYaml)
    case Some(pair) =>
      match EntryValue(pair.scalar, lines, indent + 4, limits, depth + 2, count)
      case Err(f) => Err(f)
      case Ok(value, used, now) => Tail(map[pair.key := value], used, lines[used..], indent, limits, depth, now)
  }

  /** The further entries of a compact item, if there are any. */
  function Tail(fields: Fields, used: nat, lines: seq<Line>, indent: nat, limits: Limits, depth: nat, count: nat): (r: Result<Value>)
    ensures r.Ok? ==> used <= r.used <= used + |lines|
    decreases |lines|, 3
  {
    if lines == [] || lines[0].indent != indent + 2 || Dashed(lines[0].content) then Ok(ObjValue(fields), used, count)
    else
      match Node(lines, indent + 2, limits, depth + 1, count)
      case Err(f) => Err(f)
      case Ok(tail, more, end) =>
        if !tail.ObjValue? || !Apart(tail.fields, fields) then Err(InvalidYaml)
        else Ok(ObjValue(fields + tail.fields), used + more, end)
  }

  /** The mapping loop, after `fields`. */
  function Members(lines: seq<Line>, indent: nat, limits: Limits, depth: nat, count: nat, fields: Fields): (r: Result<Value>)
    ensures r.Ok? ==> r.used <= |lines| && r.value.ObjValue?
    decreases |lines|, 1
  {
    if lines == [] || lines[0].indent != indent || Dashed(lines[0].content) then Ok(ObjValue(fields), 0, count)
    else if count + 1 > limits.maxNodes then Err(LimitExceeded)
    else
      match SplitMapping(lines[0].content)
      case None => Err(InvalidYaml)
      case Some(pair) =>
        if pair.key in fields then Err(InvalidYaml) else
          AfterKey(pair, lines[1..], indent, limits, depth, count + 1, fields)
  }

  /** The mapping loop from a key that has been read. */
  function AfterKey(pair: Pair, lines: seq<Line>, indent: nat, limits: Limits, depth: nat, count: nat, fields: Fields): (r: Result<Value>)
    ensures r.Ok? ==> r.used <= 1 + |lines| && r.value.ObjValue?
    decreases |lines|, 4
  {
    match EntryValue(pair.scalar, lines, indent + 2, limits, depth + 1, count)
    case Err(f) => Err(f)
    case Ok(value, used, now) =>
      After(1 + used, Members(lines[used..], indent, limits, depth, now, fields[pair.key := value]))
  }

  /** The parser's use in `parseRestrictedPolicyYaml`: the whole text is one block. */
  function Document(lines: seq<Line>, limits: Limits): Result<Value> {
    if lines == [] || lines[0].indent != 0 then Err(InvalidYaml)
    else
      match Node(lines, 0, limits, 0, 0)
      case Err(f) => Err(f)
      case Ok(value, used, count) => if used != |lines| then Err(InvalidYaml) else Ok(value, used, count)
  }

  // ---------------------------------------------------------------- the node counter

  /** A run whose counter is one ahead goes the same way, unless it meets a limit. */
  predicate Ahead(r: Result<Value>, s: Result<Value>) {
    if r.Ok? then r.count >= 1 && s == Ok(r.value, r.used, r.count - 1)
    else r.failure == InvalidYaml ==> s == r
  }

  lemma {:induction false} EntryValueAhead(scalar: Text, lines: seq<Line>, indent: nat, limits: Limits, depth: nat, count: nat)
    ensures Ahead(EntryValue(scalar, lines, indent, limits, depth, count + 1), EntryValue(scalar, lines, indent, limits, depth, count))
    decreases |lines|, 3
  {
    if scalar == [] && lines != [] && lines[0].indent == indent {
      NodeAhead(lines, indent, limits, depth, count);
    }
  }

  lemma {:induction false} NodeAhead(lines: seq<Line>, indent: nat, limits: Limits, depth: nat, count: nat)
    ensures Ahead(Node(lines, indent, limits, depth, count + 1), Node(lines, indent, limits, depth, count))
    decreases |lines|, 2
  {
    if depth <= limits.maxDepth && lines != [] && lines[0].indent == indent {
      if Dashed(lines[0].content) {
        ItemsAhead(lines, indent, limits, depth, count, []);
      } else {
        MembersAhead(lines, indent, limits, depth, count, map[]);
      }
    }
  }

  lemma {:induction false} ItemsAhead(lines: seq<Line>, indent: nat, limits: Limits, depth: nat, count: nat, values: seq<Value>)
    ensures Ahead(Items(lines, indent, limits, depth, count + 1, values), Items(lines, indent, limits, depth, count, values))
    decreases |lines|, 1
  {
    if lines != [] && lines[0].indent == indent && Dashed(lines[0].content) {
      ItemAhead(lines[0].content, lines[1..], indent, limits, depth, count);
      var item := Item(lines[0].content, lines[1..], indent, limits, depth, count + 1);
      if item.Ok? {
        ItemsAhead(lines[1 + item.used..], indent, limits, depth, item.count - 1, values + [item.value]);
      }
    }
  }

  lemma {:induction false} ItemAhead(content: Text, lines: seq<Line>, indent: nat, limits: Limits, depth: nat, count: nat)
    ensures Ahead(Item(content, lines, indent, limits, depth, count + 1), Item(content, lines, indent, limits, depth, count))
    decreases |lines|, 5
  {
    if content == [MINUS] || Marked(content) {
      var rest := if content == [MINUS] then [] else content[2..];
      if rest == [] {
        NodeAhead(lines, indent + 2, limits, depth + 1, count + 1);
      } else if StartsEntry(rest) {
        CompactAhead(rest, lines, indent, limits, depth, count + 1);
      }
    }
  }

  lemma {:induction false} CompactAhead(entry: Text, lines: seq<Line>, indent: nat, limits: Limits, depth: nat, count: nat)
    ensures Ahead(Compact(entry, lines, indent, limits, depth, count + 1), Compact(entry, lines, indent, limits, depth, count))
    decreases |lines|, 4
  {
    var pair := SplitMapping(entry);
    if pair.Some? {
      EntryValueAhead(pair.value.scalar, lines, indent + 4, limits, depth + 2, count);
      var v := EntryValue(pair.value.scalar, lines, indent + 4, limits, depth + 2, count + 1);
      if v.Ok? {
        TailAhead(map[pair.value.key := v.value], v.used, lines[v.used..], indent, limits, depth, v.count - 1);
      }
    }
  }

  lemma {:induction false} TailAhead(fields: Fields, used: nat, lines: seq<Line>, indent: nat, limits: Limits, depth: nat, count: nat)
    ensures Ahead(Tail(fields, used, lines, indent, limits, depth, count + 1), Tail(fields, used, lines, indent, limits, depth, count))
    decreases |lines|, 3
  {
    NodeAhead(lines, indent + 2, limits, depth + 1, count);
  }

  lemma {:induction false} MembersAhead(lines: seq<Line>, indent: nat, limits: Limits, depth: nat, count: nat, fields: Fields)
    ensures Ahead(Members(lines, indent, limits, depth, count + 1, fields), Members(lines, indent, limits, depth, count, fields))
    decreases |lines|, 1
  {
    if lines != [] && lines[0].indent == indent && !Dashed(lines[0].content) {
      var pair := SplitMapping(lines[0].content);
      if pair.Some? && pair.value.key !in fields {
        AfterKeyAhead(pair.value, lines[1..], indent, limits, depth, count + 1, fields);
      }
    }
  }

  lemma {:induction false} AfterKeyAhead(pair: Pair, lines: seq<Line>, indent: nat, limits: Limits, depth: nat, count: nat, fields: Fields)
    ensures Ahead(AfterKey(pair, lines, indent, limits, depth, count + 1, fields),
                  AfterKey(pair, lines, indent, limits, depth, count, fields))
    decreases |lines|, 4
  {
    EntryValueAhead(pair.scalar, lines, indent + 2, limits, depth + 1, count);
    var v := EntryValue(pair.scalar, lines, indent + 2, limits, depth + 1, count + 1);
    if v.Ok? {
      MembersAhead(lines[v.used..], indent, limits, depth, v.count - 1, fields[pair.key := v.value]);
    }
  }

  // ---------------------------------------------------------------- entries read before

  /** The mapping loop keeps what it starts with, and fails on a repeated key only. */
  predicate Extends(r: Result<Value>, s: Result<Value>, fields: Fields, more: Fields) {
    if r.Err? then s.Err?
    else
      r.value.ObjValue? && fields.Keys <= r.value.fields.Keys
      && if Apart(r.value.fields, more) then s == Ok(ObjValue(r.value.fields + more), r.used, r.count)
         else s == Err(InvalidYaml) || s == Err(LimitExceeded)
  }

  lemma {:induction false} MembersExtend(lines: seq<Line>, indent: nat, limits: Limits, depth: nat, count: nat, fields: Fields, more: Fields)
    requires Apart(fields, more)
    ensures Extends(Members(lines, indent, limits, depth, count, fields),
                    Members(lines, indent, limits, depth, count, fields + more), fields, more)
    decreases |lines|, 1
  {
    if lines != [] && lines[0].indent == indent && !Dashed(lines[0].content) && count + 1 <= limits.maxNodes {
      var pair := SplitMapping(lines[0].content);
      if pair.Some? && pair.value.key !in fields {
        AfterKeyExtends(pair.value, lines[1..], indent, limits, depth, count + 1, fields, more);
      }
    }
  }

  lemma {:induction false} AfterKeyExtends(pair: Pair, lines: seq<Line>, indent: nat, limits: Limits, depth: nat, count: nat,
                                           fields: Fields, more: Fields)
    requires Apart(fields, more)
    ensures var r := AfterKey(pair, lines, indent, limits, depth, count, fields);
      if pair.key in more then r.Ok? ==> pair.key in r.value.fields && fields.Keys <= r.value.fields.Keys
      else Extends(r, AfterKey(pair, lines, indent, limits, depth, count, fields + more), fields, more)
    decreases |lines|, 4
  {
    var v := EntryValue(pair.scalar, lines, indent + 2, limits, depth + 1, count);
    if v.Ok? {
      var now := fields[pair.key := v.value];
      if pair.key in more {
        MembersKeep(lines[v.used..], indent, limits, depth, v.count, now);
      } else {
        assert (fields + more)[pair.key := v.value] == now + more;
        MembersExtend(lines[v.used..], indent, limits, depth, v.count, now, more);
      }
    }
  }

  lemma {:induction false} MembersKeep(lines: seq<Line>, indent: nat, limits: Limits, depth: nat, count: nat, fields: Fields)
    ensures var r := Members(lines, indent, limits, depth, count, fields); r.Ok? ==> fields.Keys <= r.value.fields.Keys
    decreases |lines|
  {
    if lines != [] && lines[0].indent == indent && !Dashed(lines[0].content) && count + 1 <= limits.maxNodes {
      var pair := SplitMapping(lines[0].content);
      if pair.Some? && pair.value.key !in fields {
        var v := EntryValue(pair.value.scalar, lines[1..], indent + 2, limits, depth + 1, count + 1);
        if v.Ok? {
          MembersKeep(lines[1 + v.used..], indent, limits, depth, v.count, fields[pair.value.key := v.value]);
        }
      }
    }
  }

  // ---------------------------------------------------------------- compact items

  const COMPACT_MARK: Text := [MINUS, SPACE]

  lemma StartsWithLetter(entry: Text)
    requires StartsEntry(entry)
    ensures entry != [] && IsLetter(entry[0]) && !Dashed(entry)
  {
    assert entry[..IndexOf(entry, COLON).value][0] == entry[0];
  }

  /** After its first entry, a compact item goes on as the mapping loop does. */
  lemma TailIsMembers(key: Text, value: Value, used: nat, lines: seq<Line>, indent: nat, limits: Limits, depth: nat, count: nat)
    requires depth + 1 <= limits.maxDepth
    ensures var t := Tail(map[key := value], used, lines, indent, limits, depth, count);
      var m := Members(lines, indent + 2, limits, depth + 1, count, map[key := value]);
      if m.Ok? then t == Ok(m.value, used + m.used, m.count) else t.Err?
  {
    var more: Fields := map[key := value];
    assert map[] + more == more && more.Keys == {key};
    MembersExtend(lines, indent + 2, limits, depth + 1, count, map[], more);
    var r := Members(lines, indent + 2, limits, depth + 1, count, map[]);
    if r.Ok? && key !in r.value.fields {
      assert more + r.value.fields == r.value.fields + more;
    }
  }

  /** What the two ways of writing an item have to do with each other. */
  predicate SameItem(compact: Result<Value>, expanded: Result<Value>) {
    && (expanded.Ok? ==> expanded.used >= 1 && expanded.count >= 1
                         && compact == Ok(expanded.value, expanded.used - 1, expanded.count - 1))
    && (expanded == Err(InvalidYaml) ==> compact.Err?)
  }

  lemma CompactItem(entry: Text, lines: seq<Line>, indent: nat, limits: Limits, depth: nat, count: nat)
    requires StartsEntry(entry)
    ensures SameItem(Item(COMPACT_MARK + entry, lines, indent, limits, depth, count),
                     Item([MINUS], [Line(indent + 2, entry)] + lines, indent, limits, depth, count))
  {
    StartsWithLetter(entry);
    var content, e := COMPACT_MARK + entry, [Line(indent + 2, entry)] + lines;
    assert Marked(content) && content[2..] == entry && e[1..] == lines;
    var node := Node(e, indent + 2, limits, depth + 1, count + 1);
    if depth + 1 <= limits.maxDepth {
      assert node == Members(e, indent + 2, limits, depth + 1, count + 1, map[]);
      var pair := SplitMapping(entry);
      if pair.Some? && count + 2 <= limits.maxNodes {
        assert node == AfterKey(pair.value, lines, indent + 2, limits, depth + 1, count + 2, map[]);
        CompactEntry(pair.value, lines, indent, limits, depth, count + 1);
      }
    }
  }

  lemma CompactEntry(pair: Pair, lines: seq<Line>, indent: nat, limits: Limits, depth: nat, count: nat)
    requires depth + 1 <= limits.maxDepth
    ensures var v := EntryValue(pair.scalar, lines, indent + 4, limits, depth + 2, count);
      var compact := if v.Err? then v else Tail(map[pair.key := v.value], v.used, lines[v.used..], indent, limits, depth, v.count);
      SameItem(compact, AfterKey(pair, lines, indent + 2, limits, depth + 1, count + 1, map[]))
  {
    EntryValueAhead(pair.scalar, lines, indent + 4, limits, depth + 2, count);
    var w := EntryValue(pair.scalar, lines, indent + 4, limits, depth + 2, count + 1);
    if w.Ok? {
      var fields: Fields := map[pair.key := w.value];
      assert map[][pair.key := w.value] == fields;
      MembersAhead(lines[w.used..], indent + 2, limits, depth + 1, w.count - 1, fields);
      TailIsMembers(pair.key, w.value, w.used, lines[w.used..], indent, limits, depth, w.count - 1);
    }
  }

  /** A compact item parses as its expanded form does, in any sequence and before any lines: whatever
      the expanded text parses to, the compact text parses to, with one line and one node less; and
      when the expanded text is invalid for another reason than a limit, so is the compact one. */
  lemma CompactIsExpanded(entry: Text, lines: seq<Line>, indent: nat, limits: Limits, depth: nat, count: nat, values: seq<Value>)
    requires StartsEntry(entry)
    ensures SameItem(Items([Line(indent, COMPACT_MARK + entry)] + lines, indent, limits, depth, count, values),
                     Items([Line(indent, [MINUS]), Line(indent + 2, entry)] + lines, indent, limits, depth, count, values))
  {
    var c, e := [Line(indent, COMPACT_MARK + entry)] + lines, [Line(indent, [MINUS]), Line(indent + 2, entry)] + lines;
    assert c[1..] == lines && e[1..] == [Line(indent + 2, entry)] + lines;
    CompactItem(entry, lines, indent, limits, depth, count);
    ItemsStep(c, indent, limits, depth, count, values);
    ItemsStep(e, indent, limits, depth, count, values);
    SameRound(Item(COMPACT_MARK + entry, lines, indent, limits, depth, count), Item([MINUS], e[1..], indent, limits, depth, count),
              lines, e[1..], indent, limits, depth, values);
  }

  /** The rest of the sequence loop after an item on the marker line and on `lines`. */
  function GoOn(item: Result<Value>, lines: seq<Line>, indent: nat, limits: Limits, depth: nat, values: seq<Value>): Result<Value>
    requires item.Ok? ==> item.used <= |lines|
  {
    if item.Err? then item
    else After(1 + item.used, Items(lines[item.used..], indent, limits, depth, item.count, values + [item.value]))
  }

  lemma ItemsStep(lines: seq<Line>, indent: nat, limits: Limits, depth: nat, count: nat, values: seq<Value>)
    requires lines != [] && lines[0].indent == indent && Dashed(lines[0].content)
    ensures Items(lines, indent, limits, depth, count, values) ==
      GoOn(Item(lines[0].content, lines[1..], indent, limits, depth, count), lines[1..], indent, limits, depth, values)
  {
    var item := Item(lines[0].content, lines[1..], indent, limits, depth, count);
    if item.Ok? {
      assert lines[1..][item.used..] == lines[1 + item.used..];
    }
  }

  lemma SameRound(compact: Result<Value>, item: Result<Value>, lines: seq<Line>, more: seq<Line>,
                  indent: nat, limits: Limits, depth: nat, values: seq<Value>)
    requires SameItem(compact, item) && |more| == |lines| + 1 && more[1..] == lines
    requires (compact.Ok? ==> compact.used <= |lines|) && (item.Ok? ==> item.used <= |more|)
    ensures SameItem(GoOn(compact, lines, indent, limits, depth, values), GoOn(item, more, indent, limits, depth, values))
  {
    if item.Ok? {
      assert more[item.used..] == lines[compact.used..];
      ItemsAhead(lines[compact.used..], indent, limits, depth, compact.count, values + [item.value]);
    }
  }
}
