/** The texts that restricted YAML accepts. */
module YamlGrammar {
  // A grammar of blocks as they are written, item marks and entry gaps included, and the proof that whatever
  // the parser accepts is written in it, within the limits, and means what the parser returns.
  import opened CodeUnits
  import opened Numerals
  import opened CanonicalJson
  import opened RestrictedYaml
  import Policy

  // ---------------------------------------------------------------- blocks as they are written

  datatype Block = Plain(text: Text) | Keys(entries: seq<Entry>) | List(items: seq<Element>)

  /** A key, the space after its colon, and its value: on the line, or on the lines below. */
  datatype Entry = Entry(key: Text, gap: Text, value: Block)

  /** An item of a list: a scalar after the mark, a block below it, or a mapping that starts after it. */
  datatype Element = Inline(text: Text) | Below(spaced: bool, block: Block) | Compact(entries: seq<Entry>)

  const MARK: Text := Ascii("- ")

  function EntryText(e: Entry): Text {
    e.key + Ascii(":") + e.gap + if e.value.Plain? then e.value.text else []
  }

  /** The lines a block is written on. */
  function Spelled(b: Block, indent: nat): seq<Line>
    decreases b, 0
  {
    match b
    case Plain(_) => []
    case Keys(entries) => SpelledEntries(entries, indent)
    case List(items) => SpelledItems(items, indent)
  }

  function SpelledEntries(entries: seq<Entry>, indent: nat): seq<Line>
    decreases entries, 0
  {
    if entries == [] then [] else SpelledEntry(entries[0], indent) + SpelledEntries(entries[1..], indent)
  }

  function SpelledEntry(e: Entry, indent: nat): (r: seq<Line>)
    ensures r != [] && r[0] == Line(indent, EntryText(e))
    decreases e, 1
  {
    [Line(indent, EntryText(e))] + Spelled(e.value, indent + 2)
  }

  function SpelledItems(items: seq<Element>, indent: nat): seq<Line>
    decreases items, 0
  {
    if items == [] then [] else SpelledItem(items[0], indent) + SpelledItems(items[1..], indent)
  }

  /** A compact mapping is written as it would be below its mark, but its first line takes the mark's place. */
  function SpelledItem(item: Element, indent: nat): seq<Line>
    decreases item, 1
  {
    match item
    case Inline(text) => [Line(indent, MARK + text)]
    case Below(spaced, block) => [Line(indent, if spaced then MARK else Ascii("-"))] + Spelled(block, indent + 2)
    case Compact(entries) =>
      var below := SpelledEntries(entries, indent + 2);
      if below == [] then [] else [Line(indent, MARK + below[0].content)] + below[1..]
  }

  // ---------------------------------------------------------------- what is written properly

  predicate GoodKey(key: Text) { IsKey(key) && key !in Policy.PROTECTED_KEYS }

  predicate Space(t: Text) { forall i :: 0 <= i < |t| ==> IsSpace(t[i]) }

  /** Letters, digits, `-` and `_`, from a letter on; and none of the three names that objects inherit. */
  predicate ProperKey(t: Text) {
    && t != [] && (65 <= t[0] <= 90 || 97 <= t[0] <= 122)
    && (forall i :: 0 <= i < |t| ==> 65 <= t[i] <= 90 || 97 <= t[i] <= 122 || 48 <= t[i] <= 57 || t[i] == 45 || t[i] == 95)
    && t !in Policy.PROTECTED_KEYS
  }

  predicate ProperEntry(e: Entry)
    decreases e, 1
  {
    && ProperKey(e.key) && Space(e.gap) && (e.gap != [] ==> e.gap[0] == 32)
    && (e.value.Plain? ==> e.gap != [] && e.value.text != [] && !IsSpace(e.value.text[0]))
    && Proper(e.value)
  }

  predicate ProperEntries(entries: seq<Entry>)
    decreases entries, 0
  {
    && (forall i :: 0 <= i < |entries| ==> ProperEntry(entries[i]))
    && forall i, j :: 0 <= i < j < |entries| ==> entries[i].key != entries[j].key
  }

  predicate Proper(b: Block)
    decreases b, 0
  {
    match b
    case Plain(_) => true
    case Keys(entries) => entries != [] && ProperEntries(entries)
    case List(items) => items != [] && forall i :: 0 <= i < |items| ==> ProperItem(items[i])
  }

  predicate ProperItem(item: Element)
    decreases item, 1
  {
    match item
    case Inline(text) => text != []
    case Below(_, block) => !block.Plain? && Proper(block)
    case Compact(entries) => entries != [] && ProperEntries(entries)
  }

  /** The limits leave room for a block at this depth. */
  predicate Fits(b: Block, limits: Limits, depth: nat)
    decreases b, 0
  {
    match b
    case Plain(text) => |text| <= limits.maxScalarLength
    case Keys(entries) => depth <= limits.maxDepth && forall i :: 0 <= i < |entries| ==> Fits(entries[i].value, limits, depth + 1)
    case List(items) => depth <= limits.maxDepth && forall i :: 0 <= i < |items| ==> ItemFits(items[i], limits, depth)
  }

  predicate ItemFits(item: Element, limits: Limits, depth: nat)
    decreases item, 1
  {
    match item
    case Inline(text) => |text| <= limits.maxScalarLength
    case Below(_, block) => Fits(block, limits, depth + 1)
    case Compact(entries) =>
      && (|entries| > 1 ==> depth + 1 <= limits.maxDepth)
      && forall i :: 0 <= i < |entries| ==> Fits(entries[i].value, limits, depth + 2)
  }

  // ---------------------------------------------------------------- what is meant

  /** A JSON scalar, a string in double quotes. */
  predicate ScalarMeans(text: Text, v: Value) {
    || (text == Ascii("true") && v == BoolValue(true)) || (text == Ascii("false") && v == BoolValue(false))
    || (text == Ascii("null") && v == NullValue)
    || (ParseNumber(text).Done? && ParseNumber(text).rest == [] && v == Meaning(ParseNumber(text).value))
    || (text != [] && text[0] == 34 && ParseString(text[1..]).Done? && ParseString(text[1..]).rest == []
        && v == StrValue(ParseString(text[1..]).value))
  }

  predicate Means(b: Block, v: Value)
    decreases b, 0
  {
    match b
    case Plain(text) => ScalarMeans(text, v)
    case Keys(entries) => v.ObjValue? && EntriesMean(entries, v.fields)
    case List(items) =>
      v.ArrValue? && |v.items| == |items| && forall i :: 0 <= i < |items| ==> ItemMeans(items[i], v.items[i])
  }

  /** Exactly these keys, each with its value. */
  predicate EntriesMean(entries: seq<Entry>, fields: Fields)
    decreases entries, 0
  {
    && fields.Keys == (set i | 0 <= i < |entries| :: entries[i].key)
    && forall i :: 0 <= i < |entries| ==> entries[i].key in fields && Means(entries[i].value, fields[entries[i].key])
  }

  predicate ItemMeans(item: Element, v: Value)
    decreases item, 1
  {
    match item
    case Inline(text) => ScalarMeans(text, v)
    case Below(_, block) => Means(block, v)
    case Compact(entries) => v.ObjValue? && EntriesMean(entries, v.fields)
  }

  // ---------------------------------------------------------------- one line

  lemma {:induction false} KeyUnitsAre(t: Text)
    requires KeyUnits(t)
    ensures forall i :: 0 <= i < |t| ==> 65 <= t[i] <= 90 || 97 <= t[i] <= 122 || 48 <= t[i] <= 57 || t[i] == 45 || t[i] == 95
  {
    if t != [] {
      KeyUnitsAre(t[1..]);
      assert t == [t[0]] + t[1..];
    }
  }

  lemma {:induction false} Trimmed(t: Text) returns (gap: Text)
    ensures t == gap + TrimStart(t) && Space(gap) && (gap != [] ==> gap[0] == t[0])
    ensures TrimStart(t) != [] ==> !IsSpace(TrimStart(t)[0])
    ensures t != [] && IsSpace(t[0]) ==> gap != []
  {
    if t != [] && IsSpace(t[0]) {
      gap := Trimmed(t[1..]);
      gap := [t[0]] + gap;
    } else {
      gap := [];
    }
  }

  /** A line that splits is a key, a colon, space and the rest. */
  lemma LineIsEntry(content: Text) returns (gap: Text)
    requires SplitMapping(content).Some?
    ensures var pair := SplitMapping(content).value;
      && content == pair.key + Ascii(":") + gap + pair.scalar && ProperKey(pair.key)
      && Space(gap) && (gap != [] ==> gap[0] == 32)
      && (pair.scalar != [] ==> gap != [] && !IsSpace(pair.scalar[0]))
  {
    var i := IndexOf(content, COLON).value;
    var rest := content[i + 1..];
    KeyUnitsAre(content[..i]);
    gap := Trimmed(rest);
    assert content == content[..i] + [COLON] + rest;
    assert Ascii(":") == [COLON];
  }

  lemma ScalarIsMeant(source: Text, limits: Limits)
    requires ParseScalar(source, limits).Ok?
    ensures ScalarMeans(source, ParseScalar(source, limits).value) && |source| <= limits.maxScalarLength && source != []
  {
  }

  // ---------------------------------------------------------------- what is accepted is written

  /** A node is counted for each line used, and the limit was met. */
  predicate Counted(used: nat, now: nat, limits: Limits, count: nat) {
    now == count + used && (used > 0 ==> now <= limits.maxNodes)
  }

  /** The block is what was read. */
  predicate Wrote(b: Block, r: Result<Value>, lines: seq<Line>, indent: nat, limits: Limits, depth: nat, count: nat) {
    && r.Ok? && r.used <= |lines| && Spelled(b, indent) == lines[..r.used]
    && Proper(b) && Fits(b, limits, depth) && Means(b, r.value) && Counted(r.used, r.count, limits, count)
  }

  /** The entries are what was read into these fields. */
  predicate WroteEntries(entries: seq<Entry>, fields: Fields, read: seq<Line>, indent: nat, limits: Limits, depth: nat) {
    && SpelledEntries(entries, indent) == read
    && ProperEntries(entries) && EntriesMean(entries, fields)
    && forall i :: 0 <= i < |entries| ==> Fits(entries[i].value, limits, depth + 1)
  }

  lemma Cut<T>(s: seq<T>, a: nat, b: nat)
    requires a + b <= |s|
    ensures s[..a + b] == s[..a] + s[a..][..b]
  {
  }

  lemma KeysGrow(e: Entry, entries: seq<Entry>)
    ensures (set i | 0 <= i < |[e] + entries| :: ([e] + entries)[i].key) == {e.key} + set i | 0 <= i < |entries| :: entries[i].key
  {
    var all := [e] + entries;
    assert all[0].key == e.key;
    forall i | 0 <= i < |entries|
      ensures entries[i].key == all[i + 1].key
    {
    }
  }

  lemma ProperGrows(e: Entry, entries: seq<Entry>)
    requires ProperEntry(e) && ProperEntries(entries) && forall i :: 0 <= i < |entries| ==> entries[i].key != e.key
    ensures ProperEntries([e] + entries)
  {
    AllGrow(e, entries, ProperEntry);
    KeysDiffer(e, entries);
  }

  lemma KeysDiffer(e: Entry, entries: seq<Entry>)
    requires forall i, j :: 0 <= i < j < |entries| ==> entries[i].key != entries[j].key
    requires forall i :: 0 <= i < |entries| ==> entries[i].key != e.key
    ensures var all := [e] + entries; forall i, j :: 0 <= i < j < |all| ==> all[i].key != all[j].key
  {
  }

  lemma AllGrow<T>(x: T, s: seq<T>, p: T -> bool)
    requires p(x) && forall i :: 0 <= i < |s| ==> p(s[i])
    ensures forall i :: 0 <= i < |[x] + s| ==> p(([x] + s)[i])
  {
  }

  lemma MeaningGrows(e: Entry, v: Value, entries: seq<Entry>, fields: Fields)
    requires Means(e.value, v) && EntriesMean(entries, fields) && e.key !in fields
    ensures EntriesMean([e] + entries, fields[e.key := v])
  {
    var all := [e] + entries;
    KeysGrow(e, entries);
    forall i | 0 <= i < |all|
      ensures all[i].key in fields[e.key := v] && Means(all[i].value, fields[e.key := v][all[i].key])
    {
      if i > 0 {
        assert all[i] == entries[i - 1];
      }
    }
  }

  lemma EntriesGrow(e: Entry, v: Value, entries: seq<Entry>, fields: Fields, own: seq<Line>, read: seq<Line>,
                    indent: nat, limits: Limits, depth: nat)
    requires SpelledEntry(e, indent) == own && ProperEntry(e) && Means(e.value, v) && Fits(e.value, limits, depth + 1)
    requires WroteEntries(entries, fields, read, indent, limits, depth) && e.key !in fields
    ensures WroteEntries([e] + entries, fields[e.key := v], own + read, indent, limits, depth)
  {
    assert ([e] + entries)[1..] == entries;
    forall i | 0 <= i < |entries|
      ensures entries[i].key != e.key
    {
      assert entries[i].key in fields;
    }
    ProperGrows(e, entries);
    MeaningGrows(e, v, entries, fields);
  }

  lemma Prepend<T>(x: T, s: seq<T>, a: nat, b: nat)
    requires a + b <= |s|
    ensures [x] + s[..a + b] == ([x] + s[..a]) + s[a..][..b]
  {
    Cut(s, a, b);
  }

  /** An entry on a line and the lines after it. */
  lemma EntryIsWritten(content: Text, b: Block, v: Result<Value>, lines: seq<Line>, indent: nat, limits: Limits, depth: nat, count: nat)
    returns (e: Entry)
    requires SplitMapping(content).Some? && Wrote(b, v, lines, indent + 2, limits, depth + 1, count)
    requires (b.Plain? <==> SplitMapping(content).value.scalar != []) && (b.Plain? ==> b.text == SplitMapping(content).value.scalar)
    ensures e.key == SplitMapping(content).value.key && e.value == b && ProperEntry(e)
    ensures SpelledEntry(e, indent) == [Line(indent, content)] + lines[..v.used]
  {
    var gap := LineIsEntry(content);
    e := Entry(SplitMapping(content).value.key, gap, b);
    assert EntryText(e) == content;
  }

  /** An entry, and the entries that follow. */
  lemma EntryRound(e: Entry, v: Value, entries: seq<Entry>, fields: Fields, content: Text, lines: seq<Line>, used: nat, more: nat,
                   indent: nat, limits: Limits, depth: nat)
    requires used + more <= |lines| && SpelledEntry(e, indent) == [Line(indent, content)] + lines[..used]
    requires ProperEntry(e) && Means(e.value, v) && Fits(e.value, limits, depth + 1)
    requires WroteEntries(entries, fields, lines[used..][..more], indent, limits, depth) && e.key !in fields
    ensures WroteEntries([e] + entries, fields[e.key := v], [Line(indent, content)] + lines[..used + more], indent, limits, depth)
  {
    Prepend(Line(indent, content), lines, used, more);
    EntriesGrow(e, v, entries, fields, [Line(indent, content)] + lines[..used], lines[used..][..more], indent, limits, depth);
  }

  lemma {:induction false} ValueIsWritten(scalar: Text, lines: seq<Line>, indent: nat, limits: Limits, depth: nat, count: nat)
    returns (b: Block)
    requires EntryValue(scalar, lines, indent, limits, depth, count).Ok?
    ensures (b.Plain? <==> scalar != []) && (b.Plain? ==> b.text == scalar)
    ensures Wrote(b, EntryValue(scalar, lines, indent, limits, depth, count), lines, indent, limits, depth, count)
    decreases |lines|, 3
  {
    if scalar != [] {
      ScalarIsMeant(scalar, limits);
      b := Plain(scalar);
    } else {
      b := NodeIsWritten(lines, indent, limits, depth, count);
    }
  }

  lemma {:induction false} NodeIsWritten(lines: seq<Line>, indent: nat, limits: Limits, depth: nat, count: nat) returns (b: Block)
    requires Node(lines, indent, limits, depth, count).Ok?
    ensures !b.Plain? && Wrote(b, Node(lines, indent, limits, depth, count), lines, indent, limits, depth, count)
    decreases |lines|, 2
  {
    if Dashed(lines[0].content) {
      var items := ItemsAreWritten(lines, indent, limits, depth, count, []);
      b := List(items);
    } else {
      var entries, fields := MembersAreWritten(lines, indent, limits, depth, count, map[]);
      b := Keys(entries);
    }
  }

  /** The items are what was read into these values. */
  predicate WroteItems(items: seq<Element>, values: seq<Value>, read: seq<Line>, indent: nat, limits: Limits, depth: nat) {
    && SpelledItems(items, indent) == read && |items| == |values|
    && forall i :: 0 <= i < |items| ==> ProperItem(items[i]) && ItemFits(items[i], limits, depth) && ItemMeans(items[i], values[i])
  }

  lemma ItemsGrow(item: Element, v: Value, items: seq<Element>, values: seq<Value>, own: seq<Line>, read: seq<Line>,
                  indent: nat, limits: Limits, depth: nat)
    requires SpelledItem(item, indent) == own && ProperItem(item) && ItemMeans(item, v) && ItemFits(item, limits, depth)
    requires WroteItems(items, values, read, indent, limits, depth)
    ensures WroteItems([item] + items, [v] + values, own + read, indent, limits, depth)
  {
    assert ([item] + items)[1..] == items;
  }

  /** One round of the sequence loop, and the rounds after it. */
  lemma ItemsRound(item: Element, items: seq<Element>, lines: seq<Line>, indent: nat, limits: Limits, depth: nat, count: nat,
                   values: seq<Value>, r: Result<Value>, s: Result<Value>)
    requires lines != [] && lines[0].indent == indent && r.Ok? && s.Ok? && r.used < |lines| && s.used <= |lines| - 1 - r.used
    requires SpelledItem(item, indent) == [Line(indent, lines[0].content)] + lines[1..][..r.used]
    requires ProperItem(item) && ItemFits(item, limits, depth) && ItemMeans(item, r.value)
    requires s.value.ArrValue? && values + [r.value] <= s.value.items
    requires WroteItems(items, s.value.items[|values| + 1..], lines[1 + r.used..][..s.used], indent, limits, depth)
    ensures values <= s.value.items
    ensures WroteItems([item] + items, s.value.items[|values|..], lines[..1 + r.used + s.used], indent, limits, depth)
  {
    assert lines[..1 + r.used] == [lines[0]] + lines[1..][..r.used];
    Cut(lines, 1 + r.used, s.used);
    assert s.value.items[|values|..] == [r.value] + s.value.items[|values| + 1..];
    ItemsGrow(item, r.value, items, s.value.items[|values| + 1..], lines[..1 + r.used], lines[1 + r.used..][..s.used],
              indent, limits, depth);
  }

  lemma {:induction false} ItemsAreWritten(lines: seq<Line>, indent: nat, limits: Limits, depth: nat, count: nat, values: seq<Value>)
    returns (items: seq<Element>)
    requires Items(lines, indent, limits, depth, count, values).Ok?
    ensures var r := Items(lines, indent, limits, depth, count, values);
      && r.value.ArrValue? && values <= r.value.items && Counted(r.used, r.count, limits, count)
      && WroteItems(items, r.value.items[|values|..], lines[..r.used], indent, limits, depth)
      && (r.used == 0 <==> lines == [] || lines[0].indent != indent || !Dashed(lines[0].content))
    decreases |lines|, 1
  {
    if lines == [] || lines[0].indent != indent || !Dashed(lines[0].content) {
      items := [];
    } else {
      var item := ItemIsWritten(lines[0].content, lines[1..], indent, limits, depth, count);
      var r := Item(lines[0].content, lines[1..], indent, limits, depth, count);
      items := ItemsAreWritten(lines[1 + r.used..], indent, limits, depth, r.count, values + [r.value]);
      var s := Items(lines[1 + r.used..], indent, limits, depth, r.count, values + [r.value]);
      ItemsRound(item, items, lines, indent, limits, depth, count, values, r, s);
      items := [item] + items;
    }
  }

  lemma {:induction false} ItemIsWritten(content: Text, lines: seq<Line>, indent: nat, limits: Limits, depth: nat, count: nat)
    returns (item: Element)
    requires Item(content, lines, indent, limits, depth, count).Ok?
    ensures var r := Item(content, lines, indent, limits, depth, count);
      && SpelledItem(item, indent) == [Line(indent, content)] + lines[..r.used]
      && ProperItem(item) && ItemFits(item, limits, depth) && ItemMeans(item, r.value)
      && r.count == count + 1 + r.used <= limits.maxNodes
    decreases |lines|, 6
  {
    var rest := if content == [MINUS] then [] else content[2..];
    assert MARK == [MINUS, SPACE] && Ascii("-") == [MINUS];
    if rest == [] {
      var b := NodeIsWritten(lines, indent + 2, limits, depth + 1, count + 1);
      item := Below(content != [MINUS], b);
      assert content != [MINUS] ==> content == MARK;
    } else if StartsEntry(rest) {
      var pair := SplitMapping(rest).value;
      var v := EntryValue(pair.scalar, lines, indent + 4, limits, depth + 2, count + 1);
      var r := Tail(map[pair.key := v.value], v.used, lines[v.used..], indent, limits, depth, v.count);
      var entries, fields := CompactIsWritten(rest, v, r, lines, indent, limits, depth, count + 1);
      item := Compact(entries);
      assert content == MARK + rest;
    } else {
      ScalarIsMeant(rest, limits);
      item := Inline(rest);
      assert content == MARK + rest;
    }
  }

  lemma Alone(fields: Fields)
    ensures map[] + fields == fields
  {
  }

  /** The first entry of a compact item and those after it. */
  lemma ItemWritten(e: Entry, others: seq<Entry>, rest: Fields, content: Text, v: Result<Value>, lines: seq<Line>, used: nat,
                    indent: nat, limits: Limits, depth: nat)
    requires FirstWritten(e, content, v, lines, indent, limits, depth) && v.used + used <= |lines|
    requires Apart(rest, map[e.key := v.value])
    requires WroteEntries(others, rest, lines[v.used..][..used], indent, limits, depth)
    ensures map[e.key := v.value] + rest == rest[e.key := v.value]
    ensures WroteEntries([e] + others, rest[e.key := v.value], [Line(indent, content)] + lines[..v.used + used], indent, limits, depth)
  {
    assert e.key !in rest;
    EntryRound(e, v.value, others, rest, content, lines, v.used, used, indent, limits, depth);
  }

  lemma {:induction false} CompactIsWritten(entry: Text, v: Result<Value>, r: Result<Value>, lines: seq<Line>, indent: nat, limits: Limits,
                                            depth: nat, count: nat)
    returns (entries: seq<Entry>, fields: Fields)
    requires SplitMapping(entry).Some? && count <= limits.maxNodes
    requires v.Ok? && v == EntryValue(SplitMapping(entry).value.scalar, lines, indent + 4, limits, depth + 2, count)
    requires r.Ok? && r == Tail(map[SplitMapping(entry).value.key := v.value], v.used, lines[v.used..], indent, limits, depth, v.count)
    ensures r.value == ObjValue(fields) && r.used <= |lines| && r.count == count + r.used <= limits.maxNodes && entries != []
    ensures |entries| > 1 ==> depth + 1 <= limits.maxDepth
    ensures WroteEntries(entries, fields, [Line(indent + 2, entry)] + lines[..r.used], indent + 2, limits, depth + 1)
    decreases |lines|, 5
  {
    hide EntryValue, Tail, Proper, Fits, Means;
    var key := SplitMapping(entry).value.key;
    var e := FirstIsWritten(entry, lines, indent + 2, limits, depth + 1, count);
    var others, rest := TailIsWritten(map[key := v.value], v.used, lines[v.used..], indent, limits, depth, v.count);
    ItemWritten(e, others, rest, entry, v, lines, r.used - v.used, indent + 2, limits, depth + 1);
    entries, fields := [e] + others, rest[key := v.value];
  }

  lemma {:induction false} TailIsWritten(fields: Fields, used: nat, lines: seq<Line>, indent: nat, limits: Limits, depth: nat, count: nat)
    returns (entries: seq<Entry>, more: Fields)
    requires Tail(fields, used, lines, indent, limits, depth, count).Ok?
    ensures var r := Tail(fields, used, lines, indent, limits, depth, count);
      && r.value == ObjValue(fields + more) && Apart(more, fields) && used <= r.used <= used + |lines|
      && Counted(r.used - used, r.count, limits, count) && (entries != [] ==> depth + 1 <= limits.maxDepth)
      && WroteEntries(entries, more, lines[..r.used - used], indent + 2, limits, depth + 1)
    decreases |lines|, 3
  {
    if lines == [] || lines[0].indent != indent + 2 || Dashed(lines[0].content) {
      entries, more := [], map[];
    } else {
      entries, more := MembersAreWritten(lines, indent + 2, limits, depth + 1, count, map[]);
    }
  }

  lemma FirstLine(lines: seq<Line>, indent: nat, used: nat)
    requires lines != [] && lines[0].indent == indent && 1 <= used <= |lines|
    ensures [Line(indent, lines[0].content)] + lines[1..][..used - 1] == lines[..used]
  {
  }

  lemma {:induction false} MembersAreWritten(lines: seq<Line>, indent: nat, limits: Limits, depth: nat, count: nat, fields: Fields)
    returns (entries: seq<Entry>, more: Fields)
    requires Members(lines, indent, limits, depth, count, fields).Ok?
    ensures var r := Members(lines, indent, limits, depth, count, fields);
      && r.value == ObjValue(fields + more) && Apart(more, fields) && Counted(r.used, r.count, limits, count)
      && WroteEntries(entries, more, lines[..r.used], indent, limits, depth)
      && (r.used == 0 <==> lines == [] || lines[0].indent != indent || Dashed(lines[0].content))
    decreases |lines|, 1
  {
    if lines == [] || lines[0].indent != indent || Dashed(lines[0].content) {
      entries, more := [], map[];
    } else {
      var pair := SplitMapping(lines[0].content).value;
      var v := EntryValue(pair.scalar, lines[1..], indent + 2, limits, depth + 1, count + 1);
      var r := Members(lines[1..][v.used..], indent, limits, depth, v.count, fields[pair.key := v.value]);
      entries, more := AfterKeyIsWritten(lines[0].content, v, r, lines[1..], indent, limits, depth, count + 1, fields);
      FirstLine(lines, indent, Members(lines, indent, limits, depth, count, fields).used);
    }
  }

  /** An entry whose value has been read. */
  lemma {:induction false} FirstIsWritten(content: Text, lines: seq<Line>, indent: nat, limits: Limits, depth: nat, count: nat)
    returns (e: Entry)
    requires SplitMapping(content).Some?
    requires EntryValue(SplitMapping(content).value.scalar, lines, indent + 2, limits, depth + 1, count).Ok?
    ensures var v := EntryValue(SplitMapping(content).value.scalar, lines, indent + 2, limits, depth + 1, count);
      && FirstWritten(e, content, v, lines, indent, limits, depth) && Counted(v.used, v.count, limits, count)
    decreases |lines|, 4
  {
    var scalar := SplitMapping(content).value.scalar;
    var b := ValueIsWritten(scalar, lines, indent + 2, limits, depth + 1, count);
    e := EntryIsWritten(content, b, EntryValue(scalar, lines, indent + 2, limits, depth + 1, count), lines, indent, limits, depth, count);
  }

  predicate FirstWritten(e: Entry, content: Text, v: Result<Value>, lines: seq<Line>, indent: nat, limits: Limits, depth: nat) {
    && SplitMapping(content).Some? && e.key == SplitMapping(content).value.key && v.Ok? && v.used <= |lines|
    && SpelledEntry(e, indent) == [Line(indent, content)] + lines[..v.used]
    && ProperEntry(e) && Means(e.value, v.value) && Fits(e.value, limits, depth + 1)
  }

  /** The first entry and those after it. */
  lemma AllWritten(e: Entry, others: seq<Entry>, rest: Fields, content: Text, v: Result<Value>, lines: seq<Line>, used: nat,
                   indent: nat, limits: Limits, depth: nat, fields: Fields)
    requires FirstWritten(e, content, v, lines, indent, limits, depth) && v.used + used <= |lines|
    requires Apart(rest, fields[e.key := v.value]) && e.key !in fields
    requires WroteEntries(others, rest, lines[v.used..][..used], indent, limits, depth)
    ensures var more := rest[e.key := v.value];
      && fields[e.key := v.value] + rest == fields + more && Apart(more, fields)
      && WroteEntries([e] + others, more, [Line(indent, content)] + lines[..v.used + used], indent, limits, depth)
  {
    EntryRound(e, v.value, others, rest, content, lines, v.used, used, indent, limits, depth);
  }

  lemma {:induction false} AfterKeyIsWritten(content: Text, v: Result<Value>, r: Result<Value>, lines: seq<Line>,
                                             indent: nat, limits: Limits, depth: nat, count: nat, fields: Fields)
    returns (entries: seq<Entry>, more: Fields)
    requires SplitMapping(content).Some? && SplitMapping(content).value.key !in fields && 1 <= count <= limits.maxNodes
    requires v.Ok? && v == EntryValue(SplitMapping(content).value.scalar, lines, indent + 2, limits, depth + 1, count)
    requires r.Ok? && r == Members(lines[v.used..], indent, limits, depth, v.count, fields[SplitMapping(content).value.key := v.value])
    ensures r.value == ObjValue(fields + more) && Apart(more, fields) && r.count == count + v.used + r.used <= limits.maxNodes
    ensures WroteEntries(entries, more, [Line(indent, content)] + lines[..v.used + r.used], indent, limits, depth)
    decreases |lines|, 5
  {
    var key := SplitMapping(content).value.key;
    var e := FirstIsWritten(content, lines, indent, limits, depth, count);
    var others, rest := MembersAreWritten(lines[v.used..], indent, limits, depth, v.count, fields[key := v.value]);
    AllWritten(e, others, rest, content, v, lines, r.used, indent, limits, depth, fields);
    entries, more := [e] + others, rest[key := v.value];
  }

  /** Whatever is accepted is the writing of a block that fits the limits and means the value returned; each
      of its lines is one node. */
  lemma AcceptedIsWritten(lines: seq<Line>, limits: Limits) returns (b: Block)
    requires Document(lines, limits).Ok?
    ensures !b.Plain? && Proper(b) && Fits(b, limits, 0) && Spelled(b, 0) == lines && |lines| <= limits.maxNodes
    ensures Means(b, Document(lines, limits).value)
  {
    b := NodeIsWritten(lines, 0, limits, 0, 0);
    assert lines[..|lines|] == lines;
  }

  // ---------------------------------------------------------------- what is written is accepted

  lemma {:induction false} FirstColon(key: Text, rest: Text)
    requires COLON !in key
    ensures IndexOf(key + [COLON] + rest, COLON) == Some(|key|)
  {
    var t := key + [COLON] + rest;
    if key != [] {
      assert t[1..] == key[1..] + [COLON] + rest;
      FirstColon(key[1..], rest);
    }
  }

  lemma {:induction false} UnitsHaveNoColon(t: Text)
    requires KeyUnits(t)
    ensures COLON !in t
  {
    if t != [] {
      UnitsHaveNoColon(t[1..]);
      assert t == [t[0]] + t[1..];
    }
  }

  lemma KeyHasNoColon(key: Text)
    requires IsKey(key)
    ensures COLON !in key && !Dashed(key)
  {
    UnitsHaveNoColon(key);
  }

  lemma SplitsAt(key: Text, rest: Text)
    requires GoodKey(key) && (rest == [] || rest[0] == SPACE)
    ensures SplitMapping(key + [COLON] + rest) == Some(Pair(key, TrimStart(rest)))
  {
    KeyHasNoColon(key);
    FirstColon(key, rest);
    var t := key + [COLON] + rest;
    assert t[..|key|] == key && t[|key| + 1..] == rest;
  }

  lemma LetterFirst(t: Text)
    ensures StartsEntry(t) ==> t != [] && IsLetter(t[0])
  {
    if StartsEntry(t) {
      StartsWithLetter(t);
    }
  }

  lemma Associate<T>(a: seq<T>, b: seq<T>, c: seq<T>)
    ensures (a + b) + c == a + (b + c) && |a + b| == |a| + |b|
  {
  }

  lemma Taken<T>(own: seq<T>, after: seq<T>)
    requires own != []
    ensures var all := own + after;
      all != [] && all[0] == own[0] && all[1..] == own[1..] + after && |own[1..]| == |own| - 1
      && (own[1..] + after)[|own| - 1..] == after
  {
    var all := own + after;
    assert all[1..] == own[1..] + after;
    assert (own[1..] + after)[|own| - 1..] == after;
  }

  /** The mapping loop reads one entry on `own`, and goes on. */
  predicate MembersGoOn(own: seq<Line>, key: Text, value: Value, indent: nat, limits: Limits, depth: nat, count: nat,
                        after: seq<Line>, fields: Fields)
  {
    Members(own + after, indent, limits, depth, count, fields) ==
      After(|own|, Members(after, indent, limits, depth, count + |own|, fields[key := value]))
  }

  lemma MemberRound(own: seq<Line>, key: Text, scalar: Text, value: Value,
                    indent: nat, limits: Limits, depth: nat, count: nat, fields: Fields, after: seq<Line>)
    requires own != [] && own[0].indent == indent && !Dashed(own[0].content) && key !in fields && count + 1 <= limits.maxNodes
    requires SplitMapping(own[0].content) == Some(Pair(key, scalar))
    requires EntryValue(scalar, own[1..] + after, indent + 2, limits, depth + 1, count + 1) == Ok(value, |own| - 1, count + |own|)
    ensures MembersGoOn(own, key, value, indent, limits, depth, count, after, fields)
  {
    Taken(own, after);
  }

  /** The sequence loop reads one value on `own`, and goes on. */
  predicate ItemsGoOn(own: seq<Line>, value: Value, indent: nat, limits: Limits, depth: nat, count: nat,
                      after: seq<Line>, values: seq<Value>)
  {
    Items(own + after, indent, limits, depth, count, values) ==
      After(|own|, Items(after, indent, limits, depth, count + |own|, values + [value]))
  }

  lemma MarkedRound(own: seq<Line>, value: Value, indent: nat, limits: Limits, depth: nat, count: nat, after: seq<Line>, values: seq<Value>)
    requires own != [] && own[0].indent == indent && Dashed(own[0].content)
    requires Item(own[0].content, own[1..] + after, indent, limits, depth, count) == Ok(value, |own| - 1, count + |own|)
    ensures ItemsGoOn(own, value, indent, limits, depth, count, after, values)
  {
    Taken(own, after);
    ItemsStep(own + after, indent, limits, depth, count, values);
  }

  lemma {:induction false} UnitsAreKey(t: Text)
    requires forall i :: 0 <= i < |t| ==> 65 <= t[i] <= 90 || 97 <= t[i] <= 122 || 48 <= t[i] <= 57 || t[i] == 45 || t[i] == 95
    ensures KeyUnits(t)
  {
    if t != [] {
      UnitsAreKey(t[1..]);
    }
  }

  lemma {:induction false} GapTrimmed(gap: Text, text: Text)
    requires Space(gap) && (text == [] || !IsSpace(text[0]))
    ensures TrimStart(gap + text) == text
  {
    if gap != [] {
      assert (gap + text)[1..] == gap[1..] + text;
      GapTrimmed(gap[1..], text);
    } else {
      assert gap + text == text;
    }
  }

  function OnLine(e: Entry): Text { if e.value.Plain? then e.value.text else [] }

  /** A proper entry's line splits at its key. */
  lemma EntrySplits(e: Entry)
    requires ProperEntry(e)
    ensures SplitMapping(EntryText(e)) == Some(Pair(e.key, OnLine(e)))
    ensures !Dashed(EntryText(e)) && StartsEntry(EntryText(e)) && EntryText(e) != []
  {
    UnitsAreKey(e.key);
    var rest := e.gap + OnLine(e);
    assert EntryText(e) == e.key + [COLON] + rest by {
      assert Ascii(":") == [COLON];
    }
    GapTrimmed(e.gap, OnLine(e));
    SplitsAt(e.key, rest);
    KeyHasNoColon(e.key);
    FirstColon(e.key, rest);
    assert EntryText(e)[..|e.key|] == e.key;
  }

  lemma {:induction false} StringEndsQuoted(t: Text)
    requires ParseString(t).Done? && ParseString(t).rest == []
    ensures t != [] && t[|t| - 1] == 34
    decreases |t|
  {
    if t[0] != QUOTE {
      var rest := if t[0] == BACKSLASH then ParseEscape(t[1..]).rest else t[1..];
      assert |rest| < |t| && rest == t[|t| - |rest|..];
      StringEndsQuoted(rest);
    }
  }

  lemma NumberStarts(text: Text)
    requires ParseNumber(text).Done?
    ensures text != [] && (text[0] == 45 || 48 <= text[0] <= 57)
  {
  }

  lemma NumberIsRead(text: Text, limits: Limits)
    requires ParseNumber(text).Done? && ParseNumber(text).rest == [] && |text| <= limits.maxScalarLength
    ensures ParseScalar(text, limits) == Ok(Meaning(ParseNumber(text).value), 0, 0)
  {
    NumberStarts(text);
  }

  lemma StringIsRead(text: Text, limits: Limits)
    requires text != [] && text[0] == 34 && ParseString(text[1..]).Done? && ParseString(text[1..]).rest == []
    requires |text| <= limits.maxScalarLength
    ensures ParseScalar(text, limits) == Ok(StrValue(ParseString(text[1..]).value), 0, 0) && !ParseNumber(text).Done?
  {
    StringEndsQuoted(text[1..]);
    if ParseNumber(text).Done? {
      NumberStarts(text);
    }
  }

  /** A written scalar is read as what it means. */
  lemma ScalarIsRead(text: Text, v: Value, limits: Limits)
    requires ScalarMeans(text, v) && |text| <= limits.maxScalarLength
    ensures ParseScalar(text, limits) == Ok(v, 0, 0) && !StartsEntry(text) && text != []
  {
    Words();
    if text in {TRUE_TEXT, FALSE_TEXT, NULL_TEXT} {
      NotNumber(text);
    } else if text != [] && text[0] == 34 && ParseString(text[1..]).Done? && ParseString(text[1..]).rest == [] {
      StringIsRead(text, limits);
    } else {
      NumberStarts(text);
      NumberIsRead(text, limits);
    }
    LetterFirst(text);
  }

  lemma Words()
    ensures TRUE_TEXT == Ascii("true") && FALSE_TEXT == Ascii("false") && NULL_TEXT == Ascii("null")
  {
  }

  lemma NotNumber(text: Text)
    requires text in {TRUE_TEXT, FALSE_TEXT, NULL_TEXT}
    ensures !ParseNumber(text).Done? && COLON !in text
  {
    if ParseNumber(text).Done? {
      NumberStarts(text);
    }
  }

  /** The lines after a block do not go on with it. */
  predicate Ends(after: seq<Line>, indent: nat) { after == [] || after[0].indent < indent }

  /** A block is read from these lines as this value, all of them and a node for each. */
  predicate ReadAs(r: Result<Value>, v: Value, used: nat, limits: Limits, count: nat) { r == Ok(v, used, count + used) }

  predicate Ready(b: Block, v: Value, limits: Limits, depth: nat) {
    Proper(b) && Fits(b, limits, depth) && Means(b, v)
  }

  predicate EntriesReady(entries: seq<Entry>, fields: Fields, limits: Limits, depth: nat) {
    && ProperEntries(entries) && EntriesMean(entries, fields)
    && forall i :: 0 <= i < |entries| ==> Fits(entries[i].value, limits, depth + 1)
  }

  lemma {:induction false} ValueIsRead(e: Entry, v: Value, indent: nat, limits: Limits, depth: nat, count: nat, after: seq<Line>)
    requires ProperEntry(e) && Ready(e.value, v, limits, depth) && Ends(after, indent)
    requires count + |Spelled(e.value, indent)| <= limits.maxNodes
    ensures ReadAs(EntryValue(OnLine(e), Spelled(e.value, indent) + after, indent, limits, depth, count),
                   v, |Spelled(e.value, indent)|, limits, count)
    decreases e, 2
  {
    if e.value.Plain? {
      ScalarIsRead(e.value.text, v, limits);
    } else {
      BlockIsRead(e.value, v, indent, limits, depth, count, after);
      BlockStarts(e.value, indent);
    }
  }

  /** A block starts at its indentation, with a mark iff it is a list. */
  lemma BlockStarts(b: Block, indent: nat)
    requires Proper(b) && !b.Plain?
    ensures Spelled(b, indent) != [] && Spelled(b, indent)[0].indent == indent
    ensures Dashed(Spelled(b, indent)[0].content) <==> b.List?
  {
    if b.Keys? {
      EntrySplits(b.entries[0]);
    } else {
      ItemStarts(b.items[0], indent);
    }
  }

  lemma ItemStarts(item: Element, indent: nat)
    requires ProperItem(item)
    ensures var own := SpelledItem(item, indent);
      own != [] && own[0].indent == indent && Dashed(own[0].content)
      && (own[0].content == [MINUS] || Marked(own[0].content))
  {
    assert MARK == [MINUS, SPACE] && Ascii("-") == [MINUS];
  }

  lemma EntriesStart(entries: seq<Entry>, indent: nat, after: seq<Line>)
    requires ProperEntries(entries) && Ends(after, indent)
    ensures var lines := SpelledEntries(entries, indent) + after;
      && Ends(lines, indent + 2)
      && (lines == [] || lines[0].indent != indent || Dashed(lines[0].content) <==> entries == [])
  {
    if entries != [] {
      EntrySplits(entries[0]);
    }
  }

  lemma ItemsStart(items: seq<Element>, indent: nat, after: seq<Line>)
    requires (forall i :: 0 <= i < |items| ==> ProperItem(items[i])) && Ends(after, indent)
    ensures var lines := SpelledItems(items, indent) + after;
      && Ends(lines, indent + 2)
      && (lines == [] || lines[0].indent != indent || !Dashed(lines[0].content) <==> items == [])
  {
    if items != [] {
      ItemStarts(items[0], indent);
    }
  }

  lemma MeaningShrinks(entries: seq<Entry>, more: Fields)
    requires entries != [] && ProperEntries(entries) && EntriesMean(entries, more)
    ensures entries[0].key in more && Means(entries[0].value, more[entries[0].key])
    ensures EntriesMean(entries[1..], more - {entries[0].key})
  {
    var e, rest, others := entries[0], entries[1..], more - {entries[0].key};
    assert entries == [e] + rest;
    KeysGrow(e, rest);
    forall i | 0 <= i < |rest|
      ensures rest[i].key in others && Means(rest[i].value, others[rest[i].key])
    {
      assert rest[i] == entries[i + 1];
    }
    assert others.Keys == set i | 0 <= i < |rest| :: rest[i].key;
  }

  lemma EntriesShrink(entries: seq<Entry>, more: Fields, limits: Limits, depth: nat)
    requires entries != [] && EntriesReady(entries, more, limits, depth)
    ensures var e := entries[0];
      && e.key in more && ProperEntry(e) && Ready(e.value, more[e.key], limits, depth + 1)
      && EntriesReady(entries[1..], more - {e.key}, limits, depth)
  {
    MeaningShrinks(entries, more);
  }

  function KeysIn(entries: seq<Entry>): set<Text> { set i | 0 <= i < |entries| :: entries[i].key }

  /** Entries that are yet to be read, after `fields`, for `all` to have been read. */
  predicate Pending(entries: seq<Entry>, all: Fields, fields: Fields, limits: Limits, depth: nat) {
    && ProperEntries(entries) && all.Keys == fields.Keys + KeysIn(entries)
    && (forall k :: k in fields ==> k in all && all[k] == fields[k])
    && forall i :: 0 <= i < |entries| ==>
         entries[i].key in all && entries[i].key !in fields && Ready(entries[i].value, all[entries[i].key], limits, depth + 1)
  }

  lemma RestPending(entries: seq<Entry>, all: Fields, fields: Fields, limits: Limits, depth: nat)
    requires entries != [] && Pending(entries, all, fields, limits, depth)
    ensures var key := entries[0].key;
      && key in all && key !in fields && ProperEntry(entries[0]) && Ready(entries[0].value, all[key], limits, depth + 1)
      && Pending(entries[1..], all, fields[key := all[key]], limits, depth)
  {
    hide ProperEntry, Proper, Fits, Means;
    assert entries == [entries[0]] + entries[1..];
    KeysGrow(entries[0], entries[1..]);
  }

  lemma AllPending(entries: seq<Entry>, all: Fields, limits: Limits, depth: nat)
    requires EntriesReady(entries, all, limits, depth)
    ensures Pending(entries, all, map[], limits, depth)
  {
    forall i | 0 <= i < |entries|
      ensures entries[i].key in all && Ready(entries[i].value, all[entries[i].key], limits, depth + 1)
    {
      assert ProperEntry(entries[i]);
    }
  }

  lemma SpelledFirst(entries: seq<Entry>, indent: nat, after: seq<Line>)
    requires entries != []
    ensures var own, tail := SpelledEntry(entries[0], indent), SpelledEntries(entries[1..], indent);
      && SpelledEntries(entries, indent) + after == own + (tail + after)
      && |SpelledEntries(entries, indent)| == |own| + |tail|
  {
    Associate(SpelledEntry(entries[0], indent), SpelledEntries(entries[1..], indent), after);
  }

  lemma SpelledFirstItem(items: seq<Element>, indent: nat, after: seq<Line>)
    requires items != []
    ensures var own, tail := SpelledItem(items[0], indent), SpelledItems(items[1..], indent);
      && SpelledItems(items, indent) + after == own + (tail + after)
      && |SpelledItems(items, indent)| == |own| + |tail|
  {
    Associate(SpelledItem(items[0], indent), SpelledItems(items[1..], indent), after);
  }

  lemma Moved(fields: Fields, more: Fields, key: Text)
    requires key in more && key !in fields
    ensures fields[key := more[key]] + (more - {key}) == fields + more
    ensures Apart(more, fields) ==> Apart(more - {key}, fields[key := more[key]])
  {
  }

  /** The mapping loop reads the entries, and nothing after them. */
  predicate EntriesRead(entries: seq<Entry>, all: Fields, indent: nat, limits: Limits, depth: nat, count: nat,
                        after: seq<Line>, fields: Fields) {
    ReadAs(Members(SpelledEntries(entries, indent) + after, indent, limits, depth, count, fields),
           ObjValue(all), |SpelledEntries(entries, indent)|, limits, count)
  }

  lemma NoEntryRead(all: Fields, indent: nat, limits: Limits, depth: nat, count: nat, after: seq<Line>, fields: Fields)
    requires Pending([], all, fields, limits, depth) && Ends(after, indent)
    ensures EntriesRead([], all, indent, limits, depth, count, after, fields)
  {
    assert KeysIn([]) == {} && all == fields && [] + after == after;
  }

  lemma {:induction false} EntriesAreRead(entries: seq<Entry>, all: Fields, indent: nat, limits: Limits, depth: nat, count: nat,
                                          after: seq<Line>, fields: Fields)
    requires Pending(entries, all, fields, limits, depth) && Ends(after, indent)
    requires count + |SpelledEntries(entries, indent)| <= limits.maxNodes
    ensures EntriesRead(entries, all, indent, limits, depth, count, after, fields)
    decreases entries, 3
  {
    hide Members;
    if entries == [] {
      NoEntryRead(all, indent, limits, depth, count, after, fields);
    } else {
      var key, own := entries[0].key, SpelledEntry(entries[0], indent);
      RestPending(entries, all, fields, limits, depth);
      EntriesAreRead(entries[1..], all, indent, limits, depth, count + |own|, after, fields[key := all[key]]);
      EntryHead(entries, all[key], indent, limits, depth, count, after, fields);
      SpelledFirst(entries, indent, after);
    }
  }

  lemma {:induction false} EntryHead(entries: seq<Entry>, v: Value, indent: nat, limits: Limits, depth: nat, count: nat,
                                     after: seq<Line>, fields: Fields)
    requires entries != [] && ProperEntries(entries) && Ready(entries[0].value, v, limits, depth + 1) && Ends(after, indent)
    requires entries[0].key !in fields && count + |SpelledEntries(entries, indent)| <= limits.maxNodes
    ensures MembersGoOn(SpelledEntry(entries[0], indent), entries[0].key, v, indent, limits, depth, count,
                                   SpelledEntries(entries[1..], indent) + after, fields)
    decreases entries, 2
  {
    SpelledFirst(entries, indent, after);
    EntriesStart(entries[1..], indent, after);
    EntryIsRead(entries[0], v, indent, limits, depth, count, SpelledEntries(entries[1..], indent) + after, fields);
  }

  /** One round of the mapping loop. */
  lemma {:induction false} EntryIsRead(e: Entry, v: Value, indent: nat, limits: Limits, depth: nat, count: nat, after: seq<Line>, fields: Fields)
    requires ProperEntry(e) && Ready(e.value, v, limits, depth + 1) && Ends(after, indent + 2) && e.key !in fields
    requires count + |SpelledEntry(e, indent)| <= limits.maxNodes
    ensures MembersGoOn(SpelledEntry(e, indent), e.key, v, indent, limits, depth, count, after, fields)
    decreases e, 3
  {
    var own := SpelledEntry(e, indent);
    EntrySplits(e);
    ValueIsRead(e, v, indent + 2, limits, depth + 1, count + 1, after);
    assert own[1..] == Spelled(e.value, indent + 2);
    MemberRound(own, e.key, OnLine(e), v, indent, limits, depth, count, fields, after);
  }

  predicate ItemsReady(items: seq<Element>, values: seq<Value>, limits: Limits, depth: nat) {
    |items| == |values|
    && forall i :: 0 <= i < |items| ==> ProperItem(items[i]) && ItemFits(items[i], limits, depth) && ItemMeans(items[i], values[i])
  }

  predicate ItemsRead(items: seq<Element>, more: seq<Value>, indent: nat, limits: Limits, depth: nat, count: nat,
                      after: seq<Line>, values: seq<Value>) {
    ReadAs(Items(SpelledItems(items, indent) + after, indent, limits, depth, count, values),
           ArrValue(values + more), |SpelledItems(items, indent)|, limits, count)
  }

  lemma ItemsChain(items: seq<Element>, more: seq<Value>, indent: nat, limits: Limits, depth: nat, count: nat,
                   after: seq<Line>, values: seq<Value>)
    requires items != [] && more != []
    requires var own := SpelledItem(items[0], indent);
      && ItemsGoOn(own, more[0], indent, limits, depth, count, SpelledItems(items[1..], indent) + after, values)
      && ItemsRead(items[1..], more[1..], indent, limits, depth, count + |own|, after, values + [more[0]])
    ensures ItemsRead(items, more, indent, limits, depth, count, after, values)
  {
    SpelledFirstItem(items, indent, after);
    assert values + [more[0]] + more[1..] == values + more;
  }

  lemma {:induction false} ItemHead(items: seq<Element>, more: seq<Value>, indent: nat, limits: Limits, depth: nat, count: nat,
                                    after: seq<Line>, values: seq<Value>)
    requires items != [] && ItemsReady(items, more, limits, depth) && Ends(after, indent)
    requires count + |SpelledItems(items, indent)| <= limits.maxNodes
    ensures ItemsGoOn(SpelledItem(items[0], indent), more[0], indent, limits, depth, count,
                                 SpelledItems(items[1..], indent) + after, values)
    decreases items, 2
  {
    var tail := SpelledItems(items[1..], indent) + after;
    SpelledFirstItem(items, indent, after);
    ItemsStart(items[1..], indent, after);
    ItemStarts(items[0], indent);
    ItemIsRead(items[0], more[0], indent, limits, depth, count, tail);
    assert ItemRead(items[0], more[0], indent, limits, depth, count, tail);
    MarkedRound(SpelledItem(items[0], indent), more[0], indent, limits, depth, count, tail, values);
  }

  lemma {:induction false} ItemsAreRead(items: seq<Element>, more: seq<Value>, indent: nat, limits: Limits, depth: nat, count: nat,
                                        after: seq<Line>, values: seq<Value>)
    requires ItemsReady(items, more, limits, depth) && Ends(after, indent)
    requires count + |SpelledItems(items, indent)| <= limits.maxNodes
    ensures ItemsRead(items, more, indent, limits, depth, count, after, values)
    decreases items, 3
  {
    if items == [] {
      ItemsStart(items, indent, after);
      assert values + more == values;
    } else {
      ItemHead(items, more, indent, limits, depth, count, after, values);
      SpelledFirstItem(items, indent, after);
      ItemsAreRead(items[1..], more[1..], indent, limits, depth, count + |SpelledItem(items[0], indent)|, after, values + [more[0]]);
      ItemsChain(items, more, indent, limits, depth, count, after, values);
    }
  }

  /** An item is read from its lines. */
  predicate ItemRead(item: Element, v: Value, indent: nat, limits: Limits, depth: nat, count: nat, after: seq<Line>) {
    var own := SpelledItem(item, indent);
    own != [] && Item(own[0].content, own[1..] + after, indent, limits, depth, count) == Ok(v, |own| - 1, count + |own|)
  }

  lemma {:induction false} ItemIsRead(item: Element, v: Value, indent: nat, limits: Limits, depth: nat, count: nat, after: seq<Line>)
    requires ProperItem(item) && ItemFits(item, limits, depth) && ItemMeans(item, v) && Ends(after, indent + 2)
    requires count + |SpelledItem(item, indent)| <= limits.maxNodes
    ensures ItemRead(item, v, indent, limits, depth, count, after)
    decreases item, 3
  {
    match item
    case Inline(text) => InlineIsRead(text, v, indent, limits, depth, count, after);
    case Below(spaced, block) =>
      BlockIsRead(block, v, indent + 2, limits, depth + 1, count + 1, after);
      BlockStarts(block, indent + 2);
      BelowIsRead(spaced, block, v, indent, limits, depth, count, after);
    case Compact(entries) =>
      CompactIsRead(entries, v.fields, indent, limits, depth, count + 1, after);
      AfterMark(entries, v.fields, indent, limits, depth, count, after);
  }

  lemma InlineIsRead(text: Text, v: Value, indent: nat, limits: Limits, depth: nat, count: nat, after: seq<Line>)
    requires ScalarMeans(text, v) && |text| <= limits.maxScalarLength && count + 1 <= limits.maxNodes
    ensures ItemRead(Inline(text), v, indent, limits, depth, count, after)
  {
    ScalarIsRead(text, v, limits);
    assert MARK == [MINUS, SPACE] && (MARK + text)[2..] == text;
  }

  lemma BelowIsRead(spaced: bool, block: Block, v: Value, indent: nat, limits: Limits, depth: nat, count: nat, after: seq<Line>)
    requires var lines := Spelled(block, indent + 2);
      && lines != [] && lines[0].indent == indent + 2 && count + 1 <= limits.maxNodes
      && ReadAs(Node(lines + after, indent + 2, limits, depth + 1, count + 1), v, |lines|, limits, count + 1)
    ensures ItemRead(Below(spaced, block), v, indent, limits, depth, count, after)
  {
    assert MARK == [MINUS, SPACE] && Ascii("-") == [MINUS];
    assert SpelledItem(Below(spaced, block), indent)[1..] == Spelled(block, indent + 2);
  }

  lemma AfterMark(entries: seq<Entry>, fields: Fields, indent: nat, limits: Limits, depth: nat, count: nat, after: seq<Line>)
    requires entries != [] && ProperEntries(entries) && count + 1 <= limits.maxNodes
    requires CompactRead(entries, fields, SpelledEntries(entries, indent + 2), indent, limits, depth, count + 1, after)
    ensures ItemRead(Compact(entries), ObjValue(fields), indent, limits, depth, count, after)
  {
    EntrySplits(entries[0]);
    assert MARK == [MINUS, SPACE] && (MARK + EntryText(entries[0]))[2..] == EntryText(entries[0]);
    var own := SpelledItem(Compact(entries), indent);
    assert own[1..] == SpelledEntries(entries, indent + 2)[1..];
  }

  predicate CompactRead(entries: seq<Entry>, fields: Fields, own: seq<Line>, indent: nat, limits: Limits, depth: nat, count: nat,
                        after: seq<Line>)
    requires entries != []
  {
    own != []
    && RestrictedYaml.Compact(EntryText(entries[0]), own[1..] + after, indent, limits, depth, count)
      == Ok(ObjValue(fields), |own| - 1, count + |own| - 1)
  }

  lemma {:induction false} CompactIsRead(entries: seq<Entry>, fields: Fields, indent: nat, limits: Limits, depth: nat, count: nat,
                                         after: seq<Line>)
    requires entries != [] && EntriesReady(entries, fields, limits, depth + 1) && Ends(after, indent + 2)
    requires |entries| > 1 ==> depth + 1 <= limits.maxDepth
    requires count + |SpelledEntries(entries, indent + 2)| - 1 <= limits.maxNodes
    ensures CompactRead(entries, fields, SpelledEntries(entries, indent + 2), indent, limits, depth, count, after)
    decreases entries, 6
  {
    hide RestrictedYaml.Compact, EntryValue, Tail, Proper, Fits, Means;
    var value, others := Spelled(entries[0].value, indent + 4), SpelledEntries(entries[1..], indent + 2);
    CompactLines(entries, indent, after);
    FirstIsRead(entries, fields, indent, limits, depth, count, after);
    OthersAreRead(entries, fields, |value|, indent, limits, depth, count + |value|, after);
    CompactGoesOn(entries[0], fields[entries[0].key], value, others + after, indent, limits, depth, count);
  }

  /** The entries of a compact item after the first. */
  lemma {:induction false} OthersAreRead(entries: seq<Entry>, fields: Fields, used: nat, indent: nat, limits: Limits, depth: nat, count: nat,
                                         after: seq<Line>)
    requires entries != [] && EntriesReady(entries, fields, limits, depth + 1) && Ends(after, indent + 2)
    requires |entries| > 1 ==> depth + 1 <= limits.maxDepth
    requires count + |SpelledEntries(entries[1..], indent + 2)| <= limits.maxNodes
    ensures entries[0].key in fields
    ensures var others := SpelledEntries(entries[1..], indent + 2);
      Tail(map[entries[0].key := fields[entries[0].key]], used, others + after, indent, limits, depth, count)
        == Ok(ObjValue(fields), used + |others|, count + |others|)
    decreases entries, 5
  {
    var key := entries[0].key;
    EntriesShrink(entries, fields, limits, depth + 1);
    TailIsRead(entries[1..], fields - {key}, map[key := fields[key]], used, indent, limits, depth, count, after);
    Moved(map[], fields, key);
    Alone(fields);
  }

  /** The value of the first entry of a compact item. */
  lemma {:induction false} FirstIsRead(entries: seq<Entry>, fields: Fields, indent: nat, limits: Limits, depth: nat, count: nat,
                                       after: seq<Line>)
    requires entries != [] && EntriesReady(entries, fields, limits, depth + 1) && Ends(after, indent + 2)
    requires count + |Spelled(entries[0].value, indent + 4)| <= limits.maxNodes
    ensures ProperEntry(entries[0]) && entries[0].key in fields
    ensures var value, others := Spelled(entries[0].value, indent + 4), SpelledEntries(entries[1..], indent + 2);
      ReadAs(EntryValue(OnLine(entries[0]), value + (others + after), indent + 4, limits, depth + 2, count),
             fields[entries[0].key], |value|, limits, count)
    decreases entries, 2
  {
    EntriesShrink(entries, fields, limits, depth + 1);
    EntriesStart(entries[1..], indent + 2, after);
    ValueIsRead(entries[0], fields[entries[0].key], indent + 4, limits, depth + 2, count, SpelledEntries(entries[1..], indent + 2) + after);
  }

  lemma CompactGoesOn(e: Entry, v: Value, value: seq<Line>, tail: seq<Line>, indent: nat, limits: Limits, depth: nat, count: nat)
    requires ProperEntry(e)
    requires ReadAs(EntryValue(OnLine(e), value + tail, indent + 4, limits, depth + 2, count), v, |value|, limits, count)
    ensures RestrictedYaml.Compact(EntryText(e), value + tail, indent, limits, depth, count)
      == Tail(map[e.key := v], |value|, tail, indent, limits, depth, count + |value|)
  {
    EntrySplits(e);
    assert (value + tail)[|value|..] == tail;
  }

  lemma Grouped<T>(x: T, a: seq<T>, b: seq<T>, after: seq<T>)
    ensures (([x] + a) + b)[1..] + after == a + (b + after) && (a + (b + after))[|a|..] == b + after
    ensures |([x] + a) + b| == 1 + |a| + |b|
  {
  }

  lemma CompactLines(entries: seq<Entry>, indent: nat, after: seq<Line>)
    requires entries != []
    ensures var own := SpelledEntries(entries, indent + 2);
      var value, others := Spelled(entries[0].value, indent + 4), SpelledEntries(entries[1..], indent + 2);
      && own != [] && |own| == 1 + |value| + |others| && own[1..] + after == value + (others + after)
      && (value + (others + after))[|value|..] == others + after
  {
    Grouped(Line(indent + 2, EntryText(entries[0])), Spelled(entries[0].value, indent + 4), SpelledEntries(entries[1..], indent + 2), after);
  }

  lemma {:induction false} TailIsRead(entries: seq<Entry>, more: Fields, fields: Fields, used: nat, indent: nat, limits: Limits, depth: nat,
                                      count: nat, after: seq<Line>)
    requires EntriesReady(entries, more, limits, depth + 1) && Apart(more, fields) && Ends(after, indent + 2)
    requires entries != [] ==> depth + 1 <= limits.maxDepth
    requires count + |SpelledEntries(entries, indent + 2)| <= limits.maxNodes
    ensures var own := SpelledEntries(entries, indent + 2);
      Tail(fields, used, own + after, indent, limits, depth, count) == Ok(ObjValue(fields + more), used + |own|, count + |own|)
    decreases entries, 5
  {
    EntriesStart(entries, indent + 2, after);
    if entries == [] {
      assert fields + more == fields;
    } else {
      MappingIsRead(entries, more, indent + 2, limits, depth + 1, count, after);
      TailGoesOn(fields, more, used, SpelledEntries(entries, indent + 2) + after, |SpelledEntries(entries, indent + 2)|, indent, limits, depth, count);
    }
  }

  lemma TailGoesOn(fields: Fields, more: Fields, used: nat, lines: seq<Line>, n: nat, indent: nat, limits: Limits, depth: nat, count: nat)
    requires lines != [] && lines[0].indent == indent + 2 && !Dashed(lines[0].content) && Apart(more, fields)
    requires ReadAs(Node(lines, indent + 2, limits, depth + 1, count), ObjValue(more), n, limits, count)
    ensures Tail(fields, used, lines, indent, limits, depth, count) == Ok(ObjValue(fields + more), used + n, count + n)
  {
  }

  lemma {:induction false} MappingIsRead(entries: seq<Entry>, more: Fields, indent: nat, limits: Limits, depth: nat, count: nat, after: seq<Line>)
    requires entries != [] && depth <= limits.maxDepth && EntriesReady(entries, more, limits, depth) && Ends(after, indent)
    requires count + |SpelledEntries(entries, indent)| <= limits.maxNodes
    ensures ReadAs(Node(SpelledEntries(entries, indent) + after, indent, limits, depth, count),
                   ObjValue(more), |SpelledEntries(entries, indent)|, limits, count)
    decreases entries, 4
  {
    EntriesStart(entries, indent, after);
    AllPending(entries, more, limits, depth);
    EntriesAreRead(entries, more, indent, limits, depth, count, after, map[]);
  }

  lemma {:induction false} BlockIsRead(b: Block, v: Value, indent: nat, limits: Limits, depth: nat, count: nat, after: seq<Line>)
    requires !b.Plain? && Ready(b, v, limits, depth) && Ends(after, indent)
    requires count + |Spelled(b, indent)| <= limits.maxNodes
    ensures ReadAs(Node(Spelled(b, indent) + after, indent, limits, depth, count), v, |Spelled(b, indent)|, limits, count)
    decreases b, 1
  {
    BlockStarts(b, indent);
    match b
    case Keys(entries) =>
      MappingIsRead(entries, v.fields, indent, limits, depth, count, after);
    case List(items) =>
      ItemsAreRead(items, v.items, indent, limits, depth, count, after, []);
      assert [] + v.items == v.items;
  }

  /** The lines are a writing of the block, which fits the limits and means the value. */
  predicate Spells(b: Block, lines: seq<Line>, limits: Limits, v: Value) {
    && !b.Plain? && Proper(b) && Spelled(b, 0) == lines && Means(b, v)
    && Fits(b, limits, 0) && |lines| <= limits.maxNodes
  }

  lemma WrittenIsAccepted(b: Block, lines: seq<Line>, limits: Limits, v: Value)
    requires Spells(b, lines, limits, v)
    ensures Document(lines, limits) == Ok(v, |lines|, |lines|)
  {
    BlockIsRead(b, v, 0, limits, 0, 0, []);
    BlockStarts(b, 0);
    assert lines + [] == lines;
  }

  /** Exactly the writings of blocks that fit the limits are accepted, as what they mean. */
  lemma AcceptedIffWritten(lines: seq<Line>, limits: Limits, v: Value)
    ensures (Document(lines, limits).Ok? && Document(lines, limits).value == v) <==>
      exists b :: Spells(b, lines, limits, v)
  {
    if Document(lines, limits).Ok? && Document(lines, limits).value == v {
      var b := AcceptedIsWritten(lines, limits);
      assert Spells(b, lines, limits, v);
    }
    if b :| Spells(b, lines, limits, v) {
      WrittenIsAccepted(b, lines, limits, v);
    }
  }
}
