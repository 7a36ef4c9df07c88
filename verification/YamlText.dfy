/** `parseRestrictedPolicyYaml` and `compileRestrictedPolicyYaml`. */
module YamlText {
  // From the text of a policy to its lines, its value and its compiled form.
  import opened CodeUnits
  import opened Strings
  import opened Numerals
  import opened CanonicalJson
  import opened CanonicalMeaning
  import opened RestrictedYaml
  import opened YamlLayout
  import YamlGrammar
  import Policy
  import PolicyCompiler
  import Utf8
  import YamlParser

  datatype TextLimits = TextLimits(maxBytes: nat, maxLines: nat, blocks: Limits)

  datatype Outcome = Accepted(value: Value) | Refused(failure: Failure) | NotPolicyJson

  const TAB: Unit := 9
  const RETURN: Unit := 13
  const HASH: Unit := 35
  const APOSTROPHE: Unit := 39

  const CRLF: Text := [RETURN, NEWLINE]

  /** What no line may start with: document markers, directives, tags, anchors, aliases and merge keys. */
  const FORBIDDEN_STARTS: set<Text> :=
    {Ascii("---"), Ascii("..."), Ascii("%"), Ascii("!"), Ascii("&"), Ascii("*"), Ascii("<<:")}

  // ---------------------------------------------------------------- lines

  /** Line breaks are all `\n` or all `\r\n`. */
  predicate BreaksOk(source: Text) {
    var others := Replace(source, CRLF, []);
    RETURN !in others && (Contains(source, CRLF) ==> NEWLINE !in others)
  }

  function Rows(source: Text): seq<Text> { Lines(Replace(source, CRLF, [NEWLINE])) }

  /** Blank, or a comment. */
  predicate Skipped(row: Text) { TrimStart(row) == [] || TrimStart(row)[0] == HASH }

  /** `/:\s*[|>]/` */
  predicate HasBlockScalar(content: Text) {
    exists i :: 0 <= i < |content| && content[i] == COLON && StartsBlockScalar(TrimStart(content[i + 1..]))
  }

  predicate StartsBlockScalar(t: Text) { t != [] && (t[0] == 124 || t[0] == 62) }

  /** The features of YAML that are refused by their looks; the ones with two signs, `${` and `{{`, hold an
      opening brace. */
  predicate Unsupported(content: Text) {
    || (exists start :: start in FORBIDDEN_STARTS && Begins(content, start))
    || APOSTROPHE in content || OPEN_BRACKET in content || OPEN_BRACE in content
    || HasBlockScalar(content)
  }

  function ReadRow(row: Text): Option<Line> {
    var indent: nat := |row| - |TrimStart(row)|;
    var content := row[indent..];
    if TAB in row || indent % 2 != 0 || Unsupported(content) then None else Some(Line(indent, content))
  }

  function Before(line: Line, lines: Option<seq<Line>>): Option<seq<Line>> {
    if lines.None? then None else Some([line] + lines.value)
  }

  /** The lines that count, if all of them can be read. */
  function ReadRows(rows: seq<Text>): Option<seq<Line>> {
    if rows == [] then Some([])
    else if Skipped(rows[0]) then ReadRows(rows[1..])
    else
      var line := ReadRow(rows[0]);
      if line.None? then None else Before(line.value, ReadRows(rows[1..]))
  }

  function Judge(r: Result<Value>): Outcome {
    if r.Err? then Refused(r.failure) else if PolicyCompiler.PolicyJsonOk(r.value) then Accepted(r.value) else NotPolicyJson
  }

  function OfRows(rows: seq<Text>, limits: TextLimits): Outcome {
    if |rows| > limits.maxLines then Refused(LimitExceeded)
    else
      var lines := ReadRows(rows);
      if lines.None? then Refused(InvalidYaml) else Judge(Document(lines.value, limits.blocks))
  }

  /** `parseRestrictedPolicyYaml` */
  function OfText(source: Text, limits: TextLimits): Outcome {
    if |Utf8.Encode(source)| > limits.maxBytes then Refused(LimitExceeded)
    else if !BreaksOk(source) then Refused(InvalidYaml)
    else OfRows(Rows(source), limits)
  }

  /** `compileRestrictedPolicyYaml`, without its diagnostics. */
  function CompileText(p: Policy.Patterns, source: Text, limits: TextLimits): Option<Policy.PolicySet> {
    var parsed := OfText(source, limits);
    if parsed.Accepted? then PolicyCompiler.Compile(p, parsed.value) else None
  }

  // ---------------------------------------------------------------- the loop over the rows

  /** What the loop will have collected, after `lines`. */
  function Behind(lines: seq<Line>, more: Option<seq<Line>>): Option<seq<Line>> {
    if more.None? then None else Some(lines + more.value)
  }

  lemma RowRound(rows: seq<Text>, index: nat, lines: seq<Line>)
    requires index < |rows|
    ensures Behind(lines, ReadRows(rows[index..])) ==
      if Skipped(rows[index]) then Behind(lines, ReadRows(rows[index + 1..]))
      else if ReadRow(rows[index]).None? then None
      else Behind(lines + [ReadRow(rows[index]).value], ReadRows(rows[index + 1..]))
  {
    assert rows[index..][0] == rows[index] && rows[index..][1..] == rows[index + 1..];
    var more := ReadRows(rows[index + 1..]);
    if more.Some? && ReadRow(rows[index]).Some? {
      var line := ReadRow(rows[index]).value;
      assert lines + ([line] + more.value) == lines + [line] + more.value;
    }
  }

  lemma BehindNothing(more: Option<seq<Line>>)
    ensures Behind([], more) == more
  {
    if more.Some? {
      assert [] + more.value == more.value;
    }
  }

  /** The part of `parseRestrictedPolicyYaml` that reads the lines. */
  method ReadLines(rows: seq<Text>) returns (r: Option<seq<Line>>)
    ensures r == ReadRows(rows)
  {
    var lines: seq<Line> := [];
    var index := 0;
    assert rows[0..] == rows;
    BehindNothing(ReadRows(rows));
    while index < |rows|
      invariant 0 <= index <= |rows|
      invariant Behind(lines, ReadRows(rows[index..])) == ReadRows(rows)
    {
      RowRound(rows, index, lines);
      if !Skipped(rows[index]) {
        var line := ReadRow(rows[index]);
        if line.None? {
          return None;
        }
        lines := lines + [line.value];
      }
      index := index + 1;
    }
    assert lines + [] == lines;
    r := Some(lines);
  }

  method ParseText(source: Text, limits: TextLimits) returns (r: Outcome)
    ensures r == OfText(source, limits)
  {
    if |Utf8.Encode(source)| > limits.maxBytes {
      return Refused(LimitExceeded);
    }
    var withoutCrLf := Replace(source, CRLF, []);
    if RETURN in withoutCrLf || (Contains(source, CRLF) && NEWLINE in withoutCrLf) {
      return Refused(InvalidYaml);
    }
    var rawLines := Lines(Replace(source, CRLF, [NEWLINE]));
    if |rawLines| > limits.maxLines {
      return Refused(LimitExceeded);
    }
    var lines := ReadLines(rawLines);
    if lines.None? {
      return Refused(InvalidYaml);
    }
    var parsed := YamlParser.ParseDocument(lines.value, limits.blocks);
    if parsed.Err? {
      return Refused(parsed.failure);
    }
    r := if PolicyCompiler.PolicyJsonOk(parsed.value) then Accepted(parsed.value) else NotPolicyJson;
  }

  // ---------------------------------------------------------------- line ends

  /** The same text with `\r\n` for `\n`. */
  function WithReturns(t: Text): Text { Replace(t, [NEWLINE], CRLF) }

  lemma {:induction false} NoReturns(t: Text, instead: Text)
    requires RETURN !in t
    ensures Replace(t, CRLF, instead) == t && !Contains(t, CRLF)
  {
    BeginsTwo(t, RETURN, NEWLINE);
    if t != [] {
      NoReturns(t[1..], instead);
      assert [t[0]] + t[1..] == t;
    }
  }

  lemma ReturnsFirst(t: Text)
    requires t != []
    ensures WithReturns(t) == (if t[0] == NEWLINE then CRLF else [t[0]]) + WithReturns(t[1..])
  {
    BeginsOne(t, NEWLINE);
  }

  lemma BreakTaken(t: Text, instead: Text)
    ensures Replace(CRLF + t, CRLF, instead) == instead + Replace(t, CRLF, instead)
  {
    BeginsTwo(CRLF + t, RETURN, NEWLINE);
    assert (CRLF + t)[2..] == t;
  }

  lemma OtherCopied(u: Unit, t: Text, instead: Text)
    requires u != RETURN
    ensures Replace([u] + t, CRLF, instead) == [u] + Replace(t, CRLF, instead)
  {
    BeginsTwo([u] + t, RETURN, NEWLINE);
    assert ([u] + t)[1..] == t;
  }

  lemma {:induction false} ReturnsRemoved(t: Text)
    requires RETURN !in t
    ensures Replace(WithReturns(t), CRLF, [NEWLINE]) == t
    ensures RETURN !in Replace(WithReturns(t), CRLF, []) && NEWLINE !in Replace(WithReturns(t), CRLF, [])
  {
    if t != [] {
      ReturnsRemoved(t[1..]);
      ReturnsFirst(t);
      var others := WithReturns(t[1..]);
      assert [t[0]] + t[1..] == t;
      if t[0] == NEWLINE {
        BreakTaken(others, [NEWLINE]);
        BreakTaken(others, []);
      } else {
        OtherCopied(t[0], others, [NEWLINE]);
        OtherCopied(t[0], others, []);
      }
    }
  }

  /** Line ends do not matter: apart from the byte limit, a text with `\r\n` throughout is parsed as the
      text with `\n` throughout, errors included. */
  lemma LineEndsDoNotMatter(t: Text, limits: TextLimits)
    requires RETURN !in t
    requires |Utf8.Encode(t)| <= limits.maxBytes && |Utf8.Encode(WithReturns(t))| <= limits.maxBytes
    ensures OfText(WithReturns(t), limits) == OfText(t, limits) == OfRows(Lines(t), limits)
  {
    ReturnsRemoved(t);
    NoReturns(t, []);
    NoReturns(t, [NEWLINE]);
  }

  // ---------------------------------------------------------------- comments and blank lines

  /** The rows that count. */
  function Kept(rows: seq<Text>): seq<Text> {
    if rows == [] then [] else if Skipped(rows[0]) then Kept(rows[1..]) else [rows[0]] + Kept(rows[1..])
  }

  /** Comments and blank lines may stand anywhere. */
  lemma {:induction false} SkippedRowsDoNotMatter(rows: seq<Text>)
    ensures ReadRows(Kept(rows)) == ReadRows(rows)
  {
    if rows != [] {
      SkippedRowsDoNotMatter(rows[1..]);
      if !Skipped(rows[0]) {
        assert Kept(rows)[1..] == Kept(rows[1..]);
      }
    }
  }

  // ---------------------------------------------------------------- laid-out text

  function Blanks(n: nat): (t: Text)
    ensures |t| == n
  {
    if n == 0 then [] else [SPACE] + Blanks(n - 1)
  }

  function RowOf(line: Line): Text { Blanks(line.indent) + line.content }

  function RowsOf(lines: seq<Line>): seq<Text> {
    if lines == [] then [] else [RowOf(lines[0])] + RowsOf(lines[1..])
  }

  /** `rows.join("\n")` */
  function TextOf(rows: seq<Text>): Text
    requires rows != []
  {
    JoinedBy(rows, [NEWLINE])
  }

  predicate IsRow(row: Text) { NEWLINE !in row && RETURN !in row }

  lemma {:induction false} TextHasRows(rows: seq<Text>)
    requires rows != [] && forall i :: 0 <= i < |rows| ==> IsRow(rows[i])
    ensures Lines(TextOf(rows)) == rows && RETURN !in TextOf(rows)
  {
    if |rows| == 1 {
      OneLine(rows[0]);
    } else {
      TextHasRows(rows[1..]);
      LinesSplit(rows[0], TextOf(rows[1..]));
    }
  }

  /** A line as the layout writes it: evenly indented, and its content starts at once. */
  predicate Neat(line: Line) {
    && line.indent % 2 == 0 && line.content != []
    && !IsSpace(line.content[0]) && line.content[0] != HASH && Visible(line.content)
  }

  predicate AllNeat(lines: seq<Line>) { forall i :: 0 <= i < |lines| ==> Neat(lines[i]) }

  lemma {:induction false} BlanksTrimmed(n: nat, content: Text)
    requires content != [] && !IsSpace(content[0])
    ensures TrimStart(Blanks(n) + content) == content
  {
    if n == 0 {
      assert [] + content == content;
    } else {
      assert (Blanks(n) + content)[1..] == Blanks(n - 1) + content;
      BlanksTrimmed(n - 1, content);
    }
  }

  lemma {:induction false} BlanksAreBlank(n: nat)
    ensures forall i :: 0 <= i < n ==> Blanks(n)[i] == SPACE
  {
    if n > 0 {
      BlanksAreBlank(n - 1);
    }
  }

  lemma NeatRow(line: Line)
    requires Neat(line)
    ensures !Skipped(RowOf(line))
    ensures ReadRow(RowOf(line)) == if Unsupported(line.content) then None else Some(line)
  {
    BlanksTrimmed(line.indent, line.content);
    BlanksAreBlank(line.indent);
    assert RowOf(line)[line.indent..] == line.content;
  }

  /** The features of YAML that are refused do not occur. */
  predicate Supported(lines: seq<Line>) { forall i :: 0 <= i < |lines| ==> !Unsupported(lines[i].content) }

  lemma {:induction false} NeatRowsRead(lines: seq<Line>)
    requires AllNeat(lines)
    ensures ReadRows(RowsOf(lines)) == if Supported(lines) then Some(lines) else None
  {
    if lines != [] {
      NeatRow(lines[0]);
      NeatRowsRead(lines[1..]);
      ReadsFirst(RowOf(lines[0]), RowsOf(lines[1..]));
      SupportedFirst(lines);
    }
  }

  lemma ReadsFirst(row: Text, rows: seq<Text>)
    requires !Skipped(row)
    ensures ReadRows([row] + rows) == if ReadRow(row).None? then None else Before(ReadRow(row).value, ReadRows(rows))
  {
    assert ([row] + rows)[1..] == rows;
  }

  lemma SupportedFirst(lines: seq<Line>)
    requires lines != []
    ensures Supported(lines) <==> !Unsupported(lines[0].content) && Supported(lines[1..])
    ensures [lines[0]] + lines[1..] == lines
  {
    if !Unsupported(lines[0].content) && Supported(lines[1..]) {
      forall i | 0 <= i < |lines|
        ensures !Unsupported(lines[i].content)
      {
        assert i > 0 ==> lines[i] == lines[1..][i - 1];
      }
    }
  }

  // ---------------------------------------------------------------- the layout is neat

  lemma {:induction false} KeyIsVisible(t: Text)
    requires KeyUnits(t)
    ensures Visible(t)
  {
    if t != [] {
      KeyIsVisible(t[1..]);
      assert t == [t[0]] + t[1..];
    }
  }

  lemma AppendIsVisible(a: Text, b: Text)
    requires Visible(a) && Visible(b)
    ensures Visible(a + b)
  {
  }

  lemma EntryIsNeat(key: Text, t: Tree, indent: nat)
    requires YamlGrammar.GoodKey(key) && indent % 2 == 0
    ensures Neat(LayEntry(key, t, indent)[0])
  {
    KeyIsVisible(key);
    if t.Leaf? {
      ScalarIsVisible(t.v);
      AppendIsVisible(key, [COLON, SPACE]);
      AppendIsVisible(key + [COLON, SPACE], Scalar(t.v));
    } else {
      AppendIsVisible(key, [COLON]);
    }
  }

  lemma ItemIsNeat(t: Tree, indent: nat)
    requires indent % 2 == 0
    ensures Neat(LayItem(t, indent)[0])
  {
    if t.Leaf? {
      ScalarIsVisible(t.v);
      AppendIsVisible(COMPACT_MARK, Scalar(t.v));
    }
  }

  lemma {:induction false} LayoutIsNeat(t: Tree, indent: nat)
    requires Sound(t) && indent % 2 == 0
    ensures AllNeat(LayOut(t, indent))
    decreases t, 0
  {
    match t
    case Leaf(_) =>
    case Mapping(entries) => EntriesAreNeat(entries, indent);
    case Sequence(items) => ItemsAreNeat(items, indent);
  }

  lemma AppendIsNeat(a: seq<Line>, b: seq<Line>)
    requires AllNeat(a) && AllNeat(b)
    ensures AllNeat(a + b)
  {
  }

  lemma {:induction false} EntriesAreNeat(entries: seq<Keyed<Tree>>, indent: nat)
    requires forall i :: 0 <= i < |entries| ==> YamlGrammar.GoodKey(entries[i].key) && Sound(entries[i].value)
    requires indent % 2 == 0
    ensures AllNeat(LayEntries(entries, indent))
    decreases entries, 0
  {
    if entries != [] {
      var key, t := entries[0].key, entries[0].value;
      EntryIsNeat(key, t, indent);
      LayoutIsNeat(t, indent + 2);
      AppendIsNeat([LayEntry(key, t, indent)[0]], if t.Leaf? then [] else LayOut(t, indent + 2));
      EntriesAreNeat(entries[1..], indent);
      AppendIsNeat(LayEntry(key, t, indent), LayEntries(entries[1..], indent));
    }
  }

  lemma {:induction false} ItemsAreNeat(items: seq<Tree>, indent: nat)
    requires forall i :: 0 <= i < |items| ==> Sound(items[i])
    requires indent % 2 == 0
    ensures AllNeat(LayItems(items, indent))
    decreases items, 0
  {
    if items != [] {
      ItemIsNeat(items[0], indent);
      LayoutIsNeat(items[0], indent + 2);
      AppendIsNeat([LayItem(items[0], indent)[0]], if items[0].Leaf? then [] else LayOut(items[0], indent + 2));
      ItemsAreNeat(items[1..], indent);
      AppendIsNeat(LayItem(items[0], indent), LayItems(items[1..], indent));
    }
  }

  // ---------------------------------------------------------------- the whole text

  /** A text that lays a tree out, with comments and blank lines anywhere. */
  predicate Writes(rows: seq<Text>, t: Tree) {
    && rows != [] && (forall i :: 0 <= i < |rows| ==> IsRow(rows[i]))
    && Kept(rows) == RowsOf(LayOut(t, 0))
  }

  /** The limits leave room for a text with these rows, with either kind of line end. */
  predicate Within(rows: seq<Text>, t: Tree, limits: TextLimits)
    requires rows != []
  {
    && |Utf8.Encode(TextOf(rows))| <= limits.maxBytes && |Utf8.Encode(WithReturns(TextOf(rows)))| <= limits.maxBytes
    && |rows| <= limits.maxLines
    && Fits(t, limits.blocks, 0) && |LayOut(t, 0)| <= limits.blocks.maxNodes
  }

  /** What a laid-out tree must parse to. */
  function Verdict(t: Tree): Outcome {
    if !Supported(LayOut(t, 0)) then Refused(InvalidYaml)
    else if PolicyCompiler.PolicyJsonOk(TreeValue(t)) then Accepted(TreeValue(t))
    else NotPolicyJson
  }

  /** A text that lays out a tree, comments and blank lines anywhere and with either kind of line end, is
      accepted as exactly the value the tree says; it is refused iff one of its lines looks like a feature
      that is not supported, or a string in it has a lone surrogate. */
  lemma TextParses(rows: seq<Text>, t: Tree, limits: TextLimits)
    requires Sound(t) && !t.Leaf? && Writes(rows, t) && Within(rows, t, limits)
    ensures OfText(TextOf(rows), limits) == OfText(WithReturns(TextOf(rows)), limits) == Verdict(t)
  {
    TextHasRows(rows);
    LineEndsDoNotMatter(TextOf(rows), limits);
    SkippedRowsDoNotMatter(rows);
    LayoutIsNeat(t, 0);
    NeatRowsRead(LayOut(t, 0));
    DocumentParses(t, limits.blocks);
  }

  /** A policy's text compiles to what its value compiles to, whenever it has no unsupported feature. */
  lemma TextCompiles(p: Policy.Patterns, rows: seq<Text>, t: Tree, limits: TextLimits)
    requires Sound(t) && !t.Leaf? && Writes(rows, t) && Within(rows, t, limits)
    ensures CompileText(p, TextOf(rows), limits) == CompileText(p, WithReturns(TextOf(rows)), limits)
    ensures CompileText(p, TextOf(rows), limits) ==
      if Supported(LayOut(t, 0)) then PolicyCompiler.Compile(p, TreeValue(t)) else None
  {
    TextParses(rows, t, limits);
  }
}
