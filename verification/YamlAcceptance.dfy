/** Exactly which texts `parseRestrictedPolicyYaml` accepts. */
module YamlAcceptance {
  // Texts are cut into rows, rows that count are read as lines, and lines are written blocks.  Each step is
  // stated by putting texts together rather than by taking them apart.
  import opened CodeUnits
  import opened Strings
  import opened CanonicalJson
  import opened RestrictedYaml
  import opened YamlGrammar
  import opened YamlText
  import PolicyCompiler
  import Utf8

  // ---------------------------------------------------------------- rows

  /** The text has these rows, with one kind of line break throughout. */
  predicate HasRows(source: Text, rows: seq<Text>) {
    && rows != [] && (forall i :: 0 <= i < |rows| ==> 10 !in rows[i] && 13 !in rows[i])
    && (source == JoinedBy(rows, [10]) || source == JoinedBy(rows, [13, 10]))
  }

  lemma {:induction false} ReturnsAppend(a: Text, b: Text)
    ensures WithReturns(a + b) == WithReturns(a) + WithReturns(b)
  {
    if a == [] {
      assert a + b == b;
    } else {
      assert (a + b)[1..] == a[1..] + b;
      ReturnsFirst(a + b);
      ReturnsFirst(a);
      ReturnsAppend(a[1..], b);
    }
  }

  lemma {:induction false} NoNewline(t: Text)
    requires 10 !in t
    ensures WithReturns(t) == t
  {
    if t != [] {
      ReturnsFirst(t);
      NoNewline(t[1..]);
      assert t == [t[0]] + t[1..];
    }
  }

  lemma {:induction false} JoinedWithReturns(rows: seq<Text>)
    requires rows != [] && forall i :: 0 <= i < |rows| ==> 10 !in rows[i]
    ensures JoinedBy(rows, [13, 10]) == WithReturns(TextOf(rows))
  {
    NoNewline(rows[0]);
    if |rows| > 1 {
      var rest := TextOf(rows[1..]);
      ReturnsAppend(rows[0] + [NEWLINE], rest);
      ReturnsAppend(rows[0], [NEWLINE]);
      ReturnsFirst([NEWLINE]);
      JoinedWithReturns(rows[1..]);
    }
  }

  lemma {:induction false} LinesKeepUnits(t: Text)
    ensures forall i, u :: 0 <= i < |Lines(t)| && u in Lines(t)[i] ==> u in t
  {
    if t != [] {
      LinesKeepUnits(t[1..]);
      var others := Lines(t[1..]);
      LinesJoin(t[1..]);
      assert t == [t[0]] + t[1..];
      forall i, u | 0 <= i < |Lines(t)| && u in Lines(t)[i]
        ensures u in t
      {
        if t[0] == NEWLINE {
          assert i > 0 ==> Lines(t)[i] == others[i - 1];
        } else if others != [] {
          assert Lines(t)[i] == if i == 0 then [t[0]] + others[0] else others[i];
        }
      }
    }
  }

  /** Where line breaks are all `\r\n`, putting them back gives the text. */
  lemma {:induction false} ReturnsBack(t: Text)
    requires RETURN !in Replace(t, CRLF, []) && NEWLINE !in Replace(t, CRLF, [])
    ensures WithReturns(Replace(t, CRLF, [NEWLINE])) == t && RETURN !in Replace(t, CRLF, [NEWLINE])
    decreases |t|
  {
    if t != [] {
      if Begins(t, CRLF) {
        BeginsTwo(t, RETURN, NEWLINE);
        ReturnsBack(t[2..]);
        assert Replace(t, CRLF, []) == Replace(t[2..], CRLF, []);
        var more := Replace(t[2..], CRLF, [NEWLINE]);
        ReturnsFirst([NEWLINE] + more);
        assert ([NEWLINE] + more)[1..] == more && t == CRLF + t[2..];
      } else {
        assert Replace(t, CRLF, []) == [t[0]] + Replace(t[1..], CRLF, []);
        ReturnsBack(t[1..]);
        var more := Replace(t[1..], CRLF, [NEWLINE]);
        ReturnsFirst([t[0]] + more);
        assert ([t[0]] + more)[1..] == more && t == [t[0]] + t[1..];
      }
    }
  }

  lemma {:induction false} NothingToReplace(t: Text, instead: Text)
    requires !Contains(t, CRLF)
    ensures Replace(t, CRLF, instead) == t
  {
    if t != [] {
      NothingToReplace(t[1..], instead);
      assert t == [t[0]] + t[1..];
    }
  }

  lemma BreaksHaveRows(source: Text)
    requires BreaksOk(source)
    ensures HasRows(source, Rows(source))
  {
    if Contains(source, CRLF) {
      ReturnsBack(source);
      var t := Replace(source, CRLF, [NEWLINE]);
      LinesJoin(t);
      LinesKeepUnits(t);
      JoinedWithReturns(Lines(t));
    } else {
      NothingToReplace(source, []);
      NothingToReplace(source, [NEWLINE]);
      LinesJoin(source);
      LinesKeepUnits(source);
    }
  }

  lemma RowsHaveBreaks(source: Text, rows: seq<Text>)
    requires HasRows(source, rows)
    ensures BreaksOk(source) && Rows(source) == rows
  {
    TextHasRows(rows);
    JoinedWithReturns(rows);
    var t := TextOf(rows);
    ReturnsRemoved(t);
    NoReturns(t, []);
    NoReturns(t, [NEWLINE]);
  }

  /** A text can be cut into rows iff its line breaks are all of one kind, and in one way only. */
  lemma CutIntoRows(source: Text, rows: seq<Text>)
    ensures BreaksOk(source) && Rows(source) == rows <==> HasRows(source, rows)
  {
    if BreaksOk(source) {
      BreaksHaveRows(source);
    }
    if HasRows(source, rows) {
      RowsHaveBreaks(source, rows);
    }
  }

  // ---------------------------------------------------------------- lines

  /** A colon, space, and a bar or an angle bracket. */
  ghost predicate AnnouncesBlock(content: Text) {
    exists before: Text, gap: Text, mark: Unit, after: Text ::
      content == before + [58] + gap + [mark] + after && Space(gap) && mark in {124, 62}
  }

  /** Nothing in it looks like a feature of YAML that is refused. */
  ghost predicate Ordinary(content: Text) {
    && !(Ascii("---") <= content) && !(Ascii("...") <= content) && !(Ascii("%") <= content) && !(Ascii("!") <= content)
    && !(Ascii("&") <= content) && !(Ascii("*") <= content) && !(Ascii("<<:") <= content)
    && 39 !in content && 91 !in content && 123 !in content
    && !AnnouncesBlock(content)
  }

  lemma TrimmedTo(t: Text, gap: Text, rest: Text)
    requires t == gap + rest && Space(gap) && (rest == [] || !IsSpace(rest[0]))
    ensures TrimStart(t) == rest
  {
    GapTrimmed(gap, rest);
  }

  lemma BlockIsAnnounced(content: Text, i: nat)
    requires i < |content| && content[i] == COLON && StartsBlockScalar(TrimStart(content[i + 1..]))
    ensures AnnouncesBlock(content)
  {
    var gap := Trimmed(content[i + 1..]);
    var rest := TrimStart(content[i + 1..]);
    assert content == content[..i] + [58] + gap + [rest[0]] + rest[1..];
  }

  lemma AnnouncedIsFound(content: Text, before: Text, gap: Text, mark: Unit, after: Text)
    requires content == before + [58] + gap + [mark] + after && Space(gap) && mark in {124, 62}
    ensures HasBlockScalar(content)
  {
    assert content[|before|] == 58 && content[|before| + 1..] == gap + ([mark] + after);
    TrimmedTo(content[|before| + 1..], gap, [mark] + after);
  }

  lemma AnnouncedBlock(content: Text)
    ensures HasBlockScalar(content) <==> AnnouncesBlock(content)
  {
    if i :| 0 <= i < |content| && content[i] == COLON && StartsBlockScalar(TrimStart(content[i + 1..])) {
      BlockIsAnnounced(content, i);
    }
    if before: Text, gap: Text, mark: Unit, after: Text :|
         content == before + [58] + gap + [mark] + after && Space(gap) && mark in {124, 62} {
      AnnouncedIsFound(content, before, gap, mark, after);
    }
  }

  lemma BeginsIsPrefix(t: Text, start: Text)
    ensures Begins(t, start) <==> start <= t
  {
  }

  lemma OrdinaryIsSupported(content: Text)
    ensures Ordinary(content) <==> !Unsupported(content)
  {
    AnnouncedBlock(content);
    forall start
      ensures Begins(content, start) <==> start <= content
    {
      BeginsIsPrefix(content, start);
    }
  }

  /** The row is the line, indented by that much space. */
  ghost predicate IsLine(row: Text, line: Line) {
    && line.indent <= |row| && row[line.indent..] == line.content && Space(row[..line.indent])
    && line.content != [] && !IsSpace(line.content[0]) && line.content[0] != 35
    && line.indent % 2 == 0 && 9 !in row && Ordinary(line.content)
  }

  /** Space only, or space and a comment. */
  ghost predicate DoesNotCount(row: Text) {
    exists gap: Text, rest: Text :: row == gap + rest && Space(gap) && (rest == [] || rest[0] == 35)
  }

  lemma SkippedDoesNotCount(row: Text)
    ensures Skipped(row) <==> DoesNotCount(row)
  {
    if Skipped(row) {
      var gap := Trimmed(row);
    }
    if gap: Text, rest: Text :| row == gap + rest && Space(gap) && (rest == [] || rest[0] == 35) {
      TrimmedTo(row, gap, rest);
    }
  }

  lemma ReadIsLine(row: Text, line: Line)
    requires !Skipped(row) && ReadRow(row) == Some(line)
    ensures IsLine(row, line)
  {
    hide Unsupported, Ordinary;
    var gap := Trimmed(row);
    var rest := TrimStart(row);
    assert row[..|gap|] == gap && row[|gap|..] == rest;
    OrdinaryIsSupported(rest);
  }

  lemma LineIsRead(row: Text, line: Line)
    requires IsLine(row, line)
    ensures !Skipped(row) && ReadRow(row) == Some(line)
  {
    hide Unsupported, Ordinary;
    assert row == row[..line.indent] + line.content;
    TrimmedTo(row, row[..line.indent], line.content);
    OrdinaryIsSupported(line.content);
  }

  lemma RowIsLine(row: Text, line: Line)
    ensures !Skipped(row) && ReadRow(row) == Some(line) <==> IsLine(row, line)
  {
    if !Skipped(row) && ReadRow(row) == Some(line) {
      ReadIsLine(row, line);
    }
    if IsLine(row, line) {
      LineIsRead(row, line);
    }
  }

  /** These are the lines of the rows that count. */
  ghost predicate HasLines(rows: seq<Text>, lines: seq<Line>) {
    if rows == [] then lines == []
    else if DoesNotCount(rows[0]) then HasLines(rows[1..], lines)
    else lines != [] && IsLine(rows[0], lines[0]) && HasLines(rows[1..], lines[1..])
  }

  lemma {:induction false} RowsHaveLines(rows: seq<Text>, lines: seq<Line>)
    ensures ReadRows(rows) == Some(lines) <==> HasLines(rows, lines)
  {
    if rows != [] {
      SkippedDoesNotCount(rows[0]);
      if Skipped(rows[0]) {
        RowsHaveLines(rows[1..], lines);
      } else if lines != [] {
        RowIsLine(rows[0], lines[0]);
        RowsHaveLines(rows[1..], lines[1..]);
        assert [lines[0]] + lines[1..] == lines;
      }
    }
  }

  // ---------------------------------------------------------------- texts

  /** The text is written in these rows and lines, as this block. */
  ghost predicate IsWritten(source: Text, limits: TextLimits, v: Value, rows: seq<Text>, lines: seq<Line>, b: Block) {
    && HasRows(source, rows) && |rows| <= limits.maxLines && HasLines(rows, lines)
    && Spells(b, lines, limits.blocks, v)
  }

  lemma RowsAccepted(rows: seq<Text>, limits: TextLimits, lines: seq<Line>, v: Value)
    requires |rows| <= limits.maxLines && HasLines(rows, lines)
    ensures OfRows(rows, limits) == Accepted(v) <==> PolicyCompiler.PolicyJsonOk(v) && exists b :: Spells(b, lines, limits.blocks, v)
  {
    RowsHaveLines(rows, lines);
    AcceptedIffWritten(lines, limits.blocks, v);
  }

  /** A text is accepted as a value iff it is short enough, its line breaks are of one kind, the rows that count
      are lines without features that are refused, those lines are the writing of a block that fits the limits
      and means the value, and the value is I-JSON. */
  lemma AcceptedTexts(source: Text, limits: TextLimits, v: Value)
    ensures OfText(source, limits) == Accepted(v) <==>
      |Utf8.Encode(source)| <= limits.maxBytes && PolicyCompiler.PolicyJsonOk(v)
      && exists rows, lines, b :: IsWritten(source, limits, v, rows, lines, b)
  {
    if OfText(source, limits) == Accepted(v) {
      var rows := Rows(source);
      CutIntoRows(source, rows);
      var lines := ReadRows(rows).value;
      RowsHaveLines(rows, lines);
      RowsAccepted(rows, limits, lines, v);
      var b :| Spells(b, lines, limits.blocks, v);
      assert IsWritten(source, limits, v, rows, lines, b);
    }
    if |Utf8.Encode(source)| <= limits.maxBytes && PolicyCompiler.PolicyJsonOk(v)
       && exists rows, lines, b :: IsWritten(source, limits, v, rows, lines, b) {
      var rows, lines, b :| IsWritten(source, limits, v, rows, lines, b);
      CutIntoRows(source, rows);
      RowsAccepted(rows, limits, lines, v);
    }
  }
}
