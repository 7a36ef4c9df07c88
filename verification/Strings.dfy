/** What strings do: replacing and splitting. */
module Strings {
  import opened CodeUnits

  const NEWLINE: Unit := 10

  predicate Begins(t: Text, pattern: Text) {
    |pattern| <= |t| && forall i :: 0 <= i < |pattern| ==> t[i] == pattern[i]
  }

  predicate Contains(t: Text, pattern: Text) {
    Begins(t, pattern) || (t != [] && Contains(t[1..], pattern))
  }

  /** Every occurrence replaced, from the left. */
  function Replace(t: Text, pattern: Text, instead: Text): Text
    requires pattern != []
  {
    if t == [] then []
    else if Begins(t, pattern) then instead + Replace(t[|pattern|..], pattern, instead)
    else [t[0]] + Replace(t[1..], pattern, instead)
  }

  lemma BeginsOne(t: Text, a: Unit)
    ensures Begins(t, [a]) <==> t != [] && t[0] == a
  {
  }

  lemma BeginsTwo(t: Text, a: Unit, b: Unit)
    ensures Begins(t, [a, b]) <==> |t| >= 2 && t[0] == a && t[1] == b
  {
    if Begins(t, [a, b]) {
      assert t[0] == [a, b][0] && t[1] == [a, b][1];
    }
  }

  /** `text.split("\n")` */
  function Lines(t: Text): seq<Text> {
    if t == [] then [[]]
    else
      var others := Lines(t[1..]);
      if t[0] == NEWLINE then [[]] + others
      else if others == [] then [[t[0]]] else [[t[0]] + others[0]] + others[1..]
  }

  lemma {:induction false} LinesSplit(a: Text, b: Text)
    requires NEWLINE !in a
    ensures Lines(a + [NEWLINE] + b) == [a] + Lines(b)
  {
    var t := a + [NEWLINE] + b;
    if a != [] {
      assert t[1..] == a[1..] + [NEWLINE] + b;
      LinesSplit(a[1..], b);
      assert [a[0]] + a[1..] == a;
    } else {
      assert t[1..] == b;
    }
  }

  lemma {:induction false} OneLine(a: Text)
    requires NEWLINE !in a
    ensures Lines(a) == [a]
  {
    if a != [] {
      OneLine(a[1..]);
      assert [a[0]] + a[1..] == a;
    }
  }

  /** `rows.join(end)` */
  function JoinedBy(rows: seq<Text>, end: Text): Text
    requires rows != []
  {
    if |rows| == 1 then rows[0] else rows[0] + end + JoinedBy(rows[1..], end)
  }

  predicate OneLineEach(rows: seq<Text>) { forall i :: 0 <= i < |rows| ==> NEWLINE !in rows[i] }

  lemma {:induction false} LinesJoin(t: Text)
    ensures Lines(t) != [] && JoinedBy(Lines(t), [NEWLINE]) == t && OneLineEach(Lines(t))
  {
    if t != [] {
      LinesJoin(t[1..]);
      var others := Lines(t[1..]);
      assert t == [t[0]] + t[1..];
      if t[0] == NEWLINE {
        assert Lines(t)[1..] == others;
      } else {
        assert Lines(t)[1..] == others[1..];
      }
    }
  }

  lemma {:induction false} JoinedHasLines(rows: seq<Text>)
    requires rows != [] && OneLineEach(rows)
    ensures Lines(JoinedBy(rows, [NEWLINE])) == rows
  {
    if |rows| == 1 {
      OneLine(rows[0]);
    } else {
      JoinedHasLines(rows[1..]);
      LinesSplit(rows[0], JoinedBy(rows[1..], [NEWLINE]));
      assert rows == [rows[0]] + rows[1..];
    }
  }

  /** Splitting is the inverse of joining lines. */
  lemma LinesExactly(t: Text, rows: seq<Text>)
    ensures Lines(t) == rows <==> rows != [] && OneLineEach(rows) && t == JoinedBy(rows, [NEWLINE])
  {
    LinesJoin(t);
    if rows != [] && OneLineEach(rows) {
      JoinedHasLines(rows);
    }
  }
}
