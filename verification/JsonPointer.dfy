/** JSON Pointers (RFC 6901). */
module JsonPointer {
  // As `pointer` writes them and `json_pointer` reads them (sections 3 and 4 of RFC 6901).
  import opened CodeUnits
  import opened Numerals
  import opened CanonicalJson
  import opened Strings

  const TILDE: Unit := 126
  const SLASH: Unit := 47
  const HASH: Unit := 35
  const ZERO: Unit := 48
  const ONE: Unit := 49

  /** One step of a path: a key of an object, or an index of an array. */
  datatype Step = Key(key: Text) | Index(index: nat)

  datatype Result<+T> = Ok(value: T) | KeyError | IndexError | ValueError | TypeError

  // ---------------------------------------------------------------- text

  /** `text.split("/")` */
  function Split(t: Text): (r: seq<Text>)
    ensures r != []
  {
    if t == [] then [[]]
    else
      var others := Split(t[1..]);
      if t[0] == SLASH then [[]] + others else [[t[0]] + others[0]] + others[1..]
  }

  /** `"/".join(tokens)` */
  function JoinTokens(tokens: seq<Text>): Text {
    if tokens == [] then [] else if |tokens| == 1 then tokens[0] else tokens[0] + [SLASH] + JoinTokens(tokens[1..])
  }

  function Escape(t: Text): Text { Replace(Replace(t, [TILDE], [TILDE, ZERO]), [SLASH], [TILDE, ONE]) }

  function Unescape(t: Text): Text { Replace(Replace(t, [TILDE, ONE], [SLASH]), [TILDE, ZERO], [TILDE]) }

  /** `str(value)` */
  function StepText(s: Step): Text { if s.Key? then s.key else Decimal(s.index) }

  function StepTexts(path: seq<Step>): (r: seq<Text>)
    ensures |r| == |path| && forall i :: 0 <= i < |r| ==> r[i] == StepText(path[i])
  {
    seq(|path|, i requires 0 <= i < |path| => StepText(path[i]))
  }

  function Escapes(texts: seq<Text>): (r: seq<Text>)
    ensures |r| == |texts| && forall i :: 0 <= i < |r| ==> r[i] == Escape(texts[i])
  {
    seq(|texts|, i requires 0 <= i < |texts| => Escape(texts[i]))
  }

  // ---------------------------------------------------------------- the writer

  function PointerOf(path: seq<Step>): Text {
    if path == [] then [] else [SLASH] + JoinTokens(Escapes(StepTexts(path)))
  }

  /** `pointer` */
  method Pointer(path: seq<Step>) returns (r: Text)
    ensures r == PointerOf(path)
  {
    var tokens: seq<Text> := [];
    var i := 0;
    while i < |path|
      invariant 0 <= i <= |path| && tokens == Escapes(StepTexts(path))[..i]
    {
      var token := Replace(Replace(StepText(path[i]), [TILDE], [TILDE, ZERO]), [SLASH], [TILDE, ONE]);
      tokens := tokens + [token];
      i := i + 1;
    }
    assert tokens == Escapes(StepTexts(path));
    r := if |tokens| > 0 then [SLASH] + JoinTokens(tokens) else [];
  }

  // ---------------------------------------------------------------- the reader

  /** What `int` makes of a text, `None` where it raises; also texts with blanks, signs or underscores may
      denote integers. */
  type IntReader = Text -> Option<int>

  /** `int(str(i)) == i` */
  ghost predicate ReadsDecimals(toInt: IntReader) {
    forall i: nat :: toInt(Decimal(i)) == Some(i)
  }

  /** A reader of plain decimal text. */
  function IntOf(token: Text): Option<int> {
    var negative := token != [] && token[0] == MINUS;
    var digits := if negative then token[1..] else token;
    if digits == [] || ParseDigits(digits, 0).1 != [] then None
    else
      var n: int := ParseDigits(digits, 0).0;
      Some(if negative then -n else n)
  }

  lemma PlainReaderReads()
    ensures ReadsDecimals(IntOf)
  {
    forall i: nat
      ensures IntOf(Decimal(i)) == Some(i)
    {
      DigitsRead(i, []);
      assert Decimal(i) + [] == Decimal(i);
    }
  }

  /** `value[int(token)] if isinstance(value, list) else value[token]` */
  function Descend(toInt: IntReader, value: Value, token: Text): Result<Value> {
    match value
    case ArrValue(items) =>
      var n := toInt(token);
      if n.None? then ValueError
      else
        var i := if n.value < 0 then n.value + |items| else n.value;
        if 0 <= i < |items| then Ok(items[i]) else IndexError
    case ObjValue(fields) => if token in fields then Ok(fields[token]) else KeyError
    case _ => TypeError
  }

  /** The token loop, from a value on. */
  function DescendAll(toInt: IntReader, value: Value, tokens: seq<Text>): Result<Value> {
    if tokens == [] then Ok(value)
    else
      var next := Descend(toInt, value, Unescape(tokens[0]));
      if next.Ok? then DescendAll(toInt, next.value, tokens[1..]) else next
  }

  function Resolve(toInt: IntReader, document: Value, ref: Text): Result<Value> {
    var raw := if ref != [] && ref[0] == HASH then ref[1..] else ref;
    if raw == [] then Ok(document)
    else if raw[0] != SLASH then KeyError
    else DescendAll(toInt, document, Split(raw[1..]))
  }

  /** `json_pointer` */
  method ResolvePointer(toInt: IntReader, document: Value, ref: Text) returns (r: Result<Value>)
    ensures r == Resolve(toInt, document, ref)
  {
    var raw := if ref != [] && ref[0] == HASH then ref[1..] else ref;
    if raw == [] {
      return Ok(document);
    }
    if raw[0] != SLASH {
      return KeyError;
    }
    var value := document;
    var tokens := Split(raw[1..]);
    var i := 0;
    assert tokens[0..] == tokens;
    while i < |tokens|
      invariant 0 <= i <= |tokens|
      invariant DescendAll(toInt, document, tokens) == DescendAll(toInt, value, tokens[i..])
    {
      assert tokens[i..][0] == tokens[i] && tokens[i..][1..] == tokens[i + 1..];
      var token := Replace(Replace(tokens[i], [TILDE, ONE], [SLASH]), [TILDE, ZERO], [TILDE]);
      var next := Descend(toInt, value, token);
      if !next.Ok? {
        return next;
      }
      value := next.value;
      i := i + 1;
    }
    r := Ok(value);
  }

  // ---------------------------------------------------------------- escaping and splitting undo each other

  function EscapedUnit(u: Unit): Text {
    if u == TILDE then [TILDE, ZERO] else if u == SLASH then [TILDE, ONE] else [u]
  }

  lemma Regroup(a: Text, b: Text, c: Text)
    ensures a + (b + c) == a + b + c
  {
  }

  lemma {:induction false} ReplaceUnit(a: Text, b: Text, u: Unit, instead: Text)
    ensures Replace(a + b, [u], instead) == Replace(a, [u], instead) + Replace(b, [u], instead)
  {
    if a == [] {
      assert a + b == b;
    } else {
      assert (a + b)[1..] == a[1..] + b;
      ReplaceUnit(a[1..], b, u, instead);
      BeginsOne(a, u);
      BeginsOne(a + b, u);
      Regroup(if a[0] == u then instead else [a[0]], Replace(a[1..], [u], instead), Replace(b, [u], instead));
    }
  }

  /** Escaping goes unit by unit. */
  lemma EscapesFirst(t: Text)
    requires t != []
    ensures Escape(t) == EscapedUnit(t[0]) + Escape(t[1..])
  {
    var u := t[0];
    BeginsOne(t, TILDE);
    var first := if u == TILDE then [TILDE, ZERO] else [u];
    assert Replace(t, [TILDE], [TILDE, ZERO]) == first + Replace(t[1..], [TILDE], [TILDE, ZERO]);
    ReplaceUnit(first, Replace(t[1..], [TILDE], [TILDE, ZERO]), SLASH, [TILDE, ONE]);
    OneReplaced(first, u);
  }

  lemma OneReplaced(first: Text, u: Unit)
    requires first == if u == TILDE then [TILDE, ZERO] else [u]
    ensures Replace(first, [SLASH], [TILDE, ONE]) == EscapedUnit(u)
  {
    BeginsOne(first, SLASH);
    if u == TILDE {
      BeginsOne([ZERO], SLASH);
      assert first[1..] == [ZERO] && [ZERO][1..] == [];
      assert Replace([ZERO], [SLASH], [TILDE, ONE]) == [ZERO] + Replace([], [SLASH], [TILDE, ONE]);
    } else {
      assert first[1..] == [];
    }
  }

  /** A unit that starts no pattern is copied. */
  lemma Copied(u: Unit, t: Text, second: Unit, instead: Text)
    requires u == TILDE ==> t == [] || t[0] != second
    ensures Replace([u] + t, [TILDE, second], instead) == [u] + Replace(t, [TILDE, second], instead)
  {
    BeginsTwo([u] + t, TILDE, second);
    assert ([u] + t)[1..] == t;
  }

  lemma Taken(t: Text, second: Unit, instead: Text)
    ensures Replace([TILDE, second] + t, [TILDE, second], instead) == instead + Replace(t, [TILDE, second], instead)
  {
    BeginsTwo([TILDE, second] + t, TILDE, second);
    assert ([TILDE, second] + t)[2..] == t;
  }

  lemma UnescapeFirst(u: Unit, rest: Text)
    ensures Unescape(EscapedUnit(u) + rest) == [u] + Unescape(rest)
  {
    var inner := Replace(rest, [TILDE, ONE], [SLASH]);
    if u == TILDE {
      assert [TILDE, ZERO] + rest == [TILDE] + ([ZERO] + rest);
      Copied(TILDE, [ZERO] + rest, ONE, [SLASH]);
      Copied(ZERO, rest, ONE, [SLASH]);
      assert [TILDE] + ([ZERO] + inner) == [TILDE, ZERO] + inner;
      Taken(inner, ZERO, [TILDE]);
    } else if u == SLASH {
      Taken(rest, ONE, [SLASH]);
      Copied(SLASH, inner, ZERO, [TILDE]);
    } else {
      Copied(u, rest, ONE, [SLASH]);
      Copied(u, inner, ZERO, [TILDE]);
    }
  }

  /** Unescaping undoes escaping, and escaped text has no slash to split at. */
  lemma {:induction false} UnescapeEscape(t: Text)
    ensures Unescape(Escape(t)) == t && SLASH !in Escape(t)
  {
    if t != [] {
      UnescapeEscape(t[1..]);
      EscapesFirst(t);
      UnescapeFirst(t[0], Escape(t[1..]));
      assert [t[0]] + t[1..] == t;
    }
  }

  lemma {:induction false} SplitFirst(token: Text, rest: Text)
    requires SLASH !in token
    ensures Split(token + [SLASH] + rest) == [token] + Split(rest)
  {
    var t := token + [SLASH] + rest;
    if token != [] {
      assert t[1..] == token[1..] + [SLASH] + rest;
      SplitFirst(token[1..], rest);
      assert [token[0]] + token[1..] == token;
    } else {
      assert t[1..] == rest;
    }
  }

  lemma {:induction false} SplitOne(token: Text)
    requires SLASH !in token
    ensures Split(token) == [token]
  {
    if token != [] {
      SplitOne(token[1..]);
      assert [token[0]] + token[1..] == token;
    }
  }

  /** Splitting undoes joining. */
  lemma {:induction false} SplitJoin(tokens: seq<Text>)
    requires tokens != [] && forall i :: 0 <= i < |tokens| ==> SLASH !in tokens[i]
    ensures Split(JoinTokens(tokens)) == tokens
  {
    if |tokens| == 1 {
      SplitOne(tokens[0]);
    } else {
      SplitJoin(tokens[1..]);
      SplitFirst(tokens[0], JoinTokens(tokens[1..]));
    }
  }

  // ---------------------------------------------------------------- following a path

  /** The value a path leads to, if it leads anywhere. */
  function Follow(document: Value, path: seq<Step>): Option<Value> {
    if path == [] then Some(document)
    else
      match path[0]
      case Key(k) => if document.ObjValue? && k in document.fields then Follow(document.fields[k], path[1..]) else None
      case Index(i) => if document.ArrValue? && i < |document.items| then Follow(document.items[i], path[1..]) else None
  }

  /** A step goes from a value to the one under its key, or at its index. */
  predicate Goes(v: Value, step: Step, w: Value) {
    match step
    case Key(k) => v.ObjValue? && k in v.fields && w == v.fields[k]
    case Index(i) => v.ArrValue? && i < |v.items| && w == v.items[i]
  }

  predicate Passes(path: seq<Step>, values: seq<Value>) {
    |values| == |path| + 1 && forall i :: 0 <= i < |path| ==> Goes(values[i], path[i], values[i + 1])
  }

  lemma PassesOn(document: Value, path: seq<Step>, values: seq<Value>)
    requires path != [] && values != [] && Goes(document, path[0], values[0]) && Passes(path[1..], values)
    ensures Passes(path, [document] + values)
  {
    hide Goes;
    var all := [document] + values;
    forall i | 0 <= i < |path|
      ensures Goes(all[i], path[i], all[i + 1])
    {
      assert i > 0 ==> path[i] == path[1..][i - 1] && Goes(values[i - 1], path[1..][i - 1], values[i]);
    }
  }

  lemma PassesTail(path: seq<Step>, values: seq<Value>)
    requires path != [] && Passes(path, values)
    ensures Goes(values[0], path[0], values[1]) && Passes(path[1..], values[1..])
  {
    hide Goes;
  }

  lemma FollowsFirst(document: Value, path: seq<Step>)
    requires path != []
    ensures forall w :: Goes(document, path[0], w) ==> Follow(document, path) == Follow(w, path[1..])
    ensures Follow(document, path).Some? ==> exists w :: Goes(document, path[0], w)
  {
    if Follow(document, path).Some? {
      var w := match path[0] case Key(k) => document.fields[k] case Index(i) => document.items[i];
      assert Goes(document, path[0], w);
    }
  }

  lemma {:induction false} ValuesPassed(document: Value, path: seq<Step>) returns (values: seq<Value>)
    requires Follow(document, path).Some?
    ensures Passes(path, values) && values[0] == document && Some(values[|path|]) == Follow(document, path)
    decreases |path|
  {
    hide Goes;
    values := [document];
    if path != [] {
      FollowsFirst(document, path);
      var w :| Goes(document, path[0], w);
      var more := ValuesPassed(w, path[1..]);
      PassesOn(document, path, more);
      values := [document] + more;
      assert values[|path|] == more[|path| - 1];
    }
  }

  lemma {:induction false} PassedIsFollowed(path: seq<Step>, values: seq<Value>)
    requires Passes(path, values)
    ensures Follow(values[0], path) == Some(values[|path|])
    decreases |path|
  {
    hide Goes;
    if path != [] {
      FollowsFirst(values[0], path);
      PassesTail(path, values);
      PassedIsFollowed(path[1..], values[1..]);
    }
  }

  /** A path leads where its steps go, one after the other. */
  lemma FollowsExactly(document: Value, path: seq<Step>, v: Value)
    ensures Follow(document, path) == Some(v) <==> exists values :: Passes(path, values) && values[0] == document && values[|path|] == v
  {
    if Follow(document, path) == Some(v) {
      var values := ValuesPassed(document, path);
    }
    if values :| Passes(path, values) && values[0] == document && values[|path|] == v {
      PassedIsFollowed(path, values);
    }
  }

  lemma {:induction false} TokensFollow(toInt: IntReader, document: Value, path: seq<Step>)
    requires ReadsDecimals(toInt) && Follow(document, path).Some?
    ensures DescendAll(toInt, document, Escapes(StepTexts(path))) == Ok(Follow(document, path).value)
  {
    if path != [] {
      var next := StepFollows(toInt, document, path[0]);
      TokensFollow(toInt, next, path[1..]);
      UnescapeEscape(StepText(path[0]));
      TokensTail(path);
    }
  }

  /** One step, and one token. */
  lemma StepFollows(toInt: IntReader, document: Value, step: Step) returns (next: Value)
    requires ReadsDecimals(toInt)
    requires match step
             case Key(k) => document.ObjValue? && k in document.fields
             case Index(i) => document.ArrValue? && i < |document.items|
    ensures Descend(toInt, document, StepText(step)) == Ok(next)
    ensures match step case Key(k) => next == document.fields[k] case Index(i) => next == document.items[i]
  {
    match step
    case Key(k) => next := document.fields[k];
    case Index(i) =>
      assert toInt(Decimal(i)) == Some(i);
      next := document.items[i];
  }

  lemma TokensTail(path: seq<Step>)
    requires path != []
    ensures var tokens := Escapes(StepTexts(path));
      tokens != [] && tokens[0] == Escape(StepText(path[0])) && tokens[1..] == Escapes(StepTexts(path[1..]))
  {
  }

  /** Whatever its keys hold, a pointer written for a path resolves to the value the path leads to, with
      or without a leading `#`. */
  lemma PointerResolves(toInt: IntReader, document: Value, path: seq<Step>)
    requires ReadsDecimals(toInt) && Follow(document, path).Some?
    ensures Resolve(toInt, document, PointerOf(path)) == Ok(Follow(document, path).value)
    ensures Resolve(toInt, document, [HASH] + PointerOf(path)) == Ok(Follow(document, path).value)
  {
    var ref := PointerOf(path);
    assert ([HASH] + ref)[1..] == ref;
    if path != [] {
      var tokens := Escapes(StepTexts(path));
      forall i | 0 <= i < |tokens|
        ensures SLASH !in tokens[i]
      {
        UnescapeEscape(StepText(path[i]));
      }
      SplitJoin(tokens);
      assert ref[1..] == JoinTokens(tokens);
      TokensFollow(toInt, document, path);
    }
  }

  /** A pointer names its path: two paths are written alike iff their steps read alike; in particular no
      path at all and the path of one empty key stay apart. */
  lemma PointersDiffer(p: seq<Step>, q: seq<Step>)
    ensures PointerOf(p) == PointerOf(q) <==> StepTexts(p) == StepTexts(q)
  {
    if PointerOf(p) == PointerOf(q) && p != [] {
      TokensBack(p);
      TokensBack(q);
    }
  }

  lemma TokensBack(p: seq<Step>)
    requires p != []
    ensures PointerOf(p) != []
    ensures |Split(PointerOf(p)[1..])| == |p|
    ensures forall i :: 0 <= i < |p| ==> Unescape(Split(PointerOf(p)[1..])[i]) == StepTexts(p)[i]
  {
    var tokens := Escapes(StepTexts(p));
    forall i | 0 <= i < |tokens|
      ensures SLASH !in tokens[i] && Unescape(tokens[i]) == StepTexts(p)[i]
    {
      UnescapeEscape(StepText(p[i]));
    }
    SplitJoin(tokens);
    assert PointerOf(p)[1..] == JoinTokens(tokens);
  }

  // ---------------------------------------------------------------- any pointer

  /** What `~1`, `~0` and any other unit stand for. */
  lemma UnescapeIs(t: Text)
    ensures Unescape([]) == []
    ensures |t| >= 2 && t[0] == 126 && t[1] == 49 ==> Unescape(t) == [47] + Unescape(t[2..])
    ensures |t| >= 2 && t[0] == 126 && t[1] == 48 ==> Unescape(t) == [126] + Unescape(t[2..])
    ensures t != [] && !(|t| >= 2 && t[0] == 126 && t[1] in {48, 49}) ==> Unescape(t) == [t[0]] + Unescape(t[1..])
  {
    if t != [] {
      assert t == [t[0]] + t[1..];
      if |t| >= 2 && t[0] == TILDE && t[1] == ONE {
        assert t == [TILDE, ONE] + t[2..];
        Taken(t[2..], ONE, [SLASH]);
        Copied(SLASH, Replace(t[2..], [TILDE, ONE], [SLASH]), ZERO, [TILDE]);
      } else {
        Copied(t[0], t[1..], ONE, [SLASH]);
        var once := Replace(t[1..], [TILDE, ONE], [SLASH]);
        FirstKept(t[1..]);
        if |t| >= 2 && t[0] == TILDE && t[1] == ZERO {
          Copied(ZERO, t[2..], ONE, [SLASH]);
          assert t[1..] == [ZERO] + t[2..];
          var later := Replace(t[2..], [TILDE, ONE], [SLASH]);
          assert [TILDE] + ([ZERO] + later) == [TILDE, ZERO] + later;
          Taken(later, ZERO, [TILDE]);
        } else {
          Copied(t[0], once, ZERO, [TILDE]);
        }
      }
    }
  }

  /** Replacing `~1` puts no `0` in front that was not there. */
  lemma FirstKept(t: Text)
    ensures var once := Replace(t, [TILDE, ONE], [SLASH]); once != [] && once[0] == ZERO ==> t[0] == ZERO
  {
  }

  /** A token leads from a value to one inside it; negative indices count from the end. */
  predicate StepsTo(toInt: IntReader, v: Value, token: Text, w: Value) {
    var name := Unescape(token);
    || (v.ObjValue? && name in v.fields && w == v.fields[name])
    || (v.ArrValue? && toInt(name).Some?
        && var n := toInt(name).value;
        (0 <= n < |v.items| && w == v.items[n]) || (-|v.items| <= n < 0 && w == v.items[|v.items| + n]))
  }

  predicate Leads(toInt: IntReader, tokens: seq<Text>, values: seq<Value>) {
    |values| == |tokens| + 1 && forall i :: 0 <= i < |tokens| ==> StepsTo(toInt, values[i], tokens[i], values[i + 1])
  }

  /** Why no value is where a token leads. */
  predicate FailsWith(toInt: IntReader, v: Value, token: Text, e: Result<Value>) {
    var name := Unescape(token);
    if v.ObjValue? then name !in v.fields && e == KeyError
    else if v.ArrValue? then
      if toInt(name).None? then e == ValueError
      else !(-|v.items| <= toInt(name).value < |v.items|) && e == IndexError
    else e == TypeError
  }

  lemma FirstToken(toInt: IntReader, document: Value, token: Text)
    ensures var next := Descend(toInt, document, Unescape(token));
      if next.Ok? then StepsTo(toInt, document, token, next.value) else FailsWith(toInt, document, token, next)
  {
    hide Unescape;
  }

  lemma LeadsFrom(toInt: IntReader, tokens: seq<Text>, document: Value, values: seq<Value>)
    requires tokens != [] && values != [] && StepsTo(toInt, document, tokens[0], values[0]) && Leads(toInt, tokens[1..], values)
    ensures Leads(toInt, tokens, [document] + values)
  {
    hide StepsTo;
    var all := [document] + values;
    forall i | 0 <= i < |tokens|
      ensures StepsTo(toInt, all[i], tokens[i], all[i + 1])
    {
      assert i > 0 ==> tokens[i] == tokens[1..][i - 1] && StepsTo(toInt, values[i - 1], tokens[1..][i - 1], values[i]);
    }
  }

  lemma {:induction false} DescentIsLed(toInt: IntReader, document: Value, tokens: seq<Text>) returns (values: seq<Value>)
    ensures 1 <= |values| <= |tokens| + 1 && values[0] == document && Leads(toInt, tokens[..|values| - 1], values)
    ensures var r, last := DescendAll(toInt, document, tokens), values[|values| - 1];
      if r.Ok? then |values| == |tokens| + 1 && r == Ok(last)
      else |values| <= |tokens| && FailsWith(toInt, last, tokens[|values| - 1], r)
    decreases |tokens|
  {
    hide StepsTo, FailsWith, Descend, Unescape;
    values := [document];
    if tokens != [] {
      FirstToken(toInt, document, tokens[0]);
      var next := Descend(toInt, document, Unescape(tokens[0]));
      if next.Ok? {
        var more := DescentIsLed(toInt, next.value, tokens[1..]);
        values := [document] + more;
        assert tokens[..|more|][1..] == tokens[1..][..|more| - 1];
        LeadsFrom(toInt, tokens[..|more|], document, more);
      }
    }
  }

  lemma {:induction false} SplitJoined(t: Text)
    ensures JoinTokens(Split(t)) == t && forall i :: 0 <= i < |Split(t)| ==> SLASH !in Split(t)[i]
  {
    if t != [] {
      var others := Split(t[1..]);
      SplitJoined(t[1..]);
      JoinedAgain(t[0], others);
      assert t == [t[0]] + t[1..];
    }
  }

  /** One more unit in front of joined tokens. */
  lemma JoinedAgain(u: Unit, others: seq<Text>)
    requires others != []
    ensures u == SLASH ==> JoinTokens([[]] + others) == [u] + JoinTokens(others)
    ensures JoinTokens([[u] + others[0]] + others[1..]) == [u] + JoinTokens(others)
  {
    assert ([[]] + others)[1..] == others;
    assert ([[u] + others[0]] + others[1..])[1..] == others[1..];
  }

  /** A pointer without its `#`. */
  function Bare(ref: Text): Text { if ref != [] && ref[0] == 35 then ref[1..] else ref }

  /** What any pointer resolves to: the empty one to the document, one that starts with no slash to nothing, and
      any other to where its tokens lead, or to the error of the first that leads nowhere. */
  lemma ResolutionIsLed(toInt: IntReader, document: Value, ref: Text) returns (tokens: seq<Text>, values: seq<Value>)
    ensures Bare(ref) == [] ==> Resolve(toInt, document, ref) == Ok(document)
    ensures Bare(ref) != [] && Bare(ref)[0] != 47 ==> Resolve(toInt, document, ref) == KeyError
    ensures Bare(ref) != [] && Bare(ref)[0] == 47 ==>
      var r := Resolve(toInt, document, ref);
      && Bare(ref) == [47] + JoinTokens(tokens) && (forall i :: 0 <= i < |tokens| ==> 47 !in tokens[i])
      && 1 <= |values| <= |tokens| + 1 && values[0] == document && Leads(toInt, tokens[..|values| - 1], values)
      && if r.Ok? then |values| == |tokens| + 1 && r == Ok(values[|tokens|])
         else |values| <= |tokens| && FailsWith(toInt, values[|values| - 1], tokens[|values| - 1], r)
  {
    var raw := Bare(ref);
    tokens, values := [], [document];
    if raw != [] && raw[0] == SLASH {
      tokens := Split(raw[1..]);
      SplitJoined(raw[1..]);
      values := DescentIsLed(toInt, document, tokens);
    }
  }
}
