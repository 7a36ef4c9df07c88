/** Canonical JSON, printed and read. */
module CanonicalJson {
  // The printer every identity and hash of the repository rests on, the reader that inverts it, and the
  // meaning both preserve.  A JavaScript object is its own properties in insertion order.  The property
  // order of RFC 8785, section 3.2.3, is that of the UTF-16 code units of the names.
  import opened CodeUnits
  import opened Numerals

  datatype Json =
    | Null
    | Bool(b: bool)
    | Num(n: SafeInt)
    | Float(numeral: FloatText)
    | Str(s: Text)
    | Arr(items: seq<Json>)
    | Obj(members: seq<Member>)

  datatype Keyed<+T> = Member(key: Text, value: T)

  type Member = Keyed<Json>

  /** What a JSON tree means: objects are maps, so the order of their members is gone. */
  datatype Value =
    | NullValue
    | BoolValue(b: bool)
    | NumValue(n: SafeInt)
    | FloatValue(numeral: FloatText)
    | StrValue(s: Text)
    | ArrValue(items: seq<Value>)
    | ObjValue(fields: map<Text, Value>)

  predicate DistinctKeys<T>(ms: seq<Keyed<T>>) {
    forall i, j :: 0 <= i < j < |ms| ==> ms[i].key != ms[j].key
  }

  /** No object has two properties of the same name, as in JavaScript. */
  predicate WellFormed(v: Json) {
    match v
    case Arr(items) => forall w :: w in items ==> WellFormed(w)
    case Obj(ms) => DistinctKeys(ms) && forall m :: m in ms ==> WellFormed(m.value)
    case _ => true
  }

  function Meaning(v: Json): Value {
    match v
    case Null => NullValue
    case Bool(b) => BoolValue(b)
    case Num(n) => NumValue(n)
    case Float(numeral) => FloatValue(numeral)
    case Str(s) => StrValue(s)
    case Arr(items) => ArrValue(Meanings(items))
    case Obj(ms) => ObjValue(Fields(ms))
  }

  function Meanings(items: seq<Json>): (r: seq<Value>)
    ensures |r| == |items|
  {
    if items == [] then [] else [Meaning(items[0])] + Meanings(items[1..])
  }

  function Fields(ms: seq<Member>): map<Text, Value> {
    if ms == [] then map[] else Fields(ms[1..])[ms[0].key := Meaning(ms[0].value)]
  }

  // ---------------------------------------------------------------- printing

  const QUOTE: Unit := 34
  const COMMA: Unit := 44
  const COLON: Unit := 58
  const OPEN_BRACKET: Unit := 91
  const BACKSLASH: Unit := 92
  const CLOSE_BRACKET: Unit := 93
  const OPEN_BRACE: Unit := 123
  const CLOSE_BRACE: Unit := 125
  const NULL_TEXT: Text := [110, 117, 108, 108]
  const TRUE_TEXT: Text := [116, 114, 117, 101]
  const FALSE_TEXT: Text := [102, 97, 108, 115, 101]

  predicate High(u: Unit) { 0xD800 <= u < 0xDC00 }

  predicate Low(u: Unit) { 0xDC00 <= u < 0xE000 }

  function HexDigit(d: int): Unit
    requires 0 <= d < 16
  {
    if d < 10 then 48 + d else 87 + d
  }

  function UnicodeEscape(u: Unit): Text {
    [BACKSLASH, 117, HexDigit(u / 4096), HexDigit(u / 256 % 16), HexDigit(u / 16 % 16), HexDigit(u % 16)]
  }

  function EscapeUnit(u: Unit): Text {
    if u == QUOTE || u == BACKSLASH then [BACKSLASH, u]
    else if u == 8 then [BACKSLASH, 98]
    else if u == 9 then [BACKSLASH, 116]
    else if u == 10 then [BACKSLASH, 110]
    else if u == 12 then [BACKSLASH, 102]
    else if u == 13 then [BACKSLASH, 114]
    else if u < 32 || High(u) || Low(u) then UnicodeEscape(u)
    else [u]
  }

  /** How many units `JSON.stringify` copies or escapes together: a surrogate pair, or one unit. */
  function Width(s: Text): nat
    requires s != []
    ensures 1 <= Width(s) <= |s|
  {
    if |s| > 1 && High(s[0]) && Low(s[1]) then 2 else 1
  }

  /** A surrogate survives only in a pair. */
  function EscapeFirst(s: Text): Text
    requires s != []
  {
    if Width(s) == 2 then s[..2] else EscapeUnit(s[0])
  }

  /** `JSON.stringify` of a string without its quotes. */
  function QuoteBody(s: Text): Text {
    if s == [] then [] else EscapeFirst(s) + QuoteBody(s[Width(s)..])
  }

  function Quote(s: Text): Text { [QUOTE] + QuoteBody(s) + [QUOTE] }

  function Scalar(v: Json): Text
    requires !v.Arr? && !v.Obj?
  {
    match v
    case Null => NULL_TEXT
    case Bool(b) => if b then TRUE_TEXT else FALSE_TEXT
    case Num(n) => Numeral(n)
    case Float(numeral) => numeral
    case Str(s) => Quote(s)
  }

  /** `texts.join(",")` */
  function Join(texts: seq<Text>): Text {
    if texts == [] then [] else if |texts| == 1 then texts[0] else texts[0] + [COMMA] + Join(texts[1..])
  }

  function Bracket(texts: seq<Text>): Text { [OPEN_BRACKET] + Join(texts) + [CLOSE_BRACKET] }

  function Brace(texts: seq<Text>): Text { [OPEN_BRACE] + Join(texts) + [CLOSE_BRACE] }

  function Pair(key: Text, value: Text): Text { Quote(key) + [COLON] + value }

  /** `JSON.stringify`: members in the order the object has them. */
  function Stringify(v: Json): Text {
    match v
    case Arr(items) => Bracket(ItemTexts(items))
    case Obj(ms) => Brace(MemberTexts(ms))
    case _ => Scalar(v)
  }

  function ItemTexts(items: seq<Json>): seq<Text> {
    if items == [] then [] else [Stringify(items[0])] + ItemTexts(items[1..])
  }

  function MemberTexts(ms: seq<Member>): seq<Text> {
    if ms == [] then [] else [Pair(ms[0].key, Stringify(ms[0].value))] + MemberTexts(ms[1..])
  }

  // ---------------------------------------------------------------- sorting

  predicate SortedKeys<T>(ms: seq<Keyed<T>>) {
    forall i, j :: 0 <= i < j < |ms| ==> Less(ms[i].key, ms[j].key)
  }

  function Insert<T(!new)>(m: Keyed<T>, ms: seq<Keyed<T>>): (r: seq<Keyed<T>>)
    ensures multiset(r) == multiset(ms) + multiset{m}
  {
    if ms == [] || Less(m.key, ms[0].key) then
      assert [m] + ms == [m] + ms;
      [m] + ms
    else
      assert ms == [ms[0]] + ms[1..];
      [ms[0]] + Insert(m, ms[1..])
  }

  function SortMembers<T(!new)>(ms: seq<Keyed<T>>): (r: seq<Keyed<T>>)
    ensures multiset(r) == multiset(ms)
    ensures |r| == |ms|
    ensures forall m :: m in r <==> m in ms
  {
    if ms == [] then [] else
      assert ms == [ms[0]] + ms[1..];
      var r := Insert(ms[0], SortMembers(ms[1..]));
      assert forall m :: m in r <==> m in multiset(r);
      assert forall m :: m in ms <==> m in multiset(ms);
      assert |r| == |multiset(r)| && |ms| == |multiset(ms)|;
      r
  }

  // ---------------------------------------------------------------- the canonical printer

  /** `canonicalJson` on a tree: members in the order of their keys. */
  function Canonical(v: Json): Text
    decreases v
  {
    match v
    case Arr(items) => Bracket(CanonicalItems(items))
    case Obj(ms) => Brace(CanonicalMembers(ms, SortMembers(ms)))
    case _ => Scalar(v)
  }

  function CanonicalItems(items: seq<Json>): seq<Text>
    decreases items
  {
    if items == [] then [] else [Canonical(items[0])] + CanonicalItems(items[1..])
  }

  function CanonicalMembers(all: seq<Member>, sorted: seq<Member>): seq<Text>
    requires forall m :: m in sorted ==> m in all
    decreases all, |sorted|
  {
    if sorted == [] then [] else
      assert sorted[0] in sorted && exists i :: 0 <= i < |all| && all[i] == sorted[0];
      [Pair(sorted[0].key, Canonical(sorted[0].value))] + CanonicalMembers(all, sorted[1..])
  }

  /** The tree that the canonical text spells: every object with its members sorted. */
  function Normal(v: Json): Json
    decreases v
  {
    match v
    case Arr(items) => Arr(NormalItems(items))
    case Obj(ms) => Obj(NormalMembers(ms, SortMembers(ms)))
    case _ => v
  }

  function NormalItems(items: seq<Json>): (r: seq<Json>)
    ensures |r| == |items|
    decreases items
  {
    if items == [] then [] else [Normal(items[0])] + NormalItems(items[1..])
  }

  function NormalMembers(all: seq<Member>, sorted: seq<Member>): (r: seq<Member>)
    requires forall m :: m in sorted ==> m in all
    ensures |r| == |sorted| && forall i :: 0 <= i < |r| ==> r[i].key == sorted[i].key
    decreases all, |sorted|
  {
    if sorted == [] then [] else
      assert sorted[0] in sorted && exists i :: 0 <= i < |all| && all[i] == sorted[0];
      [Member(sorted[0].key, Normal(sorted[0].value))] + NormalMembers(all, sorted[1..])
  }

  lemma {:induction false} CanonicalPrintsNormal(v: Json)
    ensures Canonical(v) == Stringify(Normal(v))
    decreases v
  {
    match v
    case Arr(items) => ItemsPrintNormal(items);
    case Obj(ms) => MembersPrintNormal(ms, SortMembers(ms));
    case _ =>
  }

  lemma {:induction false} ItemsPrintNormal(items: seq<Json>)
    ensures CanonicalItems(items) == ItemTexts(NormalItems(items))
    decreases items
  {
    if items != [] {
      CanonicalPrintsNormal(items[0]);
      ItemsPrintNormal(items[1..]);
      assert NormalItems(items)[1..] == NormalItems(items[1..]);
    }
  }

  lemma {:induction false} MembersPrintNormal(all: seq<Member>, sorted: seq<Member>)
    requires forall m :: m in sorted ==> m in all
    ensures CanonicalMembers(all, sorted) == MemberTexts(NormalMembers(all, sorted))
    decreases all, |sorted|
  {
    if sorted != [] {
      assert sorted[0] in sorted && exists i :: 0 <= i < |all| && all[i] == sorted[0];
      CanonicalPrintsNormal(sorted[0].value);
      MembersPrintNormal(all, sorted[1..]);
      assert NormalMembers(all, sorted)[1..] == NormalMembers(all, sorted[1..]);
    }
  }

  // ---------------------------------------------------------------- reading

  datatype Parsed<+T> = Fail | Done(value: T, rest: Text)

  function HexValue(u: Unit): (r: Option<int>)
    ensures r.Some? ==> 0 <= r.value < 16
  {
    if IsDigit(u) then Some(u - 48)
    else if 97 <= u <= 102 then Some(u - 87)
    else if 65 <= u <= 70 then Some(u - 55)
    else None
  }

  /** The units a backslash escape stands for, read after the backslash. */
  function ParseEscape(t: Text): (r: Parsed<Unit>)
    ensures r.Done? ==> |r.rest| < |t|
  {
    if t == [] then Fail
    else if t[0] == QUOTE || t[0] == BACKSLASH || t[0] == 47 then Done(t[0], t[1..])
    else if t[0] == 98 then Done(8, t[1..])
    else if t[0] == 116 then Done(9, t[1..])
    else if t[0] == 110 then Done(10, t[1..])
    else if t[0] == 102 then Done(12, t[1..])
    else if t[0] == 114 then Done(13, t[1..])
    else if t[0] == 117 && |t| >= 5 then
      var a, b, c, d := HexValue(t[1]), HexValue(t[2]), HexValue(t[3]), HexValue(t[4]);
      if a.Some? && b.Some? && c.Some? && d.Some? then
        Done(a.value * 4096 + b.value * 256 + c.value * 16 + d.value, t[5..])
      else Fail
    else Fail
  }

  /** Reads a string after its opening quote. */
  function ParseString(t: Text): (r: Parsed<Text>)
    ensures r.Done? ==> |r.rest| < |t|
    decreases |t|
  {
    if t == [] then Fail
    else if t[0] == QUOTE then Done([], t[1..])
    else if t[0] < 32 then Fail
    else
      var first := if t[0] == BACKSLASH then ParseEscape(t[1..]) else Done(t[0], t[1..]);
      if first.Fail? then Fail else
        var others := ParseString(first.rest);
        if others.Fail? then Fail else Done([first.value] + others.value, others.rest)
  }

  /** A finite number; a numeral that no number prints is kept as it is written. */
  function ParseNumber(t: Text): (r: Parsed<Json>)
    ensures r.Done? ==> |r.rest| < |t|
  {
    match SkipNumeral(t)
    case None => Fail
    case Some(rest) =>
      if rest != [] && Continues(rest[0]) then Fail
      else
        var numeral := t[..|t| - |rest|];
        if SafeInteger(numeral).Some? then Done(Num(SafeInteger(numeral).value), rest)
        else if IsFloat(numeral) then Done(Float(numeral), rest)
        else Fail
  }

  predicate StartsWith(t: Text, prefix: Text) { |prefix| <= |t| && t[..|prefix|] == prefix }

  /** A later property of the same name overwrites the earlier one in place. */
  function Put(ms: seq<Member>, m: Member): seq<Member> {
    if ms == [] then [m] else if ms[0].key == m.key then [m] + ms[1..] else [ms[0]] + Put(ms[1..], m)
  }

  function ParseWord(t: Text): (r: Parsed<Json>)
    ensures r.Done? ==> |r.rest| < |t|
  {
    if t == [] then Fail
    else if t[0] == NULL_TEXT[0] then if StartsWith(t, NULL_TEXT) then Done(Null, t[4..]) else Fail
    else if t[0] == TRUE_TEXT[0] then if StartsWith(t, TRUE_TEXT) then Done(Bool(true), t[4..]) else Fail
    else if t[0] == FALSE_TEXT[0] then if StartsWith(t, FALSE_TEXT) then Done(Bool(false), t[5..]) else Fail
    else ParseNumber(t)
  }

  /** `JSON.parse` of text without white space. */
  function ParseValue(t: Text): (r: Parsed<Json>)
    ensures r.Done? ==> |r.rest| < |t|
    decreases |t|, 0
  {
    if t == [] then Fail
    else if t[0] == QUOTE then
      var s := ParseString(t[1..]);
      if s.Fail? then Fail else Done(Str(s.value), s.rest)
    else if t[0] == OPEN_BRACKET then
      var items := ParseArray(t[1..]);
      if items.Fail? then Fail else Done(Arr(items.value), items.rest)
    else if t[0] == OPEN_BRACE then
      var ms := ParseObject(t[1..]);
      if ms.Fail? then Fail else Done(Obj(ms.value), ms.rest)
    else ParseWord(t)
  }

  /** The items of an array, read after its opening bracket. */
  function ParseArray(t: Text): (r: Parsed<seq<Json>>)
    ensures r.Done? ==> |r.rest| < |t|
    decreases |t|, 2
  {
    if t != [] && t[0] == CLOSE_BRACKET then Done([], t[1..]) else ParseItems(t)
  }

  /** The members of an object, read after its opening brace. */
  function ParseObject(t: Text): (r: Parsed<seq<Member>>)
    ensures r.Done? ==> |r.rest| < |t|
    decreases |t|, 2
  {
    if t != [] && t[0] == CLOSE_BRACE then Done([], t[1..]) else ParseMembers(t, [])
  }

  function ParseItems(t: Text): (r: Parsed<seq<Json>>)
    ensures r.Done? ==> |r.rest| < |t|
    decreases |t|, 1
  {
    var first := ParseValue(t);
    if first.Fail? || first.rest == [] then Fail
    else if first.rest[0] == CLOSE_BRACKET then Done([first.value], first.rest[1..])
    else if first.rest[0] == COMMA then
      var others := ParseItems(first.rest[1..]);
      if others.Fail? then Fail else Done([first.value] + others.value, others.rest)
    else Fail
  }

  function ParseMembers(t: Text, read: seq<Member>): (r: Parsed<seq<Member>>)
    ensures r.Done? ==> |r.rest| < |t|
    decreases |t|, 1
  {
    if t == [] || t[0] != QUOTE then Fail else
      var key := ParseString(t[1..]);
      if key.Fail? || key.rest == [] || key.rest[0] != COLON then Fail else
        var value := ParseValue(key.rest[1..]);
        if value.Fail? || value.rest == [] then Fail else
          var now := Put(read, Member(key.value, value.value));
          if value.rest[0] == CLOSE_BRACE then Done(now, value.rest[1..])
          else if value.rest[0] == COMMA then ParseMembers(value.rest[1..], now)
          else Fail
  }

  /** `JSON.parse` of a whole text. */
  function Parse(t: Text): Option<Json> {
    var r := ParseValue(t);
    if r.Done? && r.rest == [] then Some(r.value) else None
  }

  // ---------------------------------------------------------------- reading undoes printing

  lemma EscapeReads(u: Unit, rest: Text)
    requires EscapeUnit(u)[0] == BACKSLASH
    ensures ParseEscape((EscapeUnit(u) + rest)[1..]) == Done(u, rest)
  {
    if EscapeUnit(u) == UnicodeEscape(u) {
      UnicodeReads(u, rest);
    } else {
      assert (EscapeUnit(u) + rest)[1..] == [EscapeUnit(u)[1]] + rest;
      assert ([EscapeUnit(u)[1]] + rest)[1..] == rest;
    }
  }

  lemma UnicodeReads(u: Unit, rest: Text)
    ensures ParseEscape((UnicodeEscape(u) + rest)[1..]) == Done(u, rest)
  {
    var t := (UnicodeEscape(u) + rest)[1..];
    HexReads(u / 4096);
    HexReads(u / 256 % 16);
    HexReads(u / 16 % 16);
    HexReads(u % 16);
    HexSum(u);
    assert t[5..] == rest;
    assert t[0] == 117 && t[1] == HexDigit(u / 4096) && t[2] == HexDigit(u / 256 % 16)
           && t[3] == HexDigit(u / 16 % 16) && t[4] == HexDigit(u % 16);
  }

  lemma HexReads(d: int)
    requires 0 <= d < 16
    ensures HexValue(HexDigit(d)) == Some(d)
  {
  }

  /** Four hexadecimal digits make up a unit. */
  lemma HexSum(u: Unit)
    ensures u / 4096 * 4096 + u / 256 % 16 * 256 + u / 16 % 16 * 16 + u % 16 == u
  {
    assert u / 256 == u / 4096 * 16 + u / 256 % 16;
    assert u / 16 == u / 256 * 16 + u / 16 % 16;
  }

  /** One more unit in front of text that reads as `value`. */
  lemma UnitReads(u: Unit, after: Text, value: Text, rest: Text)
    requires ParseString(after) == Done(value, rest)
    ensures ParseString(EscapeUnit(u) + after) == Done([u] + value, rest)
    ensures u >= 32 && u != QUOTE && u != BACKSLASH ==> ParseString([u] + after) == Done([u] + value, rest)
  {
    assert ([u] + after)[1..] == after;
    if EscapeUnit(u)[0] == BACKSLASH {
      EscapeReads(u, after);
    }
  }

  lemma TwoFirst(s: Text, after: Text)
    requires |s| >= 2
    ensures s[..2] + after == [s[0]] + ([s[1]] + after)
  {
  }

  lemma FirstReads(s: Text, after: Text, value: Text, rest: Text)
    requires s != [] && ParseString(after) == Done(value, rest)
    ensures ParseString(EscapeFirst(s) + after) == Done(s[..Width(s)] + value, rest)
  {
    if Width(s) == 2 {
      UnitReads(s[1], after, value, rest);
      UnitReads(s[0], [s[1]] + after, [s[1]] + value, rest);
      TwoFirst(s, after);
      TwoFirst(s, value);
    } else {
      UnitReads(s[0], after, value, rest);
      assert s[..1] == [s[0]];
    }
  }

  lemma RegroupFour(a: Text, b: Text, c: Text, d: Text)
    ensures a + b + c + d == a + (b + c + d)
  {
  }

  lemma {:induction false} StringReads(s: Text, rest: Text)
    ensures ParseString(QuoteBody(s) + [QUOTE] + rest) == Done(s, rest)
  {
    if s == [] {
      assert [] + [QUOTE] + rest == [QUOTE] + rest && ([QUOTE] + rest)[1..] == rest;
    } else {
      var others := s[Width(s)..];
      StringReads(others, rest);
      FirstReads(s, QuoteBody(others) + [QUOTE] + rest, others, rest);
      RegroupFour(EscapeFirst(s), QuoteBody(others), [QUOTE], rest);
      assert s[..Width(s)] + others == s;
    }
  }

  lemma NumberReads(n: SafeInt, rest: Text)
    requires rest == [] || !Continues(rest[0])
    ensures ParseNumber(Numeral(n) + rest) == Done(Num(n), rest)
  {
    IntegerSkips(n);
    SkipNumeralMore(Numeral(n), rest);
    NumeralTaken(Numeral(n), rest);
  }

  lemma FloatReads(numeral: FloatText, rest: Text)
    requires rest == [] || !Continues(rest[0])
    ensures ParseNumber(numeral + rest) == Done(Float(numeral), rest)
  {
    SkipNumeralMore(numeral, rest);
    NumeralTaken(numeral, rest);
  }

  lemma NumeralTaken(numeral: Text, rest: Text)
    ensures (numeral + rest)[..|numeral + rest| - |rest|] == numeral
  {
  }

  /** Text after a numeral must not go on with it; any other value ends by itself. */
  predicate Delimited(v: Json, rest: Text) {
    (v.Num? || v.Float?) && rest != [] ==> !Continues(rest[0])
  }

  lemma ReadsAsNumber(t: Text)
    requires t != [] && (IsDigit(t[0]) || t[0] == MINUS)
    ensures ParseValue(t) == ParseNumber(t)
  {
    var number := ParseNumber(t);
    assert t[0] !in {QUOTE, OPEN_BRACKET, OPEN_BRACE, NULL_TEXT[0], TRUE_TEXT[0], FALSE_TEXT[0]};
    assert ParseWord(t) == number;
  }

  lemma NumberScalarReads(v: Json, rest: Text)
    requires (v.Num? || v.Float?) && Delimited(v, rest)
    ensures ParseValue(Scalar(v) + rest) == Done(v, rest)
  {
    if v.Num? {
      NumberReads(v.n, rest);
      NumeralStarts(v.n);
    } else {
      FloatReads(v.numeral, rest);
      FloatStarts(v.numeral);
    }
    ReadsAsNumber(Scalar(v) + rest);
  }

  lemma WordReads(v: Json, rest: Text)
    requires v.Null? || v.Bool?
    ensures ParseValue(Scalar(v) + rest) == Done(v, rest)
  {
    var t := Scalar(v) + rest;
    assert t[..|Scalar(v)|] == Scalar(v) && t[|Scalar(v)|..] == rest;
  }

  lemma ScalarReads(v: Json, rest: Text)
    requires !v.Arr? && !v.Obj? && Delimited(v, rest)
    ensures ParseValue(Scalar(v) + rest) == Done(v, rest)
  {
    if v.Str? {
      assert (Scalar(v) + rest)[1..] == QuoteBody(v.s) + [QUOTE] + rest;
      StringReads(v.s, rest);
    } else if v.Num? || v.Float? {
      NumberScalarReads(v, rest);
    } else {
      WordReads(v, rest);
    }
  }

  /** Reading back what `JSON.stringify` printed gives the tree and leaves the rest. */
  lemma {:induction false} ReadsBack(v: Json, rest: Text)
    requires WellFormed(v) && Delimited(v, rest)
    ensures ParseValue(Stringify(v) + rest) == Done(v, rest)
    decreases v, 3
  {
    if v.Arr? {
      ArrayReadsBack(v.items, rest);
      Enclosed(OPEN_BRACKET, Join(ItemTexts(v.items)), [CLOSE_BRACKET], rest);
    } else if v.Obj? {
      ObjectReadsBack(v.members, rest);
      Enclosed(OPEN_BRACE, Join(MemberTexts(v.members)), [CLOSE_BRACE], rest);
    } else {
      ScalarReads(v, rest);
    }
  }

  lemma Enclosed(open: Unit, body: Text, close: Text, rest: Text)
    ensures var t := [open] + body + close + rest;
      t[0] == open && t[1..] == body + close + rest
  {
  }

  lemma JoinCons(first: Text, others: seq<Text>, close: Text, rest: Text)
    ensures Join([first] + others) + close + rest ==
      first + if others == [] then close + rest else [COMMA] + (Join(others) + close + rest)
  {
    assert ([first] + others)[1..] == others;
  }

  lemma {:induction false} ArrayReadsBack(items: seq<Json>, rest: Text)
    requires forall w :: w in items ==> WellFormed(w)
    ensures ParseArray(Join(ItemTexts(items)) + [CLOSE_BRACKET] + rest) == Done(items, rest)
    decreases items, 2
  {
    if items == [] {
      assert [] + [CLOSE_BRACKET] + rest == [CLOSE_BRACKET] + rest;
    } else {
      ItemsReadBack(items, rest);
      FirstUnit(items[0]);
    }
  }

  lemma {:induction false} ObjectReadsBack(ms: seq<Member>, rest: Text)
    requires DistinctKeys(ms) && forall m :: m in ms ==> WellFormed(m.value)
    ensures ParseObject(Join(MemberTexts(ms)) + [CLOSE_BRACE] + rest) == Done(ms, rest)
    decreases ms, 2
  {
    if ms == [] {
      assert [] + [CLOSE_BRACE] + rest == [CLOSE_BRACE] + rest;
    } else {
      assert [] + ms == ms;
      MembersReadBack([], ms, rest);
    }
  }

  /** The text of a value never starts with a closing bracket. */
  lemma FirstUnit(v: Json)
    ensures Stringify(v) != [] && Stringify(v)[0] != CLOSE_BRACKET
  {
  }

  lemma AfterFirst(u: Unit, t: Text)
    ensures ([u] + t)[0] == u && ([u] + t)[1..] == t
  {
  }

  lemma HeadAndTail<T>(s: seq<T>)
    requires s != []
    ensures s == [s[0]] + s[1..]
  {
  }

  lemma {:induction false} ItemsReadBack(items: seq<Json>, rest: Text)
    requires items != [] && forall w :: w in items ==> WellFormed(w)
    ensures ParseItems(Join(ItemTexts(items)) + [CLOSE_BRACKET] + rest) == Done(items, rest)
    decreases items, 1
  {
    var others := items[1..];
    JoinCons(Stringify(items[0]), ItemTexts(others), [CLOSE_BRACKET], rest);
    if others == [] {
      ReadsBack(items[0], [CLOSE_BRACKET] + rest);
      AfterFirst(CLOSE_BRACKET, rest);
      assert items == [items[0]];
    } else {
      var tail := Join(ItemTexts(others)) + [CLOSE_BRACKET] + rest;
      ReadsBack(items[0], [COMMA] + tail);
      ItemsReadBack(others, rest);
      AfterFirst(COMMA, tail);
      HeadAndTail(items);
    }
  }

  lemma {:induction false} PutAppends(ms: seq<Member>, m: Member)
    requires forall i :: 0 <= i < |ms| ==> ms[i].key != m.key
    ensures Put(ms, m) == ms + [m]
  {
    if ms != [] {
      PutAppends(ms[1..], m);
    }
  }

  lemma PairReads(m: Member, rest: Text)
    ensures var t := Pair(m.key, Stringify(m.value)) + rest;
      && t != [] && t[0] == QUOTE
      && ParseString(t[1..]) == Done(m.key, [COLON] + (Stringify(m.value) + rest))
  {
    var after := [COLON] + (Stringify(m.value) + rest);
    StringReads(m.key, after);
    PairText(QuoteBody(m.key), Stringify(m.value), rest);
  }

  lemma PairText(key: Text, value: Text, rest: Text)
    ensures [QUOTE] + key + [QUOTE] + [COLON] + value + rest == [QUOTE] + (key + [QUOTE] + ([COLON] + (value + rest)))
    ensures ([QUOTE] + (key + [QUOTE] + ([COLON] + (value + rest))))[1..] == key + [QUOTE] + ([COLON] + (value + rest))
  {
  }

  /** Reading one member goes on with what follows it. */
  lemma MemberReads(m: Member, more: Text, read: seq<Member>)
    requires more != [] && ParseValue(Stringify(m.value) + more) == Done(m.value, more)
    ensures ParseMembers(Pair(m.key, Stringify(m.value)) + more, read) ==
      if more[0] == CLOSE_BRACE then Done(Put(read, m), more[1..])
      else if more[0] == COMMA then ParseMembers(more[1..], Put(read, m))
      else Fail
  {
    PairReads(m, more);
    var after := Stringify(m.value) + more;
    assert ([COLON] + after)[1..] == after;
    assert Member(m.key, m.value) == m;
  }

  lemma LastMemberReads(m: Member, rest: Text, read: seq<Member>)
    requires ParseValue(Stringify(m.value) + ([CLOSE_BRACE] + rest)) == Done(m.value, [CLOSE_BRACE] + rest)
    ensures ParseMembers(Pair(m.key, Stringify(m.value)) + ([CLOSE_BRACE] + rest), read) == Done(Put(read, m), rest)
  {
    MemberReads(m, [CLOSE_BRACE] + rest, read);
    assert ([CLOSE_BRACE] + rest)[1..] == rest;
  }

  lemma NextMemberReads(m: Member, tail: Text, read: seq<Member>)
    requires ParseValue(Stringify(m.value) + ([COMMA] + tail)) == Done(m.value, [COMMA] + tail)
    ensures ParseMembers(Pair(m.key, Stringify(m.value)) + ([COMMA] + tail), read) ==
            ParseMembers(tail, Put(read, m))
  {
    MemberReads(m, [COMMA] + tail, read);
    assert ([COMMA] + tail)[1..] == tail;
  }

  lemma FreshKey(read: seq<Member>, m: Member, others: seq<Member>)
    requires DistinctKeys(read + [m] + others)
    ensures Put(read, m) == read + [m]
  {
    forall i | 0 <= i < |read|
      ensures read[i].key != m.key
    {
      assert (read + [m] + others)[i] == read[i] && (read + [m] + others)[|read|] == m;
    }
    PutAppends(read, m);
  }

  lemma {:induction false} MembersReadBack(read: seq<Member>, ms: seq<Member>, rest: Text)
    requires ms != [] && DistinctKeys(read + ms) && forall m :: m in ms ==> WellFormed(m.value)
    ensures ParseMembers(Join(MemberTexts(ms)) + [CLOSE_BRACE] + rest, read) == Done(read + ms, rest)
    decreases ms, 1
  {
    var m, others := ms[0], ms[1..];
    assert ms == [m] + others && read + ms == read + [m] + others;
    FreshKey(read, m, others);
    JoinCons(Pair(m.key, Stringify(m.value)), MemberTexts(others), [CLOSE_BRACE], rest);
    if others == [] {
      ReadsBack(m.value, [CLOSE_BRACE] + rest);
      LastMemberReads(m, rest, read);
      assert ms == [m];
    } else {
      var tail := Join(MemberTexts(others)) + [CLOSE_BRACE] + rest;
      ReadsBack(m.value, [COMMA] + tail);
      NextMemberReads(m, tail, read);
      MembersReadBack(read + [m], others, rest);
    }
  }
}
