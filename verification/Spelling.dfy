/** How canonical JSON is spelled. */
module Spelling {
  // Of the many JSON texts of one value the printer writes one: RFC 8785, sections 3.2.2.2 and 3.2.3.
  import opened CodeUnits
  import opened Numerals
  import opened CanonicalJson
  import opened CanonicalMeaning

  // ---------------------------------------------------------------- one unit

  predicate Surrogate(u: Unit) { 0xD800 <= u < 0xE000 }

  /** Units that JSON text may hold as they are. */
  predicate Plain(u: Unit) { u >= 32 && u != 34 && u != 92 && !Surrogate(u) }

  /** A backslash and one more unit stand for `u`. */
  ghost predicate HasShortEscape(u: Unit) { exists x: Unit :: ParseEscape([x]) == Done(u, []) }

  predicate LowerHex(u: Unit) { 48 <= u <= 57 || 97 <= u <= 102 }

  lemma UnitIsSpelled(u: Unit)
    ensures var e := EscapeUnit(u);
      if Plain(u) then e == [u]
      else if HasShortEscape(u) then |e| == 2 && e[0] == 92 && ParseEscape(e[1..]) == Done(u, [])
      else |e| == 6 && e[0] == 92 && e[1] == 117 && ParseEscape(e[1..]) == Done(u, [])
           && LowerHex(e[2]) && LowerHex(e[3]) && LowerHex(e[4]) && LowerHex(e[5])
  {
    if !Plain(u) {
      EscapeReads(u, []);
      assert (EscapeUnit(u) + [])[1..] == EscapeUnit(u)[1..];
      if |EscapeUnit(u)| == 2 {
        assert EscapeUnit(u)[1..] == [EscapeUnit(u)[1]];
      } else if x: Unit :| ParseEscape([x]) == Done(u, []) {
        assert false;
      }
    }
  }

  lemma AsciiTwo(s: string)
    requires |s| == 2 && s[0] < 128 as char && s[1] < 128 as char
    ensures Ascii(s) == [s[0] as int, s[1] as int]
  {
  }

  /** The two-unit escapes. */
  lemma ShortEscapes()
    ensures EscapeUnit(8) == Ascii("\\b") && EscapeUnit(9) == Ascii("\\t") && EscapeUnit(10) == Ascii("\\n")
    ensures EscapeUnit(12) == Ascii("\\f") && EscapeUnit(13) == Ascii("\\r")
    ensures EscapeUnit(34) == Ascii("\\\"") && EscapeUnit(92) == Ascii("\\\\")
  {
    AsciiTwo("\\b");
    AsciiTwo("\\t");
    AsciiTwo("\\n");
    AsciiTwo("\\f");
    AsciiTwo("\\r");
    AsciiTwo("\\\"");
    AsciiTwo("\\\\");
  }

  /** Two of the long ones. */
  lemma LongEscapes()
    ensures EscapeUnit(31) == Ascii("\\u001f") && EscapeUnit(0xDEAD) == Ascii("\\udead")
  {
    assert UnicodeEscape(31) == [92, 117, 48, 48, 49, 102];
    assert UnicodeEscape(0xDEAD) == [92, 117, 100, 101, 97, 100];
  }

  // ---------------------------------------------------------------- strings

  lemma {:induction false} PairedTail(t: Text)
    requires Paired(t) && t != [] && !High(t[0])
    ensures Paired(t[1..])
  {
  }

  lemma PairedDrop(t: Text, k: nat)
    requires k <= |t| && Paired(t) && forall i :: 0 <= i < k ==> t[i] < 0xD800
    ensures Paired(t[k..])
  {
    if k > 0 {
      PairedTail(t);
      PairedDrop(t[1..], k - 1);
      assert t[1..][k - 1..] == t[k..];
    }
  }

  lemma HexIsAscii(u: Unit)
    requires HexValue(u).Some?
    ensures u < 128
  {
  }

  /** Reading an escape uses two units, or six; two only for the units that have such an escape. */
  lemma EscapeCosts(t: Text)
    requires ParseEscape(t).Done?
    ensures var r := ParseEscape(t);
      exists k :: (k == 1 || k == 5) && k <= |t| && r.rest == t[k..]
                  && (forall i :: 0 <= i < k ==> t[i] < 128) && |EscapeUnit(r.value)| <= k + 1
  {
    var k := if t[0] == 117 then 5 else 1;
    assert ParseEscape(t).rest == t[k..];
    if k == 5 {
      HexIsAscii(t[1]);
      HexIsAscii(t[2]);
      HexIsAscii(t[3]);
      HexIsAscii(t[4]);
    }
  }

  /** One more unit in front costs at most what its escape costs, and two for a pair. */
  lemma FrontCosts(u: Unit, s: Text)
    ensures |QuoteBody([u] + s)| <= |EscapeUnit(u)| + |QuoteBody(s)|
    ensures High(u) && s != [] && Low(s[0]) ==> |QuoteBody([u] + s)| == 2 + |QuoteBody(s[1..])|
  {
    var t := [u] + s;
    assert t[1..] == s;
    if s != [] && High(u) && Low(s[0]) {
      assert t[2..] == s[1..];
      assert Width(s) == 1 && QuoteBody(s) == EscapeUnit(s[0]) + QuoteBody(s[1..]);
    }
  }

  lemma TwoRead(t: Text, s: Text, rest: Text)
    requires |t| >= 2 && High(t[0]) && Low(t[1]) && ParseString(t) == Done(s, rest)
    ensures |s| >= 2 && s[0] == t[0] && s[1] == t[1] && ParseString(t[2..]) == Done(s[2..], rest)
  {
    assert t[1..][1..] == t[2..];
    var one := ParseString(t[1..]);
    var two := ParseString(t[2..]);
    assert one == Done([t[1]] + two.value, two.rest);
    assert s == [t[0]] + one.value && one.value[1..] == two.value && s[2..] == two.value;
  }

  /** The printer's spelling of a string is the shortest: no well-formed text that reads as the string, with
      whatever escapes, is shorter. */
  lemma {:induction false} ShortestSpelling(t: Text, s: Text, rest: Text)
    requires Paired(t) && ParseString(t) == Done(s, rest)
    ensures |rest| <= |t| && |QuoteBody(s)| + 1 <= |t| - |rest|
    decreases |t|
  {
    if t[0] == 34 {
    } else if t[0] == 92 {
      EscapeCosts(t[1..]);
      var first := ParseEscape(t[1..]);
      var k :| (k == 1 || k == 5) && k <= |t[1..]| && first.rest == t[1..][k..]
               && (forall i :: 0 <= i < k ==> t[1..][i] < 128) && |EscapeUnit(first.value)| <= k + 1;
      assert first.rest == t[k + 1..];
      assert forall i :: 0 <= i < k + 1 ==> t[i] < 128 by {
        assert forall i :: 1 <= i < k + 1 ==> t[i] == t[1..][i - 1];
      }
      PairedDrop(t, k + 1);
      ShortestSpelling(first.rest, s[1..], rest);
      FrontCosts(s[0], s[1..]);
      assert s == [s[0]] + s[1..];
    } else if High(t[0]) {
      TwoRead(t, s, rest);
      ShortestSpelling(t[2..], s[2..], rest);
      FrontCosts(s[0], s[1..]);
      assert s == [s[0]] + s[1..] && s[1..][1..] == s[2..];
    } else {
      PairedTail(t);
      ShortestSpelling(t[1..], s[1..], rest);
      FrontCosts(s[0], s[1..]);
      assert s == [s[0]] + s[1..];
    }
  }

  // ---------------------------------------------------------------- words, numbers, punctuation

  /** The words and the signs. */
  lemma Words()
    ensures Canonical(Null) == Ascii("null") && Canonical(Bool(true)) == Ascii("true") && Canonical(Bool(false)) == Ascii("false")
    ensures Canonical(Arr([])) == Ascii("[]") && Canonical(Obj([])) == Ascii("{}") && Canonical(Str([])) == Ascii("\"\"")
  {
  }

  lemma JoinTwo(a: Text, b: Text)
    ensures Bracket([a, b]) == Ascii("[") + a + Ascii(",") + b + Ascii("]")
  {
    assert [a, b][1..] == [b];
    assert Join([a, b]) == a + [COMMA] + b;
    assert Ascii("[") == [91] && Ascii(",") == [44] && Ascii("]") == [93];
  }

  lemma TwoItems(first: Json, second: Json)
    ensures ItemTexts([first, second]) == [Stringify(first), Stringify(second)]
  {
    assert [first, second][1..] == [second] && [second][1..] == [];
    assert ItemTexts([second]) == [Stringify(second)] + ItemTexts([]);
    assert ItemTexts([first, second]) == [Stringify(first)] + ItemTexts([second]);
  }

  lemma OneMember(k: Text, v: Json)
    ensures Stringify(Obj([Member(k, v)])) == Ascii("{") + Stringify(Str(k)) + Ascii(":") + Stringify(v) + Ascii("}")
  {
    assert [Member(k, v)][1..] == [];
    assert MemberTexts([Member(k, v)]) == [Pair(k, Stringify(v))];
    assert Ascii("{") == [123] && Ascii(":") == [58] && Ascii("}") == [125];
  }

  /** Brackets, braces, commas and colons, without white space. */
  lemma Separated(first: Json, second: Json, k: Text)
    ensures Stringify(Arr([first, second])) == Ascii("[") + Stringify(first) + Ascii(",") + Stringify(second) + Ascii("]")
    ensures Stringify(Obj([Member(k, first)])) == Ascii("{") + Stringify(Str(k)) + Ascii(":") + Stringify(first) + Ascii("}")
  {
    TwoItems(first, second);
    JoinTwo(Stringify(first), Stringify(second));
    OneMember(k, first);
  }

  /** The numeral of a safe integer is the one spelling of it without plus sign and leading zeros: a minus sign
      for negative ones, then decimal digits, the first of them not zero except for zero itself. */
  lemma IntegersAreSpelled(n: SafeInt)
    ensures var t := Canonical(Num(n));
      && (t[0] == 45 <==> n < 0)
      && var digits := if n < 0 then t[1..] else t;
        && digits != [] && (forall i :: 0 <= i < |digits| ==> 48 <= digits[i] <= 57)
        && (digits[0] == 48 ==> n == 0 && |digits| == 1)
        && ValueOf(digits) == if n < 0 then -n else n
  {
    DecimalHasValue(if n < 0 then -n else n);
  }

  /** What decimal digits amount to. */
  function ValueOf(digits: Text): int {
    if digits == [] then 0 else var d: int := digits[|digits| - 1]; 10 * ValueOf(digits[..|digits| - 1]) + (d - 48)
  }

  lemma {:induction false} DecimalHasValue(n: nat)
    ensures ValueOf(Decimal(n)) == n
  {
    if n >= 10 {
      DecimalHasValue(n / 10);
      assert Decimal(n)[..|Decimal(n)| - 1] == Decimal(n / 10);
    } else {
      assert Decimal(n)[..0] == [];
    }
  }

  // ---------------------------------------------------------------- the order of members

  /** The members of an object come in the order of their names: at the first code unit in which two names
      differ the one with the smaller unit is first, and a name that goes on comes after the one that ends. */
  lemma MembersInOrder(ms: seq<Member>, i: nat, j: nat)
    requires DistinctKeys(ms) && i < j < |ms|
    ensures |Normal(Obj(ms)).members| == |ms|
    ensures var a, b := Normal(Obj(ms)).members[i].key, Normal(Obj(ms)).members[j].key;
      exists k :: 0 <= k <= |a| && k <= |b| && a[..k] == b[..k]
                  && (k == |a| < |b| || (k < |a| && k < |b| && a[k] < b[k]))
  {
    var sorted := SortMembers(ms);
    SortedMembers(ms);
    LessAtFirstDifference(sorted[i].key, sorted[j].key);
  }

  const EURO: Text := [0x20AC]
  const RETURN: Text := [0x0D]
  const HEBREW: Text := [0xFB33]
  const ONE: Text := [0x31]
  const SMILE: Text := [0xD83D, 0xDE00]
  const CONTROL: Text := [0x80]
  const UMLAUT: Text := [0xF6]

  /** The example of RFC 8785, section 3.2.3: UTF-16 code units decide, so the surrogate pair of U+1F600 comes
      before U+FB33. */
  lemma SortingExample()
    ensures Less(RETURN, ONE) && Less(ONE, CONTROL) && Less(CONTROL, UMLAUT) && Less(UMLAUT, EURO)
    ensures Less(EURO, SMILE) && Less(SMILE, HEBREW)
  {
  }
}
