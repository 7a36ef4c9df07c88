/** The numbers and strings that are read as JSON (sections 6 and 7 of RFC 8259). */
module JsonGrammar {
  import opened CodeUnits
  import opened Numerals
  import opened CanonicalJson

  // ---------------------------------------------------------------- numbers

  predicate Digits(t: Text) { t != [] && forall i :: 0 <= i < |t| ==> 48 <= t[i] <= 57 }

  predicate IsInteger(t: Text) { t == [48] || (Digits(t) && t[0] != 48) }

  predicate IsFraction(t: Text) { t == [] || (t[0] == 46 && Digits(t[1..])) }

  predicate IsExponent(t: Text) {
    t == [] || (t[0] in {69, 101} && (Digits(t[1..]) || (|t| > 1 && t[1] in {43, 45} && Digits(t[2..]))))
  }

  predicate IsSign(t: Text) { t == [] || t == [45] }

  /** Sign, integer part, fraction and exponent. */
  predicate NumberParts(t: Text, sign: Text, whole: Text, fraction: Text, exponent: Text) {
    t == sign + whole + fraction + exponent && IsSign(sign) && IsInteger(whole) && IsFraction(fraction) && IsExponent(exponent)
  }

  ghost predicate IsNumeral(t: Text) {
    exists sign: Text, whole: Text, fraction: Text, exponent: Text :: NumberParts(t, sign, whole, fraction, exponent)
  }

  /** What digits are skipped, and what is left. */
  lemma {:induction false} DigitsSkipped(t: Text) returns (digits: Text)
    ensures t == digits + SkipDigits(t) && (digits == [] || Digits(digits))
    ensures SkipDigits(t) != [] ==> !IsDigit(SkipDigits(t)[0])
    ensures t != [] && IsDigit(t[0]) ==> digits != [] && digits[0] == t[0]
  {
    if t != [] && IsDigit(t[0]) {
      digits := DigitsSkipped(t[1..]);
      digits := [t[0]] + digits;
    } else {
      digits := [];
    }
  }

  lemma {:induction false} SkipsDigits(digits: Text, rest: Text)
    requires (digits == [] || Digits(digits)) && (rest == [] || !IsDigit(rest[0]))
    ensures SkipDigits(digits + rest) == rest
  {
    if digits == [] {
      assert digits + rest == rest;
    } else {
      assert (digits + rest)[1..] == digits[1..] + rest;
      SkipsDigits(digits[1..], rest);
    }
  }

  lemma IntegerSkipped(t: Text) returns (whole: Text)
    requires SkipInteger(t).Some?
    ensures t == whole + SkipInteger(t).value && IsInteger(whole)
  {
    if t[0] == 48 {
      whole := [48];
    } else {
      whole := DigitsSkipped(t[1..]);
      whole := [t[0]] + whole;
    }
  }

  lemma FractionSkipped(t: Text) returns (fraction: Text)
    ensures t == fraction + SkipFraction(t) && IsFraction(fraction)
  {
    fraction := [];
    if |t| >= 2 && t[0] == POINT && IsDigit(t[1]) {
      var digits := DigitsSkipped(t[1..]);
      fraction := [46] + digits;
      assert fraction[1..] == digits;
    }
  }

  lemma MarkSignDigits(t: Text, sign: Text, digits: Text, rest: Text)
    requires t != [] && t[0] in {69, 101} && t[1..] == sign + (digits + rest) && Digits(digits)
    requires sign == [] || sign == [43] || sign == [45]
    ensures var exponent := [t[0]] + sign + digits; t == exponent + rest && IsExponent(exponent)
  {
    var exponent := [t[0]] + sign + digits;
    assert sign == [] ==> exponent[1..] == digits;
    assert sign != [] ==> exponent[2..] == digits && exponent[1] == sign[0];
  }

  lemma ExponentSkipped(t: Text) returns (exponent: Text)
    ensures t == exponent + SkipExponent(t) && IsExponent(exponent)
  {
    exponent := [];
    if t != [] && IsExponentMark(t[0]) {
      var after := SkipSign(t[1..]);
      if after != [] && IsDigit(after[0]) {
        var digits := DigitsSkipped(after);
        var sign := t[1..|t| - |after|];
        exponent := [t[0]] + sign + digits;
        MarkSignDigits(t, sign, digits, SkipDigits(after));
      }
    }
  }

  lemma SkippedIsNumeral(t: Text)
    requires SkipNumeral(t) == Some([])
    ensures IsNumeral(t)
  {
    hide IsInteger, IsFraction, IsExponent, SkipInteger, SkipFraction, SkipExponent;
    var digits := Unsigned(t);
    var sign := t[..|t| - |digits|];
    assert t == sign + digits && IsSign(sign);
    var whole := IntegerSkipped(digits);
    var rest := SkipInteger(digits).value;
    var fraction := FractionSkipped(rest);
    var exponent := ExponentSkipped(SkipFraction(rest));
    Joined(t, sign, whole, fraction, exponent, digits, rest, SkipFraction(rest));
    assert NumberParts(t, sign, whole, fraction, exponent);
  }

  lemma Joined(t: Text, sign: Text, whole: Text, fraction: Text, exponent: Text, digits: Text, rest: Text, last: Text)
    requires t == sign + digits && digits == whole + rest && rest == fraction + last && last == exponent + []
    ensures t == sign + whole + fraction + exponent
  {
  }

  lemma SkipsInteger(whole: Text, rest: Text)
    requires IsInteger(whole) && (rest == [] || !IsDigit(rest[0]))
    ensures SkipInteger(whole + rest) == Some(rest)
  {
    assert (whole + rest)[1..] == whole[1..] + rest;
    if whole != [48] {
      SkipsDigits(whole[1..], rest);
    }
  }

  lemma SkipsFraction(fraction: Text, rest: Text)
    requires IsFraction(fraction) && (rest == [] || (!IsDigit(rest[0]) && rest[0] != POINT))
    ensures SkipFraction(fraction + rest) == rest
  {
    if fraction == [] {
      assert fraction + rest == rest;
    } else {
      assert (fraction + rest)[1..] == fraction[1..] + rest;
      SkipsDigits(fraction[1..], rest);
    }
  }

  lemma SkipsExponent(exponent: Text)
    requires IsExponent(exponent)
    ensures SkipExponent(exponent) == []
  {
    if exponent != [] {
      var after := SkipSign(exponent[1..]);
      assert exponent[1..][1..] == exponent[2..] || |exponent| == 1;
      SkipsDigits(after, []);
      assert after + [] == after;
    }
  }

  lemma NumeralIsSkipped(t: Text, sign: Text, whole: Text, fraction: Text, exponent: Text)
    requires NumberParts(t, sign, whole, fraction, exponent)
    ensures SkipNumeral(t) == Some([])
  {
    var rest := fraction + exponent;
    assert t == sign + (whole + rest);
    assert Unsigned(t) == whole + rest;
    SkipsInteger(whole, rest);
    SkipsFraction(fraction, exponent);
    SkipsExponent(exponent);
  }

  /** Exactly the numerals of JSON are skipped whole. */
  lemma NumeralsExactly(t: Text)
    ensures SkipNumeral(t) == Some([]) <==> IsNumeral(t)
  {
    if SkipNumeral(t) == Some([]) {
      SkippedIsNumeral(t);
    }
    if sign: Text, whole: Text, fraction: Text, exponent: Text :| NumberParts(t, sign, whole, fraction, exponent) {
      NumeralIsSkipped(t, sign, whole, fraction, exponent);
    }
  }

  /** What is read whole as a number is a numeral of JSON; and a numeral is read unless no number prints it. */
  lemma NumbersAreNumerals(t: Text)
    ensures ParseNumber(t).Done? && ParseNumber(t).rest == [] <==> IsNumeral(t) && (SafeInteger(t).Some? || IsFloat(t))
  {
    NumeralsExactly(t);
    assert t[..|t|] == t;
  }

  // ---------------------------------------------------------------- what numerals denote

  function TenTo(k: nat): (r: nat)
    ensures r >= 1
  {
    if k == 0 then 1 else 10 * TenTo(k - 1)
  }

  /** Each digit counts by its place. */
  function Positional(digits: Text): nat
    requires digits == [] || Digits(digits)
  {
    if digits == [] then 0 else (digits[0] - 48) * TenTo(|digits| - 1) + Positional(digits[1..])
  }

  function Places(fraction: Text): (r: Text)
    requires IsFraction(fraction)
    ensures r == [] || Digits(r)
  {
    if fraction == [] then [] else fraction[1..]
  }

  predicate IsNegative(exponent: Text) { |exponent| > 1 && exponent[1] == 45 }

  function Power(exponent: Text): (r: nat)
    requires IsExponent(exponent)
  {
    if exponent == [] then 0
    else if exponent[1] in {43, 45} then Positional(exponent[2..])
    else Positional(exponent[1..])
  }

  lemma {:induction false} DigitsAre(digits: Text, rest: Text, n: nat)
    requires (digits == [] || Digits(digits)) && (rest == [] || !IsDigit(rest[0]))
    ensures ParseDigits(digits + rest, n) == (n * TenTo(|digits|) + Positional(digits), rest)
  {
    if digits == [] {
      assert digits + rest == rest;
    } else {
      var d := digits[0] - 48;
      assert (digits + rest)[1..] == digits[1..] + rest;
      DigitsAre(digits[1..], rest, 10 * n + d);
      OneMoreDigit(n, d, TenTo(|digits| - 1));
    }
  }

  lemma OneMoreDigit(n: nat, d: nat, p: nat)
    ensures (10 * n + d) * p == n * (10 * p) + d * p
  {
  }

  lemma OneMore(e: int)
    ensures PowerOfTen(e + 1) == 10.0 * PowerOfTen(e)
  {
  }

  lemma {:induction false} Scaled(e: int, k: nat)
    ensures PowerOfTen(e) == PowerOfTen(e - k) * TenTo(k) as real
  {
    if k > 0 {
      Scaled(e, k - 1);
      OneMore(e - k);
    }
  }

  lemma ExponentStarts(exponent: Text)
    requires IsExponent(exponent)
    ensures exponent != [] ==> !IsDigit(exponent[0]) && exponent[0] != POINT
  {
  }

  lemma NoDigits()
    ensures TenTo(0) == 1 && Positional([]) == 0
  {
  }

  /** The digits of a numeral with its point left out. */
  function AllDigits(whole: Text, fraction: Text): nat
    requires IsInteger(whole) && IsFraction(fraction)
  {
    Positional(whole) * TenTo(|Places(fraction)|) + Positional(Places(fraction))
  }

  lemma WholeAndPlaces(whole: Text, fraction: Text, exponent: Text)
    requires IsInteger(whole) && IsFraction(fraction) && IsExponent(exponent)
    ensures Denoted(whole + fraction + exponent) ==
      AllDigits(whole, fraction) as real * PowerOfTen(Exponent(exponent) - |Places(fraction)|)
  {
    hide ParseDigits, Positional, PowerOfTen, Exponent, IsExponent, TenTo;
    var rest := fraction + exponent;
    var t := whole + rest;
    assert whole + fraction + exponent == t && Unsigned(t) == t;
    ExponentStarts(exponent);
    DigitsAre(whole, rest, 0);
    if fraction == [] {
      assert rest == exponent;
      NoDigits();
    } else {
      assert rest[1..] == fraction[1..] + exponent;
      DigitsAre(fraction[1..], exponent, Positional(whole));
    }
  }

  lemma MinusDenotes(t: Text)
    requires t != [] && IsDigit(t[0])
    ensures Denoted([MINUS] + t) == -Denoted(t)
  {
    assert ([MINUS] + t)[1..] == t;
  }

  lemma ExponentIs(exponent: Text)
    requires IsExponent(exponent)
    ensures var power: int := Power(exponent); Exponent(exponent) == if IsNegative(exponent) then -power else power
  {
    if exponent != [] {
      assert exponent[1..][1..] == exponent[2..];
      var digits := SkipSign(exponent[1..]);
      assert digits + [] == digits;
      DigitsAre(digits, [], 0);
    }
  }

  lemma PowerIsTenTo(k: nat)
    ensures PowerOfTen(k) == TenTo(k) as real && PowerOfTen(0 - k) * TenTo(k) as real == 1.0
  {
    Scaled(k, k);
    Scaled(0, k);
  }

  lemma Spread(whole: nat, part: nat, places: nat, e: int)
    ensures (whole * TenTo(places) + part) as real * PowerOfTen(e - places)
      == (whole as real + part as real / TenTo(places) as real) * PowerOfTen(e)
  {
    var p, q := TenTo(places) as real, PowerOfTen(e - places);
    Scaled(e, places);
    assert (whole * TenTo(places) + part) as real == whole as real * p + part as real;
    Regroup(whole as real, part as real, p, q);
  }

  lemma Regroup(a: real, b: real, p: real, q: real)
    requires p != 0.0
    ensures (a * p + b) * q == (a + b / p) * (q * p)
  {
    var c := b / p;
    assert b == c * p;
  }

  lemma Scale(size: real, factor: real, p: real, down: bool)
    requires p != 0.0 && if down then factor * p == 1.0 else factor == p
    ensures size * factor == if down then size / p else size * p
  {
    if down {
      assert factor == 1.0 / p;
    }
  }

  lemma Together(whole: nat, part: nat, places: nat, p: nat, down: bool, e: int, denoted: real)
    requires e == (if down then 0 - p else p)
    requires denoted == (whole * TenTo(places) + part) as real * PowerOfTen(e - places)
    ensures var size := whole as real + part as real / TenTo(places) as real;
      denoted == if down then size / TenTo(p) as real else size * TenTo(p) as real
  {
    hide PowerOfTen, TenTo;
    Spread(whole, part, places, e);
    PowerIsTenTo(p);
    Scale(whole as real + part as real / TenTo(places) as real, PowerOfTen(e), TenTo(p) as real, down);
  }

  lemma UnsignedDenotes(whole: Text, fraction: Text, exponent: Text)
    requires IsInteger(whole) && IsFraction(fraction) && IsExponent(exponent)
    ensures var places := Places(fraction);
      var size := Positional(whole) as real + Positional(places) as real / TenTo(|places|) as real;
      var scale := TenTo(Power(exponent)) as real;
      Denoted(whole + fraction + exponent) == if IsNegative(exponent) then size / scale else size * scale
  {
    hide Denoted, PowerOfTen, TenTo, Positional, Exponent, Power, IsNegative;
    WholeAndPlaces(whole, fraction, exponent);
    ExponentIs(exponent);
    var places := Places(fraction);
    Together(Positional(whole), Positional(places), |places|, Power(exponent), IsNegative(exponent), Exponent(exponent),
             Denoted(whole + fraction + exponent));
  }

  /** A numeral denotes the digits before and after its point by their places, times its power of ten. */
  lemma NumeralsDenote(t: Text, sign: Text, whole: Text, fraction: Text, exponent: Text)
    requires NumberParts(t, sign, whole, fraction, exponent)
    ensures var places := Places(fraction);
      var size := Positional(whole) as real + Positional(places) as real / TenTo(|places|) as real;
      var scale := TenTo(Power(exponent)) as real;
      Denoted(t) == (if sign == [] then 1.0 else -1.0) * (if IsNegative(exponent) then size / scale else size * scale)
  {
    hide Denoted, PowerOfTen, Positional, TenTo, Exponent, Power;
    UnsignedDenotes(whole, fraction, exponent);
    var rest := whole + fraction + exponent;
    if sign == [] {
      assert t == rest;
    } else {
      assert t == [MINUS] + rest;
      MinusDenotes(rest);
    }
  }

  function TwoTo(k: nat): nat {
    if k == 0 then 1 else 2 * TwoTo(k - 1)
  }

  lemma {:induction false} TwoToSum(a: nat, b: nat)
    ensures TwoTo(a + b) == TwoTo(a) * TwoTo(b)
  {
    if a > 0 {
      TwoToSum(a - 1, b);
    }
  }

  lemma PowersOfTwo()
    ensures TwoTo(54) == 18014398509481984 && TwoTo(97) as real == TWO_97
  {
    assert TwoTo(11) == 2048;
    TwoToSum(11, 11);
    TwoToSum(22, 5);
    TwoToSum(27, 27);
    TwoToSum(22, 21);
    assert TwoTo(21) == 2097152;
    TwoToSum(43, 54);
  }

  lemma FifthPower(a: nat, x: real)
    requires x == a as real
    ensures x * x * x * x * x == (a * a * a * a * a) as real
  {
    Product(a, a);
    Product(a * a, a);
    Product(a * a * a, a);
    Product(a * a * a * a, a);
  }

  lemma Product(a: nat, b: nat)
    ensures a as real * b as real == (a * b) as real
  {
  }

  lemma FiveTimes(a: nat)
    ensures TwoTo(5 * a) == TwoTo(a) * TwoTo(a) * TwoTo(a) * TwoTo(a) * TwoTo(a)
  {
    TwoToSum(a, a);
    TwoToSum(2 * a, a);
    TwoToSum(3 * a, a);
    TwoToSum(4 * a, a);
  }

  /** Half way from the greatest double, `2 ** 1024 - 2 ** 971`, to `2 ** 1024`. */
  lemma InfiniteIs()
    ensures Infinite() == (TwoTo(1024) - TwoTo(970)) as real
  {
    hide TwoTo;
    PowersOfTwo();
    TwoToSum(97, 97);
    Product(TwoTo(97), TwoTo(97));
    FiveTimes(194);
    FifthPower(TwoTo(194), TWO_97 * TWO_97);
    TwoToSum(54, 970);
    Product(TwoTo(54) - 1, TwoTo(970));
  }

  lemma NumeralUnits(t: Text, sign: Text, whole: Text, fraction: Text, exponent: Text)
    requires NumberParts(t, sign, whole, fraction, exponent)
    ensures t != [] && forall u :: u in t ==> NumeralUnit(u)
  {
    UnitsOf(sign);
    UnitsOf(whole);
    UnitsOf(fraction);
    UnitsOf(exponent);
  }

  lemma UnitsOf(part: Text)
    requires IsSign(part) || IsInteger(part) || IsFraction(part) || IsExponent(part)
    ensures forall u :: u in part ==> NumeralUnit(u)
  {
    forall u | u in part
      ensures NumeralUnit(u)
    {
      var i :| 0 <= i < |part| && part[i] == u;
      assert i >= 1 ==> part[1..][i - 1] == u;
      assert i >= 2 ==> part[2..][i - 2] == u;
    }
  }

  /** A safe integer is a numeral without fraction and exponent, at most 2 ** 53 - 1 but for its sign. */
  lemma SafeIntegersExactly(t: Text, sign: Text, whole: Text, fraction: Text, exponent: Text)
    requires NumberParts(t, sign, whole, fraction, exponent)
    ensures SafeInteger(t).Some? <==> fraction == [] && exponent == [] && Positional(whole) < TwoTo(53)
    ensures SafeInteger(t).Some? ==> var size: int := Positional(whole); SafeInteger(t).value == if sign == [] then size else -size
  {
    hide Positional, ParseDigits, IsExponent;
    var rest := fraction + exponent;
    assert t == sign + (whole + rest);
    assert Unsigned(t) == whole + rest by { assert sign == [] ==> t == whole + rest; }
    ExponentStarts(exponent);
    DigitsAre(whole, rest, 0);
    FiftyThree();
  }

  lemma FiftyThree()
    ensures TwoTo(53) == MAX_SAFE_INTEGER + 1
  {
    PowersOfTwo();
  }

  /** Any other number is written as a numeral that is no safe integer and denotes less than infinity. */
  lemma FloatsExactly(t: Text)
    ensures IsFloat(t) <==>
      IsNumeral(t) && SafeInteger(t).None? && -(TwoTo(1024) - TwoTo(970)) as real < Denoted(t) < (TwoTo(1024) - TwoTo(970)) as real
  {
    hide TwoTo, Infinite, Denoted, SafeInteger;
    InfiniteIs();
    NumeralsExactly(t);
    if sign: Text, whole: Text, fraction: Text, exponent: Text :| NumberParts(t, sign, whole, fraction, exponent) {
      NumeralUnits(t, sign, whole, fraction, exponent);
    }
  }

  // ---------------------------------------------------------------- strings

  function HexDigit(u: Unit): Option<nat> {
    if 48 <= u <= 57 then Some(u - 48) else if 97 <= u <= 102 then Some(u - 87) else if 65 <= u <= 70 then Some(u - 55) else None
  }

  /** One unit as it may be written: as it is, after a backslash, or by number. */
  predicate Piece(piece: Text, u: Unit) {
    || (piece == [u] && u >= 32 && u != 34 && u != 92)
    || (|piece| == 2 && piece[0] == 92
        && (piece[1], u) in {(34, 34), (92, 92), (47, 47), (98, 8), (116, 9), (110, 10), (102, 12), (114, 13)})
    || (|piece| == 6 && piece[0] == 92 && piece[1] == 117
        && HexDigit(piece[2]).Some? && HexDigit(piece[3]).Some? && HexDigit(piece[4]).Some? && HexDigit(piece[5]).Some?
        && u == ((HexDigit(piece[2]).value * 16 + HexDigit(piece[3]).value) * 16 + HexDigit(piece[4]).value) * 16 + HexDigit(piece[5]).value)
  }

  ghost predicate Pieces(body: Text, s: Text)
    decreases |s|
  {
    if s == [] then body == []
    else exists piece, more :: body == piece + more && Piece(piece, s[0]) && Pieces(more, s[1..])
  }

  /** The first unit of a string that goes on. */
  function FirstUnit(t: Text): (r: Parsed<Unit>)
    requires t != []
    ensures r.Done? ==> |r.rest| < |t|
  {
    if t[0] == BACKSLASH then ParseEscape(t[1..]) else Done(t[0], t[1..])
  }

  lemma FirstIsPiece(t: Text)
    requires t != [] && t[0] >= 32 && t[0] != 34 && FirstUnit(t).Done?
    ensures var r := FirstUnit(t); Piece(t[..|t| - |r.rest|], r.value) && t == t[..|t| - |r.rest|] + r.rest
  {
  }

  lemma PieceIsFirst(piece: Text, u: Unit, more: Text)
    requires Piece(piece, u)
    ensures var t := piece + more; t[0] >= 32 && t[0] != 34 && FirstUnit(t) == Done(u, more)
  {
    var t := piece + more;
    assert t[|piece|..] == more;
    assert |piece| > 1 ==> t[1] == piece[1] && t[1..][1..] == t[2..];
    if |piece| == 6 {
      assert t[1..][5..] == t[6..];
    }
  }

  lemma {:induction false} ReadInPieces(t: Text) returns (body: Text)
    requires ParseString(t).Done?
    ensures t == body + [34] + ParseString(t).rest && Pieces(body, ParseString(t).value)
    decreases |t|
  {
    if t[0] == QUOTE {
      body := [];
    } else {
      var first := FirstUnit(t);
      FirstIsPiece(t);
      body := ReadInPieces(first.rest);
      var piece, more := t[..|t| - |first.rest|], body;
      body := piece + more;
      var s := ParseString(t).value;
      assert s[1..] == ParseString(first.rest).value;
      assert body == piece + more && Piece(piece, s[0]) && Pieces(more, s[1..]);
    }
  }

  lemma FirstThenRest(t: Text, piece: Text, later: Text, s: Text, rest: Text)
    requires t == piece + later && s != [] && ParseString(later) == Done(s[1..], rest)
    requires piece + later != [] && (piece + later)[0] >= 32 && (piece + later)[0] != 34 && FirstUnit(piece + later) == Done(s[0], later)
    ensures ParseString(t) == Done(s, rest)
  {
    assert [s[0]] + s[1..] == s;
  }

  lemma {:induction false} PiecesAreRead(body: Text, s: Text, rest: Text)
    requires Pieces(body, s)
    ensures ParseString(body + [34] + rest) == Done(s, rest)
    decreases |s|
  {
    hide ParseEscape, Piece;
    if s == [] {
      assert ([] + [34] + rest)[1..] == rest;
    } else {
      var piece, more :| body == piece + more && Piece(piece, s[0]) && Pieces(more, s[1..]);
      PiecesAreRead(more, s[1..], rest);
      PieceIsFirst(piece, s[0], more + [34] + rest);
      FirstThenRest(body + [34] + rest, piece, more + [34] + rest, s, rest);
    }
  }

  /** Exactly what is written in pieces, up to a quote, is read as a string. */
  lemma StringsExactly(t: Text, s: Text, rest: Text)
    ensures ParseString(t) == Done(s, rest) <==> exists body :: Pieces(body, s) && t == body + [34] + rest
  {
    if ParseString(t) == Done(s, rest) {
      var body := ReadInPieces(t);
    }
    if body :| Pieces(body, s) && t == body + [34] + rest {
      PiecesAreRead(body, s, rest);
    }
  }
}
