/** Numbers as JSON writes them. */
module Numerals {
  // A safe integer is written in plain decimal.  Any other finite number is represented by the text that
  // `JSON.stringify` prints for it: the shortest numeral that reads back as the number, so two numbers
  // have one text only if they are equal.
  import opened CodeUnits

  type SafeInt = n: int | -MAX_SAFE_INTEGER <= n <= MAX_SAFE_INTEGER

  const PLUS: Unit := 43
  const MINUS: Unit := 45
  const POINT: Unit := 46

  predicate IsDigit(u: Unit) { 48 <= u < 58 }

  predicate IsExponentMark(u: Unit) { u == 69 || u == 101 }

  /** A unit that would continue a numeral. */
  predicate Continues(u: Unit) { IsDigit(u) || u == POINT || IsExponentMark(u) }

  predicate NumeralUnit(u: Unit) { Continues(u) || u == PLUS || u == MINUS }

  // ---------------------------------------------------------------- integers

  function Decimal(n: nat): (t: Text)
    ensures t != [] && forall i :: 0 <= i < |t| ==> IsDigit(t[i])
    ensures t[0] == 48 ==> n == 0 && |t| == 1
  {
    if n < 10 then [48 + n] else Decimal(n / 10) + [48 + n % 10]
  }

  function Numeral(n: int): Text {
    if n < 0 then [MINUS] + Decimal(-n) else Decimal(n)
  }

  function ParseDigits(t: Text, n: nat): (r: (nat, Text))
    ensures |r.1| <= |t|
  {
    if t != [] && IsDigit(t[0]) then ParseDigits(t[1..], 10 * n + (t[0] - 48)) else (n, t)
  }

  lemma {:induction false} DigitsRead(n: nat, t: Text)
    ensures ParseDigits(Decimal(n) + t, 0) == ParseDigits(t, n)
  {
    if n < 10 {
      assert (Decimal(n) + t)[1..] == t;
    } else {
      assert Decimal(n) + t == Decimal(n / 10) + ([48 + n % 10] + t);
      DigitsRead(n / 10, [48 + n % 10] + t);
      assert ([48 + n % 10] + t)[1..] == t;
    }
  }

  function Unsigned(t: Text): (r: Text)
    ensures |r| <= |t|
  {
    if t != [] && t[0] == MINUS then t[1..] else t
  }

  /** The safe integer that a text of nothing but digits denotes. */
  function SafeInteger(t: Text): Option<SafeInt> {
    var digits := Unsigned(t);
    var n := ParseDigits(digits, 0);
    if digits == [] || n.1 != [] || n.0 > MAX_SAFE_INTEGER then None
    else
      var size: int := n.0;
      Some(if digits == t then size else -size)
  }

  // ---------------------------------------------------------------- numerals

  function SkipDigits(t: Text): (r: Text)
    ensures |r| <= |t|
  {
    if t != [] && IsDigit(t[0]) then SkipDigits(t[1..]) else t
  }

  /** What follows an integer without leading zeros. */
  function SkipInteger(t: Text): (r: Option<Text>)
    ensures r.Some? ==> |r.value| < |t|
  {
    if t == [] || !IsDigit(t[0]) then None else if t[0] == 48 then Some(t[1..]) else Some(SkipDigits(t[1..]))
  }

  function SkipFraction(t: Text): (r: Text)
    ensures |r| <= |t|
  {
    if |t| >= 2 && t[0] == POINT && IsDigit(t[1]) then SkipDigits(t[1..]) else t
  }

  function SkipSign(t: Text): (r: Text)
    ensures |r| <= |t|
  {
    if t != [] && (t[0] == PLUS || t[0] == MINUS) then t[1..] else t
  }

  function SkipExponent(t: Text): (r: Text)
    ensures |r| <= |t|
  {
    if t == [] || !IsExponentMark(t[0]) then t
    else var digits := SkipSign(t[1..]); if digits != [] && IsDigit(digits[0]) then SkipDigits(digits) else t
  }

  /** What follows a numeral. */
  function SkipNumeral(t: Text): (r: Option<Text>)
    ensures r.Some? ==> |r.value| < |t|
  {
    match SkipInteger(Unsigned(t))
    case None => None
    case Some(rest) => Some(SkipExponent(SkipFraction(rest)))
  }

  // ---------------------------------------------------------------- what numerals denote

  function PowerOfTen(e: int): real
    decreases if e < 0 then -e else e
  {
    if e == 0 then 1.0 else if e > 0 then 10.0 * PowerOfTen(e - 1) else PowerOfTen(e + 1) / 10.0
  }

  /** The exponent that follows the digits of a numeral. */
  function Exponent(t: Text): int {
    if t == [] then 0
    else
      var digits := SkipSign(t[1..]);
      var e: int := ParseDigits(digits, 0).0;
      if t[1..] != [] && t[1] == MINUS then -e else e
  }

  /** The number a numeral denotes, exactly. */
  function Denoted(t: Text): real {
    var whole := ParseDigits(Unsigned(t), 0);
    var pointed := whole.1 != [] && whole.1[0] == POINT;
    var all := if pointed then ParseDigits(whole.1[1..], whole.0) else whole;
    var places := if pointed then |whole.1| - 1 - |all.1| else 0;
    var size := all.0 as real * PowerOfTen(Exponent(all.1) - places);
    if Unsigned(t) == t then size else -size
  }

  const TWO_97: real := 158456325028528675187087900672.0

  /** `2 ** 1024 - 2 ** 970`: from here on, numerals are read as `Infinity`. */
  function Infinite(): real {
    var a := TWO_97 * TWO_97;
    18014398509481983.0 * (a * a * a * a * a)
  }

  predicate Finite(t: Text) { -Infinite() < Denoted(t) < Infinite() }

  // ---------------------------------------------------------------- other numbers

  /** The text of a number that is not a safe integer. */
  predicate IsFloat(t: Text) {
    t != [] && (forall i :: 0 <= i < |t| ==> NumeralUnit(t[i])) && SkipNumeral(t) == Some([]) && SafeInteger(t).None?
    && Finite(t)
  }

  const HALF: Text := [48, POINT, 53]

  lemma HalfIsFloat()
    ensures IsFloat(HALF)
  {
    assert HALF[1..] == [POINT, 53] && HALF[1..][1..] == [53] && [53][1..] == [];
    assert SkipDigits([53]) == SkipDigits([]);
    assert ParseDigits(HALF, 0) == ParseDigits(HALF[1..], 0) == (0, [POINT, 53]);
    HalfIsFinite();
  }

  lemma HalfIsFinite()
    ensures Finite(HALF)
  {
    assert HALF[1..] == [POINT, 53] && HALF[1..][1..] == [53] && [53][1..] == [];
    assert ParseDigits(HALF, 0) == ParseDigits(HALF[1..], 0) == (0, [POINT, 53]);
    assert ParseDigits([53], 0) == ParseDigits([], 5) == (5, []);
    assert PowerOfTen(-1) == PowerOfTen(0) / 10.0;
    assert Denoted(HALF) == 5.0 * PowerOfTen(-1);
    assert Infinite() > 1.0;
  }

  type FloatText = t: Text | IsFloat(t) witness (HalfIsFloat(); HALF)

  // ---------------------------------------------------------------- more text after a numeral

  lemma {:induction false} SkipDigitsMore(t: Text, rest: Text)
    requires rest == [] || !IsDigit(rest[0])
    ensures SkipDigits(t + rest) == SkipDigits(t) + rest
  {
    if t == [] {
      assert t + rest == rest;
    } else {
      assert (t + rest)[1..] == t[1..] + rest;
      SkipDigitsMore(t[1..], rest);
    }
  }

  lemma SkipIntegerMore(t: Text, rest: Text)
    requires (rest == [] || !IsDigit(rest[0])) && SkipInteger(t).Some?
    ensures SkipInteger(t + rest) == Some(SkipInteger(t).value + rest)
  {
    assert (t + rest)[1..] == t[1..] + rest;
    SkipDigitsMore(t[1..], rest);
  }

  lemma SkipFractionMore(t: Text, rest: Text)
    requires rest == [] || !Continues(rest[0])
    ensures SkipFraction(t + rest) == SkipFraction(t) + rest
  {
    if t == [] {
      assert t + rest == rest;
    } else {
      assert (t + rest)[1..] == t[1..] + rest;
      SkipDigitsMore(t[1..], rest);
    }
  }

  lemma SkipExponentMore(t: Text, rest: Text)
    requires (rest == [] || !Continues(rest[0])) && SkipExponent(t) == []
    ensures SkipExponent(t + rest) == rest
  {
    if t == [] {
      assert t + rest == rest;
    } else {
      var u := SkipSign(t[1..]);
      assert (t + rest)[1..] == t[1..] + rest;
      assert SkipSign(t[1..] + rest) == u + rest by {
        assert t[1..] != [] && (t[1..] + rest)[1..] == t[1..][1..] + rest;
      }
      SkipDigitsMore(u, rest);
      assert [] + rest == rest;
    }
  }

  lemma SkipNumeralMore(t: Text, rest: Text)
    requires (rest == [] || !Continues(rest[0])) && SkipNumeral(t) == Some([])
    ensures SkipNumeral(t + rest) == Some(rest)
  {
    var u := Unsigned(t);
    assert t != [] && Unsigned(t + rest) == u + rest by {
      assert (t + rest)[1..] == t[1..] + rest;
    }
    SkipIntegerMore(u, rest);
    var v := SkipInteger(u).value;
    SkipFractionMore(v, rest);
    SkipExponentMore(SkipFraction(v), rest);
  }

  lemma {:induction false} AllDigits(t: Text)
    requires forall i :: 0 <= i < |t| ==> IsDigit(t[i])
    ensures SkipDigits(t) == []
  {
    if t != [] {
      AllDigits(t[1..]);
    }
  }

  /** A safe integer's numeral is a numeral, and denotes it. */
  lemma IntegerSkips(n: SafeInt)
    ensures Numeral(n) != [] && SkipNumeral(Numeral(n)) == Some([]) && SafeInteger(Numeral(n)) == Some(n)
  {
    var m := if n < 0 then -n else n;
    var digits := Decimal(m);
    assert Unsigned(Numeral(n)) == digits by {
      assert ([MINUS] + digits)[1..] == digits;
    }
    AllDigits(digits[1..]);
    DigitsRead(m, []);
    assert digits + [] == digits;
  }

  lemma NumeralStarts(n: int)
    ensures Numeral(n) != [] && (IsDigit(Numeral(n)[0]) || Numeral(n)[0] == MINUS)
  {
  }

  lemma FloatStarts(t: FloatText)
    ensures t != [] && (IsDigit(t[0]) || t[0] == MINUS)
  {
  }
}
