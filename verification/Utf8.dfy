/** UTF-8 (section 3 of RFC 3629). */
module Utf8 {
  // Between JavaScript strings and bytes, with a decoder that is fed piece by piece: it holds an
  // unfinished character back until its last byte has come.
  import opened CodeUnits
  import opened CanonicalJson
  import opened CanonicalMeaning

  type Byte = b: int | 0 <= b < 256

  type Bytes = seq<Byte>

  // ---------------------------------------------------------------- encoding

  function CodePoint(high: Unit, low: Unit): int
    requires High(high) && Low(low)
  {
    0x10000 + (high - 0xD800) * 1024 + (low - 0xDC00)
  }

  function EncodeCode(c: int): Bytes
    requires 0 <= c < 0x110000
  {
    if c < 0x80 then [c]
    else if c < 0x800 then [0xC0 + c / 64, 0x80 + c % 64]
    else if c < 0x10000 then [0xE0 + c / 4096, 0x80 + c / 64 % 64, 0x80 + c % 64]
    else [0xF0 + c / 262144, 0x80 + c / 4096 % 64, 0x80 + c / 64 % 64, 0x80 + c % 64]
  }

  /** The code point a text starts with; a lone surrogate is replaced by U+FFFD. */
  function FirstCode(t: Text): (c: int)
    requires t != []
    ensures 0 <= c < 0x110000
  {
    if Width(t) == 2 then CodePoint(t[0], t[1]) else if High(t[0]) || Low(t[0]) then 0xFFFD else t[0]
  }

  /** `Buffer.from(text)` */
  function Encode(t: Text): Bytes {
    if t == [] then [] else EncodeCode(FirstCode(t)) + Encode(t[Width(t)..])
  }

  // ---------------------------------------------------------------- decoding one character

  datatype Reading = Broken | Short | Char(code: int, width: nat)

  /** How many bytes a character with this first byte has; 0 for a byte that starts none. */
  function Length(lead: Byte): nat {
    if lead < 0x80 then 1 else if 0xC2 <= lead < 0xE0 then 2 else if 0xE0 <= lead < 0xF0 then 3
    else if 0xF0 <= lead < 0xF5 then 4 else 0
  }

  predicate Continuation(b: Byte) { 0x80 <= b < 0xC0 }

  /** The second byte is in a narrower range after some first bytes. */
  predicate SecondOk(lead: Byte, b: Byte) {
    Continuation(b) && (lead == 0xE0 ==> b >= 0xA0) && (lead == 0xED ==> b < 0xA0)
    && (lead == 0xF0 ==> b >= 0x90) && (lead == 0xF4 ==> b < 0x90)
  }

  /** The bytes start as a character does, as far as they go. */
  predicate Starts(b: Bytes)
    requires b != []
  {
    var n := Length(b[0]);
    && n > 0
    && (n > 1 && |b| > 1 ==> SecondOk(b[0], b[1]))
    && (n > 2 && |b| > 2 ==> Continuation(b[2]))
    && (n > 3 && |b| > 3 ==> Continuation(b[3]))
  }

  function DecodeCode(b: Bytes): int
    requires b != [] && Starts(b) && |b| >= Length(b[0])
  {
    var n := Length(b[0]);
    if n == 1 then b[0]
    else if n == 2 then Sixes(0, 0, b[0] - 0xC0, b[1] - 0x80)
    else if n == 3 then Sixes(0, b[0] - 0xE0, b[1] - 0x80, b[2] - 0x80)
    else Sixes(b[0] - 0xF0, b[1] - 0x80, b[2] - 0x80, b[3] - 0x80)
  }

  /** A number from its six-bit groups. */
  function Sixes(w: int, x: int, y: int, z: int): int { w * 262144 + x * 4096 + y * 64 + z }

  function First(b: Bytes): Reading
    requires b != []
  {
    if !Starts(b) then Broken
    else if |b| < Length(b[0]) then Short
    else Char(DecodeCode(b), Length(b[0]))
  }

  /** A code point that is a character. */
  predicate IsScalar(c: int) { 0 <= c < 0xD800 || 0xE000 <= c < 0x110000 }

  function Units(c: int): Text
    requires IsScalar(c)
  {
    if c < 0x10000 then [c] else [0xD800 + (c - 0x10000) / 1024, 0xDC00 + (c - 0x10000) % 1024]
  }

  lemma DecodedIsScalar(b: Bytes)
    requires b != [] && First(b).Char?
    ensures IsScalar(First(b).code) && 1 <= First(b).width <= |b|
    ensures EncodeCode(First(b).code) == b[..First(b).width]
  {
    var n := Length(b[0]);
    if n == 2 {
      TwoBytes(b[0] - 0xC0, b[1] - 0x80);
    } else if n == 3 {
      ThreeBytes(b[0] - 0xE0, b[1] - 0x80, b[2] - 0x80);
    } else if n == 4 {
      FourBytes(b[0] - 0xF0, b[1] - 0x80, b[2] - 0x80, b[3] - 0x80);
    }
  }

  lemma TwoBytes(x: int, y: int)
    requires 2 <= x < 32 && 0 <= y < 64
    ensures var c := x * 64 + y; 0x80 <= c < 0x800 && c / 64 == x && c % 64 == y
  {
  }

  lemma ThreeBytes(x: int, y: int, z: int)
    requires 0 <= x < 16 && 0 <= y < 64 && 0 <= z < 64
    requires (x == 0 ==> y >= 32) && (x == 13 ==> y < 32)
    ensures var c := x * 4096 + y * 64 + z;
      0x800 <= c < 0x10000 && IsScalar(c) && c / 4096 == x && c / 64 % 64 == y && c % 64 == z
  {
    var c := x * 4096 + y * 64 + z;
    assert c / 64 == x * 64 + y;
  }

  lemma FourBytes(w: int, x: int, y: int, z: int)
    requires 0 <= w < 5 && 0 <= x < 64 && 0 <= y < 64 && 0 <= z < 64
    requires (w == 0 ==> x >= 16) && (w == 4 ==> x < 16)
    ensures var c := w * 262144 + x * 4096 + y * 64 + z;
      0x10000 <= c < 0x110000 && c / 262144 == w && c / 4096 % 64 == x && c / 64 % 64 == y && c % 64 == z
  {
    var c := w * 262144 + x * 4096 + y * 64 + z;
    assert c / 4096 == w * 64 + x;
    assert c / 64 == (w * 64 + x) * 64 + y;
  }

  // ---------------------------------------------------------------- decoding

  datatype Decoded = Bad | Good(text: Text, held: Bytes)

  /** Puts what was decoded before in front. */
  function Behind(t: Text, d: Decoded): Decoded {
    if d.Bad? then Bad else Good(t + d.text, d.held)
  }

  /** The decoder: all whole characters, and the bytes it holds back. */
  function Decode(b: Bytes): Decoded {
    if b == [] then Good([], [])
    else if First(b).Broken? then Bad
    else if First(b).Short? then Good([], b)
    else
      DecodedIsScalar(b);
      Behind(Units(First(b).code), Decode(b[First(b).width..]))
  }

  lemma StartsStays(a: Bytes, b: Bytes)
    requires a != []
    ensures First(a).Broken? ==> First(a + b).Broken?
    ensures First(a).Char? ==> First(a + b) == First(a)
  {
  }

  /** Decoding in two pieces, with the held bytes carried over, is decoding at once. */
  lemma {:induction false} DecodePieces(a: Bytes, b: Bytes)
    ensures Decode(a + b) == if Decode(a).Bad? then Bad else Behind(Decode(a).text, Decode(Decode(a).held + b))
    decreases |a|
  {
    if a == [] {
      assert a + b == b && Decode(a).held + b == b;
      BehindNothing(Decode(b));
    } else {
      StartsStays(a, b);
      if First(a).Short? {
        BehindNothing(Decode(a + b));
      } else if First(a).Char? {
        DecodedIsScalar(a);
        var n := First(a).width;
        assert (a + b)[n..] == a[n..] + b;
        DecodePieces(a[n..], b);
        if Decode(a[n..]).Good? {
          BehindTwice(Units(First(a).code), Decode(a[n..]).text, Decode(Decode(a[n..]).held + b));
        }
      }
    }
  }

  lemma BehindNothing(d: Decoded)
    ensures Behind([], d) == d
  {
    if d.Good? {
      assert [] + d.text == d.text;
    }
  }

  lemma BehindTwice(t: Text, u: Text, d: Decoded)
    ensures Behind(t, Behind(u, d)) == Behind(t + u, d)
  {
    if d.Good? {
      assert t + (u + d.text) == t + u + d.text;
    }
  }

  lemma UnitsEncode(c: int, t: Text)
    requires IsScalar(c)
    ensures Encode(Units(c) + t) == EncodeCode(c) + Encode(t)
    ensures Paired(t) ==> Paired(Units(c) + t)
  {
    var u := Units(c);
    assert (u + t)[|u|..] == t;
    if c >= 0x10000 {
      var d := c - 0x10000;
      assert d == d / 1024 * 1024 + d % 1024;
    }
  }

  /** What the decoder has given and what it holds back are exactly the bytes it was fed; it holds back
      at most three. */
  lemma {:induction false} DecodeKeepsAll(b: Bytes)
    requires Decode(b).Good?
    ensures Encode(Decode(b).text) + Decode(b).held == b && Paired(Decode(b).text)
    ensures |Decode(b).held| <= 3
    decreases |b|
  {
    if b == [] {
      assert Encode([]) == [];
    } else if First(b).Char? {
      DecodedIsScalar(b);
      var n := First(b).width;
      var tail := Decode(b[n..]);
      DecodeKeepsAll(b[n..]);
      FirstKept(b, tail.text);
      Rejoin(b, n, Encode(tail.text), tail.held);
    } else {
      assert [] + b == b;
    }
  }

  lemma FirstKept(b: Bytes, t: Text)
    requires b != [] && First(b).Char?
    ensures IsScalar(First(b).code) && First(b).width <= |b|
    ensures Encode(Units(First(b).code) + t) == b[..First(b).width] + Encode(t)
    ensures Paired(t) ==> Paired(Units(First(b).code) + t)
  {
    DecodedIsScalar(b);
    UnitsEncode(First(b).code, t);
  }

  lemma Rejoin(b: Bytes, n: nat, middle: Bytes, end: Bytes)
    requires n <= |b| && middle + end == b[n..]
    ensures b[..n] + middle + end == b
  {
    assert b[..n] + middle + end == b[..n] + (middle + end);
  }

  lemma CodeReads(c: int, rest: Bytes)
    requires IsScalar(c)
    ensures First(EncodeCode(c) + rest) == Char(c, |EncodeCode(c)|)
  {
    if 0x80 <= c < 0x800 {
      assert c == c / 64 * 64 + c % 64;
    } else if 0x800 <= c < 0x10000 {
      ThreeBytesBack(c);
    } else if c >= 0x10000 {
      FourBytesBack(c);
    }
  }

  lemma ThreeBytesBack(c: int)
    requires 0x800 <= c < 0x10000 && IsScalar(c)
    ensures var x, y, z := c / 4096, c / 64 % 64, c % 64;
      c == x * 4096 + y * 64 + z && 0 <= x < 16 && (x == 0 ==> y >= 32) && (x == 13 ==> y < 32)
  {
    assert c / 64 == c / 4096 * 64 + c / 64 % 64;
  }

  lemma FourBytesBack(c: int)
    requires 0x10000 <= c < 0x110000
    ensures var w, x, y, z := c / 262144, c / 4096 % 64, c / 64 % 64, c % 64;
      c == w * 262144 + x * 4096 + y * 64 + z && 0 <= w < 5 && (w == 0 ==> x >= 16) && (w == 4 ==> x < 16)
  {
    assert c / 4096 == c / 262144 * 64 + c / 4096 % 64;
    assert c / 64 == c / 4096 * 64 + c / 64 % 64;
  }

  lemma FirstOfPaired(t: Text)
    requires t != [] && Paired(t)
    ensures IsScalar(FirstCode(t)) && Units(FirstCode(t)) == t[..Width(t)] && Paired(t[Width(t)..])
  {
    if Width(t) == 2 {
      var d := CodePoint(t[0], t[1]) - 0x10000;
      assert d / 1024 == t[0] - 0xD800 && d % 1024 == t[1] - 0xDC00;
    }
  }

  /** Well-formed text comes back whole. */
  lemma {:induction false} DecodesBack(t: Text)
    requires Paired(t)
    ensures Decode(Encode(t)) == Good(t, [])
    decreases |t|
  {
    if t != [] {
      var n := Width(t);
      FirstOfPaired(t);
      DecodesBack(t[n..]);
      DecodesFirst(FirstCode(t), Encode(t[n..]));
      assert t == t[..n] + t[n..];
    }
  }

  lemma DecodesFirst(c: int, rest: Bytes)
    requires IsScalar(c)
    ensures Decode(EncodeCode(c) + rest) == Behind(Units(c), Decode(rest))
  {
    CodeReads(c, rest);
    var b := EncodeCode(c) + rest;
    assert b[|EncodeCode(c)|..] == rest;
  }

  lemma {:induction false} EncodeAppend(a: Text, b: Text)
    requires Paired(a)
    ensures Encode(a + b) == Encode(a) + Encode(b)
    decreases |a|
  {
    if a == [] {
      assert a + b == b;
    } else {
      var n := Width(a);
      FirstOfPaired(a);
      assert (a + b)[n..] == a[n..] + b;
      EncodeAppend(a[n..], b);
      SameFirst(a, b);
      Rejoined(EncodeCode(FirstCode(a)), Encode(a[n..]), Encode(b));
    }
  }

  lemma SameFirst(a: Text, b: Text)
    requires a != [] && Paired(a)
    ensures Width(a + b) == Width(a) && FirstCode(a + b) == FirstCode(a)
  {
  }

  lemma Rejoined(first: Bytes, middle: Bytes, end: Bytes)
    ensures first + (middle + end) == first + middle + end
  {
  }

  // ---------------------------------------------------------------- lone surrogates

  predicate InPair(t: Text, i: nat)
    requires i < |t|
  {
    (High(t[i]) && i + 1 < |t| && Low(t[i + 1])) || (i > 0 && High(t[i - 1]) && Low(t[i]))
  }

  predicate Lone(t: Text, i: nat)
    requires i < |t|
  {
    (High(t[i]) || Low(t[i])) && !InPair(t, i)
  }

  /** U+FFFD for every lone surrogate. */
  function Mended(t: Text): Text {
    seq(|t|, i requires 0 <= i < |t| => if Lone(t, i) then 0xFFFD else t[i])
  }

  lemma MendedFirst(t: Text)
    requires t != []
    ensures Mended(t) == (if Width(t) == 2 then t[..2] else if High(t[0]) || Low(t[0]) then [0xFFFD] else [t[0]]) + Mended(t[Width(t)..])
  {
    var n := Width(t);
    forall i | n <= i < |t|
      ensures Mended(t)[i] == Mended(t[n..])[i - n]
    {
      assert t[i] == t[n..][i - n];
    }
  }

  /** Any text is encoded as the well-formed text it mends to, and that is what is decoded. */
  lemma {:induction false} EncodesMended(t: Text)
    ensures Encode(t) == Encode(Mended(t)) && Paired(Mended(t))
    decreases |t|
  {
    if t != [] {
      var n := Width(t);
      MendedFirst(t);
      EncodesMended(t[n..]);
      assert Mended(t)[n..] == Mended(t[n..]);
      assert FirstCode(Mended(t)) == FirstCode(t);
    }
  }

  lemma DecodesMended(t: Text)
    ensures Decode(Encode(t)) == Good(Mended(t), [])
  {
    EncodesMended(t);
    DecodesBack(Mended(t));
  }
}
