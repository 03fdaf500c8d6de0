/** Code points, their UTF-16 encoding, and the escaping of JSON strings. */
module CanonicalText {
  import opened Wrappers

  type Code = c: int | 0 <= c < 0x11_0000

  type Text = seq<Code>

  const Quote: Code := 34
  const Backslash: Code := 92

  // ----- UTF-16 -----

  predicate Surrogate(c: Code) { 0xD800 <= c <= 0xDFFF }

  /** Encodable: no surrogate code point. */
  predicate Encodable(s: Text) { forall i :: 0 <= i < |s| ==> !Surrogate(s[i]) }

  type Unit = u: int | 0 <= u < 0x1_0000

  type Octet = b: int | 0 <= b < 0x100

  function Units(c: Code): seq<Unit> {
    if c < 0x1_0000 then [c] else [0xD800 + (c - 0x1_0000) / 0x400, 0xDC00 + (c - 0x1_0000) % 0x400]
  }

  function Utf16(s: Text): seq<Unit> {
    if s == [] then [] else Units(s[0]) + Utf16(s[1..])
  }

  function BigEndian(units: seq<Unit>): (bytes: seq<Octet>)
    ensures |bytes| == 2 * |units|
  {
    if units == [] then [] else [units[0] / 0x100, units[0] % 0x100] + BigEndian(units[1..])
  }

  /** The sort key of an object key: its UTF-16BE bytes. */
  function SortKey(s: Text): seq<Octet> { BigEndian(Utf16(s)) }

  /** Lexicographic order, as Python compares `bytes`. */
  predicate LexLeq(a: seq<int>, b: seq<int>) {
    if a == [] then true
    else if b == [] then false
    else a[0] < b[0] || (a[0] == b[0] && LexLeq(a[1..], b[1..]))
  }

  /** Comparing UTF-16BE bytes is comparing UTF-16 code units. */
  lemma {:induction false} BytesOrderIsUnitOrder(a: seq<Unit>, b: seq<Unit>)
    ensures LexLeq(BigEndian(a), BigEndian(b)) <==> LexLeq(a, b)
  {
    if a != [] && b != [] {
      var x, y := BigEndian(a), BigEndian(b);
      assert x[1..][1..] == BigEndian(a[1..]) && y[1..][1..] == BigEndian(b[1..]);
      assert x[1..][0] == a[0] % 0x100 && y[1..][0] == b[0] % 0x100;
      BytesOrderIsUnitOrder(a[1..], b[1..]);
      HighLow(a[0], b[0]);
    }
  }

  lemma HighLow(a: Unit, b: Unit)
    ensures a < b <==> a / 0x100 < b / 0x100 || (a / 0x100 == b / 0x100 && a % 0x100 < b % 0x100)
    ensures a == b <==> a / 0x100 == b / 0x100 && a % 0x100 == b % 0x100
  {
    assert a == 0x100 * (a / 0x100) + a % 0x100 && b == 0x100 * (b / 0x100) + b % 0x100;
  }

  /** Object keys are ordered by their UTF-16 code units, as section 3.2.3 of RFC 8785 requires. */
  lemma KeyOrderIsUnitOrder(a: Text, b: Text)
    ensures LexLeq(SortKey(a), SortKey(b)) <==> LexLeq(Utf16(a), Utf16(b))
  {
    BytesOrderIsUnitOrder(Utf16(a), Utf16(b));
  }

  /** This is not the order of code points: U+10000 sorts before U+FFFF. */
  lemma UnitOrderIsNotCodePointOrder()
    ensures LexLeq(SortKey([0x1_0000]), SortKey([0xFFFF])) && !LexLeq([0x1_0000], [0xFFFF])
    ensures !LexLeq(SortKey([0xFFFF]), SortKey([0x1_0000])) && LexLeq([0xFFFF], [0x1_0000])
  {
    assert Utf16([0x1_0000]) == [0xD800, 0xDC00] + Utf16([]);
    assert Utf16([0xFFFF]) == [0xFFFF] + Utf16([]);
    KeyOrderIsUnitOrder([0x1_0000], [0xFFFF]);
    KeyOrderIsUnitOrder([0xFFFF], [0x1_0000]);
  }

  // ----- The order on sort keys -----

  lemma {:induction false} LexReflexive(a: seq<int>)
    ensures LexLeq(a, a)
  {
    if a != [] {
      LexReflexive(a[1..]);
    }
  }

  lemma {:induction false} LexTotal(a: seq<int>, b: seq<int>)
    ensures LexLeq(a, b) || LexLeq(b, a)
  {
    if a != [] && b != [] {
      LexTotal(a[1..], b[1..]);
    }
  }

  lemma {:induction false} LexAntisymmetric(a: seq<int>, b: seq<int>)
    requires LexLeq(a, b) && LexLeq(b, a)
    ensures a == b
  {
    if a != [] && b != [] {
      LexAntisymmetric(a[1..], b[1..]);
      assert a == [a[0]] + a[1..] && b == [b[0]] + b[1..];
    }
  }

  lemma {:induction false} LexTransitive(a: seq<int>, b: seq<int>, c: seq<int>)
    requires LexLeq(a, b) && LexLeq(b, c)
    ensures LexLeq(a, c)
  {
    if a != [] && b != [] && c != [] && a[0] == b[0] && b[0] == c[0] {
      LexTransitive(a[1..], b[1..], c[1..]);
    }
  }

  lemma {:induction false} BigEndianInjective(a: seq<Unit>, b: seq<Unit>)
    requires BigEndian(a) == BigEndian(b)
    ensures a == b
  {
    if a != [] && b != [] {
      var x, y := BigEndian(a), BigEndian(b);
      assert x[2..] == BigEndian(a[1..]) && y[2..] == BigEndian(b[1..]);
      assert x[0] == y[0] && x[1] == y[1];
      HighLow(a[0], b[0]);
      BigEndianInjective(a[1..], b[1..]);
      assert a == [a[0]] + a[1..] && b == [b[0]] + b[1..];
    }
  }

  lemma UnitsOfScalar(c: Code)
    requires !Surrogate(c)
    ensures c < 0x1_0000 ==> Units(c) == [c]
    ensures c >= 0x1_0000 ==> |Units(c)| == 2 && 0xD800 <= Units(c)[0] < 0xDC00
    ensures c >= 0x1_0000 ==> c == 0x1_0000 + 0x400 * (Units(c)[0] as int - 0xD800) + (Units(c)[1] as int - 0xDC00)
  {
  }

  lemma {:induction false} Utf16Injective(a: Text, b: Text)
    requires Encodable(a) && Encodable(b) && Utf16(a) == Utf16(b)
    ensures a == b
  {
    if a != [] && b != [] {
      UnitsOfScalar(a[0]);
      UnitsOfScalar(b[0]);
      assert Utf16(a)[0] == Utf16(b)[0];
      assert |Units(a[0])| == |Units(b[0])|;
      var n := |Units(a[0])|;
      assert Utf16(a)[..n] == Units(a[0]) && Utf16(b)[..n] == Units(b[0]);
      assert Utf16(a)[n..] == Utf16(a[1..]) && Utf16(b)[n..] == Utf16(b[1..]);
      Utf16Injective(a[1..], b[1..]);
      assert a == [a[0]] + a[1..] && b == [b[0]] + b[1..];
    } else {
      assert a != [] ==> |Utf16(a)| > 0;
      assert b != [] ==> |Utf16(b)| > 0;
    }
  }

  /** The sort key identifies the object key. */
  lemma SortKeyInjective(a: Text, b: Text)
    requires Encodable(a) && Encodable(b) && SortKey(a) == SortKey(b)
    ensures a == b
  {
    BigEndianInjective(Utf16(a), Utf16(b));
    Utf16Injective(a, b);
  }

  // ----- Escaping -----

  /** The letter of a two-character escape, when the character has one. */
  function ShortEscape(c: Code): Option<Code> {
    if c == 8 then Some(98)
    else if c == 12 then Some(102)
    else if c == 10 then Some(110)
    else if c == 13 then Some(114)
    else if c == 9 then Some(116)
    else if c == Quote then Some(Quote)
    else if c == Backslash then Some(Backslash)
    else None
  }

  function HexDigit(n: int): Code
    requires 0 <= n < 16
  {
    if n < 10 then 48 + n else 97 + (n - 10)
  }

  /** Two-character escapes, `\u00xx` for the other control characters, and the character itself otherwise. */
  function Escape(c: Code): Text {
    if ShortEscape(c).Some? then [Backslash, ShortEscape(c).value]
    else if c < 0x20 then [Backslash, 117, 48, 48, HexDigit(c / 16), HexDigit(c % 16)]
    else [c]
  }

  function EscapeAll(s: Text): Text {
    if s == [] then [] else Escape(s[0]) + EscapeAll(s[1..])
  }

  function Quoted(s: Text): Text { [Quote] + EscapeAll(s) + [Quote] }

  method EscapeOne(character: Code) returns (output: Text)
    ensures output == Escape(character)
  {
    var escaped := ShortEscape(character);
    if escaped.Some? {
      output := [Backslash, escaped.value];
    } else if character < 0x20 {
      output := [Backslash, 117, 48, 48, HexDigit(character / 16), HexDigit(character % 16)];
    } else {
      output := [character];
    }
  }

  method EscapeJsonString(value: Text) returns (output: Text)
    ensures output == Quoted(value)
  {
    output := [Quote];
    for i := 0 to |value|
      invariant output + EscapeAll(value[i..]) == [Quote] + EscapeAll(value)
    {
      assert value[i..][1..] == value[i + 1..];
      var escaped := EscapeOne(value[i]);
      output := output + escaped;
    }
    output := output + [Quote];
  }

  // ----- Unescaping -----

  function HexValue(c: Code): Option<int> {
    if 48 <= c <= 57 then Some(c - 48) else if 97 <= c <= 102 then Some(c - 87) else None
  }

  function Unshort(c: Code): Option<Code> {
    if c == 98 then Some(8)
    else if c == 102 then Some(12)
    else if c == 110 then Some(10)
    else if c == 114 then Some(13)
    else if c == 116 then Some(9)
    else if c == Quote || c == Backslash then Some(c)
    else None
  }

  /** Four hexadecimal digits after `\u`. */
  function HexCode(t: Text): Option<Code>
    requires |t| >= 6
  {
    var a, b, c, d := HexValue(t[2]), HexValue(t[3]), HexValue(t[4]), HexValue(t[5]);
    if a.None? || b.None? || c.None? || d.None? then None
    else Some(a.value * 4096 + b.value * 256 + c.value * 16 + d.value)
  }

  /** One character and how much text it took. */
  function ReadChar(t: Text): (r: Option<(Code, int)>)
    requires t != []
    ensures r.Some? ==> 1 <= r.value.1 <= |t|
  {
    if t[0] != Backslash then (if t[0] == Quote then None else Some((t[0], 1)))
    else if |t| >= 6 && t[1] == 117 then
      (if HexCode(t).Some? then Some((HexCode(t).value, 6)) else None)
    else if |t| >= 2 && Unshort(t[1]).Some? then Some((Unshort(t[1]).value, 2))
    else None
  }

  /** The characters up to the closing quote, and what follows it. */
  function ReadChars(t: Text): (r: Option<(Text, Text)>)
    ensures r.Some? ==> |r.value.1| < |t|
    decreases |t|
  {
    if t == [] then None
    else if t[0] == Quote then Some(([], t[1..]))
    else
      var first := ReadChar(t);
      if first.None? then None
      else
        var rest := ReadChars(t[first.value.1..]);
        if rest.None? then None else Some(([first.value.0] + rest.value.0, rest.value.1))
  }

  lemma ReadEscaped(c: Code, rest: Text)
    ensures (Escape(c) + rest)[0] != Quote
    ensures ReadChar(Escape(c) + rest) == Some((c, |Escape(c)|))
  {
    if ShortEscape(c).None? && c < 0x20 {
      var t := Escape(c) + rest;
      assert t[..6] == Escape(c);
      assert HexValue(HexDigit(c / 16)) == Some(c / 16) && HexValue(HexDigit(c % 16)) == Some(c % 16);
      assert c == 16 * (c / 16) + c % 16;
    }
  }

  lemma ReadCharsStep(c: Code, tail: Text)
    requires ReadChars(tail).Some?
    ensures ReadChars(Escape(c) + tail) == Some(([c] + ReadChars(tail).value.0, ReadChars(tail).value.1))
  {
    ReadEscaped(c, tail);
    assert (Escape(c) + tail)[|Escape(c)|..] == tail;
  }

  /** The text of a string without its opening quote, followed by anything. */
  function Body(s: Text, rest: Text): Text { EscapeAll(s) + ([Quote] + rest) }

  lemma BodyStep(s: Text, rest: Text)
    requires s != []
    ensures Body(s, rest) == Escape(s[0]) + Body(s[1..], rest)
  {
  }

  lemma ReadEnd(rest: Text)
    ensures ReadChars(Body([], rest)) == Some(([], rest))
  {
    assert Body([], rest) == [Quote] + rest;
  }

  /** A quoted string reads back as itself, whatever follows it. */
  lemma {:induction false} StringsUnescape(s: Text, rest: Text)
    ensures ReadChars(Body(s, rest)) == Some((s, rest))
  {
    if s == [] {
      ReadEnd(rest);
    } else {
      StringsUnescape(s[1..], rest);
      ReadCharsStep(s[0], Body(s[1..], rest));
      BodyStep(s, rest);
      assert s == [s[0]] + s[1..];
    }
  }
}
