/** The escapes of canonical strings, against the string grammar of section 7 of RFC 8259. */
module CanonicalEscapes {
  import opened CanonicalText

  // ----- The grammar -----

  /** The two-character escapes: the letter after the backslash, and the character it stands for. */
  const Letters: set<(Code, Code)> := {
    ('"' as int, 0x22), ('\\' as int, 0x5C), ('/' as int, 0x2F), ('b' as int, 0x08), ('f' as int, 0x0C),
    ('n' as int, 0x0A), ('r' as int, 0x0D), ('t' as int, 0x09) }

  predicate IsHex(c: Code, value: int) {
    || ('0' as int <= c <= '9' as int && value == c - '0' as int)
    || ('a' as int <= c <= 'f' as int && value == c - 'a' as int + 10)
    || ('A' as int <= c <= 'F' as int && value == c - 'A' as int + 10)
  }

  /** A backslash, a `u` and four hexadecimal digits. */
  ghost predicate IsUnicode(piece: Text, value: int) {
    && |piece| == 6 && piece[0] == '\\' as int && piece[1] == 'u' as int
    && exists digits :: HasDigits(piece, digits) && value == 4096 * digits.0 + 256 * digits.1 + 16 * digits.2 + digits.3
  }

  predicate HasDigits(piece: Text, digits: (int, int, int, int))
    requires |piece| == 6
  {
    IsHex(piece[2], digits.0) && IsHex(piece[3], digits.1) && IsHex(piece[4], digits.2) && IsHex(piece[5], digits.3)
  }

  /** Two such escapes that stand for one character beyond the first plane. */
  ghost predicate IsPair(piece: Text, high: int, low: int, c: Code) {
    && |piece| == 12 && IsUnicode(piece[..6], high) && IsUnicode(piece[6..], low)
    && 0xD800 <= high < 0xDC00 && 0xDC00 <= low < 0xE000 && c == 0x1_0000 + 0x400 * (high - 0xD800) + (low - 0xDC00)
  }

  /** The pieces of text that stand for a character between the quotes of a JSON string. */
  ghost predicate Denotes(piece: Text, c: Code) {
    || (piece == [c] && c >= 0x20 && c != '"' as int && c != '\\' as int)
    || (|piece| == 2 && piece[0] == '\\' as int && (piece[1], c) in Letters)
    || IsUnicode(piece, c)
    || (exists high, low :: IsPair(piece, high, low, c))
  }

  /** A text that stands for a string, piece by piece. */
  ghost predicate Writes(t: Text, s: Text)
    decreases |s|
  {
    if s == [] then t == []
    else exists n :: 0 < n <= |t| && Denotes(t[..n], s[0]) && Writes(t[n..], s[1..])
  }

  // ----- One character -----

  lemma HexDigits(n: int)
    requires 0 <= n < 16
    ensures IsHex(HexDigit(n), n)
  {
  }

  lemma EscapeDenotes(c: Code)
    ensures Denotes(Escape(c), c)
  {
    if ShortEscape(c).Some? {
      assert (Escape(c)[1], c) in Letters;
    } else if c < 0x20 {
      HexDigits(0);
      HexDigits(c / 16);
      HexDigits(c % 16);
      assert HasDigits(Escape(c), (0, 0, c / 16, c % 16));
      assert c == 16 * (c / 16) + c % 16;
      assert IsUnicode(Escape(c), c);
    }
  }

  /** The characters that must not stand for themselves: quote, backslash and controls. */
  predicate MustEscape(c: Code) { c == 0x22 || c == 0x5C || c < 0x20 }

  /**
   Exactly the characters that must be escaped are, and no piece that stands for a character is shorter;
   one of the same length is the same but for upper-case digits.
   */
  lemma EscapeIsShortest(c: Code, piece: Text)
    requires Denotes(piece, c)
    ensures |Escape(c)| == (if !MustEscape(c) then 1 else if exists letter :: (letter, c) in Letters then 2 else 6)
    ensures |Escape(c)| <= |piece|
    ensures |Escape(c)| == |piece| && |piece| < 6 ==> piece == Escape(c)
    ensures |Escape(c)| == 6 ==> 0x30 <= Escape(c)[4] <= 0x31 && (0x30 <= Escape(c)[5] <= 0x39 || 0x61 <= Escape(c)[5] <= 0x66)
  {
    if ShortEscape(c).Some? {
      assert (ShortEscape(c).value, c) in Letters;
    }
  }

  // ----- Whole strings -----

  lemma {:induction false} EscapeAllWrites(s: Text)
    ensures Writes(EscapeAll(s), s)
  {
    if s != [] {
      EscapeAllWrites(s[1..]);
      EscapeDenotes(s[0]);
      var n, t := |Escape(s[0])|, EscapeAll(s);
      assert t[..n] == Escape(s[0]) && t[n..] == EscapeAll(s[1..]);
    }
  }

  /** The escaped text of a string stands for it in the grammar of JSON, and no text that does is shorter. */
  lemma {:induction false} EscapeAllIsShortest(s: Text, t: Text)
    requires Writes(t, s)
    ensures Writes(EscapeAll(s), s) && |EscapeAll(s)| <= |t|
    decreases |s|
  {
    EscapeAllWrites(s);
    if s != [] {
      var n :| 0 < n <= |t| && Denotes(t[..n], s[0]) && Writes(t[n..], s[1..]);
      EscapeIsShortest(s[0], t[..n]);
      EscapeAllIsShortest(s[1..], t[n..]);
    }
  }
}
