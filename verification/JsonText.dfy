/**
 * JSON string literals as json.dumps writes them and json.loads reads them,
 * section 7 of RFC 8259, on Python text: any code points, surrogates included.
 */
module JsonText {
  import opened Options

  type Code = c: int | 0 <= c < 0x110000
  type Text = seq<Code>

  const QUOTE: Code := 34
  const BACKSLASH: Code := 92
  const LETTER_U: Code := 117

  predicate Unit(n: int) { 0 <= n < 0x10000 }

  predicate High(c: Code) { 0xD800 <= c < 0xDC00 }

  predicate Low(c: Code) { 0xDC00 <= c < 0xE000 }

  function HighOf(c: Code): (h: Code)
    requires c >= 0x10000
    ensures High(h)
  {
    0xD800 + (c - 0x10000) / 1024
  }

  function LowOf(c: Code): (l: Code)
    requires c >= 0x10000
    ensures Low(l)
  {
    0xDC00 + (c - 0x10000) % 1024
  }

  function Pair(h: Code, l: Code): (c: Code)
    requires High(h) && Low(l)
    ensures c >= 0x10000 && HighOf(c) == h && LowOf(c) == l
  {
    0x10000 + (h - 0xD800) * 1024 + (l - 0xDC00)
  }

  // -------------------------------------------------------------- dumps

  function Digit(d: int): Code
    requires 0 <= d < 16
  {
    if d < 10 then 48 + d else 87 + d
  }

  /** Backslash, u and four lower-case hexadecimal digits. */
  function Escaped(n: int): (t: Text)
    requires Unit(n)
    ensures |t| == 6
  {
    [BACKSLASH, LETTER_U, Digit(n / 4096), Digit(n / 256 % 16), Digit(n / 16 % 16), Digit(n % 16)]
  }

  /** The letter of a two-character escape. */
  function Letter(c: Code): Option<Code> {
    if c == QUOTE || c == BACKSLASH then Some(c)
    else if c == 8 then Some(98)
    else if c == 12 then Some(102)
    else if c == 10 then Some(110)
    else if c == 13 then Some(114)
    else if c == 9 then Some(116)
    else None
  }

  predicate Plain(c: Code) { 32 <= c < 127 && c != QUOTE && c != BACKSLASH }

  function Escape(c: Code): Text {
    if Letter(c).Some? then [BACKSLASH, Letter(c).value]
    else if Plain(c) then [c]
    else if c < 0x10000 then Escaped(c)
    else Escaped(HighOf(c)) + Escaped(LowOf(c))
  }

  function EscapeAll(t: Text): Text {
    if t == [] then [] else Escape(t[0]) + EscapeAll(t[1..])
  }

  function Dumps(t: Text): Text { [QUOTE] + EscapeAll(t) + [QUOTE] }

  // -------------------------------------------------------------- loads

  function DigitValue(c: Code): Option<int> {
    if 48 <= c < 58 then Some(c - 48)
    else if 97 <= c < 103 then Some(c - 87)
    else if 65 <= c < 71 then Some(c - 55)
    else None
  }

  function Hex4(t: Text): (n: Option<Code>)
    ensures n.Some? ==> |t| >= 4
  {
    if |t| < 4 then None
    else
      match (DigitValue(t[0]), DigitValue(t[1]), DigitValue(t[2]), DigitValue(t[3]))
      case (Some(a), Some(b), Some(c), Some(d)) => HexValue(a, b, c, d)
      case _ => None
  }

  function HexValue(a: int, b: int, c: int, d: int): Option<Code> {
    var n := a * 4096 + b * 256 + c * 16 + d;
    if Unit(n) then Some(n) else None
  }

  function Unescaped(letter: Code): Option<Code> {
    if letter == QUOTE || letter == BACKSLASH || letter == 47 then Some(letter)
    else if letter == 98 then Some(8)
    else if letter == 102 then Some(12)
    else if letter == 110 then Some(10)
    else if letter == 114 then Some(13)
    else if letter == 116 then Some(9)
    else None
  }

  /** The \uXXXX escape at the start of t. */
  function UnitAt(t: Text): (n: Option<Code>)
    ensures n.Some? ==> |t| >= 6
  {
    if StartsUnit(t) then Hex4(t[2..]) else None
  }

  predicate StartsUnit(t: Text) { |t| >= 2 && t[0] == BACKSLASH && t[1] == LETTER_U }

  function Prepend(c: Code, t: Option<Text>): Option<Text> {
    if t.Some? then Some([c] + t.value) else None
  }

  /** What follows the opening quote; the closing quote must be the last character. */
  function Decode(t: Text): Option<Text>
    decreases |t|
  {
    if t == [] then None
    else if t[0] == QUOTE then if |t| == 1 then Some([]) else None
    else if t[0] != BACKSLASH then if t[0] < 32 then None else Prepend(t[0], Decode(t[1..]))
    else if |t| == 1 then None
    else if t[1] != LETTER_U then
      var c := Unescaped(t[1]);
      if c.None? then None else Prepend(c.value, Decode(t[2..]))
    else
      var h := UnitAt(t);
      if h.None? then None
      else if High(h.value) && StartsUnit(t[6..]) then
        var l := UnitAt(t[6..]);
        if l.None? then None
        else if Low(l.value) then Prepend(Pair(h.value, l.value), Decode(t[12..]))
        else Prepend(h.value, Decode(t[6..]))
      else Prepend(h.value, Decode(t[6..]))
  }

  /** json.loads on a text that starts with a double quote; None is JSONDecodeError. */
  function Loads(t: Text): Option<Text> {
    if t == [] || t[0] != QUOTE then None else Decode(t[1..])
  }

  /** The escapes of section 7 of RFC 8259, as characters. */
  lemma EscapesRead(c: char)
    ensures Unescaped(c as int) ==
            match c
            case '"' => Some('"' as int)
            case '\\' => Some('\\' as int)
            case '/' => Some('/' as int)
            case 'b' => Some(0x08)
            case 'f' => Some(0x0C)
            case 'n' => Some('\n' as int)
            case 'r' => Some('\r' as int)
            case 't' => Some('\t' as int)
            case _ => None
    ensures DigitValue(c as int) ==
            if '0' <= c <= '9' then Some(c as int - '0' as int)
            else if 'a' <= c <= 'f' then Some(10 + c as int - 'a' as int)
            else if 'A' <= c <= 'F' then Some(10 + c as int - 'A' as int)
            else None
  {
  }

  /** What json.dumps writes for a character, with ensure_ascii: a short escape, itself, or hexadecimal digits. */
  lemma EscapesWritten(c: char)
    ensures Letter(c as int) ==
            match c
            case '"' => Some('"' as int)
            case '\\' => Some('\\' as int)
            case '\n' => Some('n' as int)
            case '\r' => Some('r' as int)
            case '\t' => Some('t' as int)
            case _ => if c as int == 0x08 then Some('b' as int) else if c as int == 0x0C then Some('f' as int) else None
    ensures ' ' <= c <= '~' && c != '"' && c != '\\' ==> Escape(c as int) == [c as int]
  {
  }

  lemma DigitsWritten(d: int)
    requires 0 <= d < 16
    ensures Digit(d) == "0123456789abcdef"[d] as int
  {
  }

  // ---------------------------------------------------------- round trip

  lemma DigitHasValue(d: int)
    requires 0 <= d < 16
    ensures DigitValue(Digit(d)) == Some(d)
  {
  }

  lemma HexDigits(n: int)
    requires Unit(n)
    ensures n / 4096 < 16 && n == n / 4096 * 4096 + n / 256 % 16 * 256 + n / 16 % 16 * 16 + n % 16
  {
    assert n / 16 == n / 256 * 16 + n / 16 % 16;
    assert n / 256 == n / 4096 * 16 + n / 256 % 16;
  }

  lemma HexRoundTrip(n: Code, t: Text)
    requires Unit(n) && |t| >= 6 && t[..6] == Escaped(n)
    ensures Hex4(t[2..]) == Some(n)
  {
    HexDigits(n);
    var a, b, c, d := n / 4096, n / 256 % 16, n / 16 % 16, n % 16;
    DigitHasValue(a);
    DigitHasValue(b);
    DigitHasValue(c);
    DigitHasValue(d);
    var e := t[2..];
    assert e[0] == t[..6][2] && e[1] == t[..6][3] && e[2] == t[..6][4] && e[3] == t[..6][5];
    hide Digit, DigitValue;
    assert HexValue(a, b, c, d) == Some(n);
  }

  lemma UnitOfEscaped(n: Code, rest: Text)
    requires Unit(n)
    ensures var t := Escaped(n) + rest; StartsUnit(t) && UnitAt(t) == Some(n) && t[6..] == rest
  {
    var t := Escaped(n) + rest;
    assert t[..6] == Escaped(n) && t[6..] == rest && t[0] == Escaped(n)[0] && t[1] == Escaped(n)[1];
    HexRoundTrip(n, t);
    hide Hex4;
  }

  /** What json.loads makes of the text that json.dumps was given: adjacent surrogate halves become one character. */
  function Joined(t: Text): Text {
    if t == [] then []
    else if SplitPair(t) then [Pair(t[0], t[1])] + Joined(t[2..])
    else [t[0]] + Joined(t[1..])
  }

  predicate SplitPair(t: Text) { |t| >= 2 && High(t[0]) && Low(t[1]) }

  /** Whether c is written as a \uXXXX escape. */
  predicate ByUnit(c: Code) { Letter(c).None? && !Plain(c) }

  function FirstUnit(c: Code): Code { if c < 0x10000 then c else HighOf(c) }

  lemma EscapeByUnit(c: Code, more: Text)
    requires ByUnit(c)
    ensures StartsUnit(Escape(c) + more) && UnitAt(Escape(c) + more) == Some(FirstUnit(c))
  {
    if c < 0x10000 {
      UnitOfEscaped(c, more);
    } else {
      UnitOfEscaped(HighOf(c), Escaped(LowOf(c)) + more);
      assert Escape(c) + more == Escaped(HighOf(c)) + (Escaped(LowOf(c)) + more);
    }
  }

  lemma EscapeNotByUnit(c: Code, more: Text)
    requires !ByUnit(c)
    ensures !StartsUnit(Escape(c) + more)
  {
  }

  /** What the decoder sees of a text that follows a high surrogate. */
  lemma NextUnit(t: Text)
    ensures var s := EscapeAll(t) + [QUOTE];
            && (StartsUnit(s) <==> t != [] && ByUnit(t[0]))
            && (StartsUnit(s) ==> UnitAt(s) == Some(FirstUnit(t[0])))
  {
    hide Escape, StartsUnit, UnitAt, FirstUnit, ByUnit;
    if t == [] {
      assert EscapeAll(t) + [QUOTE] == [QUOTE];
      OneIsNoUnit(QUOTE);
    } else {
      var more := EscapeAll(t[1..]) + [QUOTE];
      assert EscapeAll(t) + [QUOTE] == Escape(t[0]) + more;
      if ByUnit(t[0]) {
        EscapeByUnit(t[0], more);
      } else {
        EscapeNotByUnit(t[0], more);
      }
    }
  }

  lemma OneIsNoUnit(c: Code)
    ensures !StartsUnit([c])
  {
  }

  lemma DecodeLetter(c: Code, t: Text, more: Text)
    requires Letter(c).Some? && t == [BACKSLASH, Letter(c).value] + more
    ensures Decode(t) == Prepend(c, Decode(more))
  {
    hide UnitAt, Pair;
    assert t[0] == BACKSLASH && t[1] == Letter(c).value && t[2..] == more;
    assert Unescaped(t[1]) == Some(c);
  }

  lemma DecodePlain(c: Code, t: Text, more: Text)
    requires Plain(c) && t == [c] + more
    ensures Decode(t) == Prepend(c, Decode(more))
  {
    hide UnitAt, Pair;
    assert t[0] == c && t[1..] == more;
  }

  lemma DecodeOne(c: Code, more: Text)
    requires !ByUnit(c)
    ensures Decode(Escape(c) + more) == Prepend(c, Decode(more))
  {
    hide Decode, Letter, Plain;
    if Letter(c).Some? {
      DecodeLetter(c, Escape(c) + more, more);
    } else {
      DecodePlain(c, Escape(c) + more, more);
    }
  }

  /** A unit that does not combine with what follows. */
  lemma DecodeUnit(n: Code, more: Text)
    requires Unit(n) && (High(n) && StartsUnit(more) ==> UnitAt(more).Some? && !Low(UnitAt(more).value))
    ensures Decode(Escaped(n) + more) == Prepend(n, Decode(more))
  {
    UnitOfEscaped(n, more);
    hide Escaped, UnitAt;
  }

  lemma DecodePair(h: Code, l: Code, more: Text)
    requires High(h) && Low(l)
    ensures Decode(Escaped(h) + (Escaped(l) + more)) == Prepend(Pair(h, l), Decode(more))
  {
    var t := Escaped(h) + (Escaped(l) + more);
    UnitOfEscaped(h, Escaped(l) + more);
    UnitOfEscaped(l, more);
    assert t[12..] == t[6..][6..];
    hide Escaped, UnitAt;
  }

  lemma EscapeOfUnit(c: Code, more: Text)
    requires ByUnit(c)
    ensures c < 0x10000 ==> Escape(c) + more == Escaped(c) + more
    ensures c >= 0x10000 ==> Escape(c) + more == Escaped(HighOf(c)) + (Escaped(LowOf(c)) + more)
  {
  }

  lemma NoLowUnit(t: Text)
    requires t != [] && !SplitPair(t) && High(t[0]) && t[1..] != []
    ensures !Low(FirstUnit(t[1..][0]))
  {
    assert t[1..][0] == t[1];
  }

  /** One character of the text, decoded in front of what follows it. */
  lemma DecodeFirst(t: Text)
    requires t != [] && !SplitPair(t)
    ensures Decode(EscapeAll(t) + [QUOTE]) == Prepend(t[0], Decode(EscapeAll(t[1..]) + [QUOTE]))
  {
    hide *;
    var c := t[0];
    var more := EscapeAll(t[1..]) + [QUOTE];
    EscapeFirst(t);
    if !ByUnit(c) {
      DecodeOne(c, more);
    } else {
      EscapeOfUnit(c, more);
      if c < 0x10000 {
        NextUnit(t[1..]);
        if High(c) && StartsUnit(more) {
          NoLowUnit(t);
        }
        UnitIsCode(c);
        DecodeUnit(c, more);
      } else {
        DecodePair(HighOf(c), LowOf(c), more);
        PairOf(c);
      }
    }
  }

  lemma EscapeFirst(t: Text)
    requires t != []
    ensures EscapeAll(t) + [QUOTE] == Escape(t[0]) + (EscapeAll(t[1..]) + [QUOTE])
  {
  }

  lemma UnitIsCode(c: Code)
    requires c < 0x10000
    ensures Unit(c)
  {
  }

  lemma PairOf(c: Code)
    requires c >= 0x10000
    ensures Pair(HighOf(c), LowOf(c)) == c
  {
  }

  /** Two adjacent halves are decoded as one character. */
  lemma DecodeSplitPair(t: Text)
    requires SplitPair(t)
    ensures Decode(EscapeAll(t) + [QUOTE]) == Prepend(Pair(t[0], t[1]), Decode(EscapeAll(t[2..]) + [QUOTE]))
  {
    hide Decode, Escaped, Pair;
    var rest := EscapeAll(t[2..]) + [QUOTE];
    assert t[1..][1..] == t[2..];
    assert EscapeAll(t) + [QUOTE] == Escaped(t[0]) + (Escaped(t[1]) + rest);
    DecodePair(t[0], t[1], rest);
  }

  lemma {:induction false} DecodeIsJoined(t: Text)
    ensures Decode(EscapeAll(t) + [QUOTE]) == Some(Joined(t))
    decreases |t|
  {
    if t == [] {
      assert EscapeAll(t) + [QUOTE] == [QUOTE];
    } else {
      hide Decode, EscapeAll, SplitPair, Pair;
      if SplitPair(t) {
        DecodeIsJoined(t[2..]);
        DecodeSplitPair(t);
      } else {
        DecodeIsJoined(t[1..]);
        DecodeFirst(t);
      }
    }
  }

  predicate NoSplitPair(t: Text) { forall i :: 0 <= i < |t| - 1 ==> !SplitPair(t[i..]) }

  lemma {:induction false} JoinedIff(t: Text)
    ensures |Joined(t)| <= |t|
    ensures Joined(t) == t <==> NoSplitPair(t)
    decreases |t|
  {
    if t == [] {
    } else if SplitPair(t) {
      JoinedIff(t[2..]);
      assert t[0..] == t;
    } else {
      JoinedIff(t[1..]);
      NoSplitPairRest(t);
      assert t == [t[0]] + t[1..];
    }
  }

  lemma NoSplitPairRest(t: Text)
    requires t != [] && !SplitPair(t)
    ensures NoSplitPair(t) <==> NoSplitPair(t[1..])
  {
    assert t[0..] == t;
    assert forall i :: 0 <= i < |t[1..]| ==> t[1..][i..] == t[1 + i..];
    if NoSplitPair(t[1..]) {
      forall i | 0 <= i < |t| - 1 ensures !SplitPair(t[i..]) {
        if i > 0 {
          assert t[i..] == t[1..][i - 1..];
        }
      }
    }
  }

  /** Quoting and reading back returns the text exactly when no high surrogate stands before a low one. */
  lemma QuotingRoundTripIff(t: Text)
    ensures Loads(Dumps(t)) == Some(t) <==> NoSplitPair(t)
  {
    assert Dumps(t)[1..] == EscapeAll(t) + [QUOTE];
    DecodeIsJoined(t);
    JoinedIff(t);
  }

  predicate Printable(t: Text) { forall c <- t :: 32 <= c < 127 }

  lemma EscapedIsPrintable(n: int)
    requires Unit(n)
    ensures Printable(Escaped(n))
  {
    forall c | c in Escaped(n) ensures 32 <= c < 127 {
      assert 32 <= Digit(n / 4096) < 127 && 32 <= Digit(n / 256 % 16) < 127;
      assert 32 <= Digit(n / 16 % 16) < 127 && 32 <= Digit(n % 16) < 127;
    }
  }

  lemma EscapeIsPrintable(c: Code)
    ensures Printable(Escape(c))
  {
    hide Escaped;
    if Letter(c).None? && !Plain(c) {
      if c < 0x10000 {
        EscapedIsPrintable(c);
      } else {
        EscapedIsPrintable(HighOf(c));
        EscapedIsPrintable(LowOf(c));
      }
    }
  }

  /** A quoted text is printable ASCII, so it is one line and holds no blank but a space. */
  lemma {:induction false} DumpsIsPrintable(t: Text)
    ensures Printable(EscapeAll(t))
  {
    hide Escape;
    if t != [] {
      EscapeIsPrintable(t[0]);
      DumpsIsPrintable(t[1..]);
    }
  }

  /** No character that JSON would read otherwise. */
  predicate Literal(t: Text) { forall c <- t :: c >= 32 && c != QUOTE && c != BACKSLASH }

  lemma {:induction false} LiteralLoads(t: Text)
    requires Literal(t)
    ensures Decode(t + [QUOTE]) == Some(t)
  {
    if t != [] {
      assert t[0] in t && forall c <- t[1..] :: c in t;
      LiteralLoads(t[1..]);
      assert (t + [QUOTE])[1..] == t[1..] + [QUOTE] && t == [t[0]] + t[1..];
    } else {
      assert Decode([QUOTE]) == Some([]) && t + [QUOTE] == [QUOTE];
    }
  }

  lemma {:induction false} LiteralThen(t: Text, rest: Text)
    requires Literal(t) && Decode(rest).None?
    ensures Decode(t + rest).None?
  {
    if t == [] {
      assert t + rest == rest;
    } else {
      assert t[0] in t && forall c <- t[1..] :: c in t;
      LiteralThen(t[1..], rest);
      assert (t + rest)[1..] == t[1..] + rest;
    }
  }

  lemma NotLoaded(t: Text, rest: Text)
    requires Literal(t) && Decode(rest).None?
    ensures Loads([QUOTE] + t + rest).None?
  {
    LiteralThen(t, rest);
    assert ([QUOTE] + t + rest)[1..] == t + rest;
    hide Decode, Literal;
  }

  /** Not JSON: no closing quote, anything after it, a bare control character, or an escape that is none. */
  lemma NotJson(t: Text, c: Code, rest: Text)
    requires Literal(t)
    ensures Loads([QUOTE] + t + []).None? && Loads([QUOTE] + t + [BACKSLASH]).None?
    ensures rest != [] ==> Loads([QUOTE] + t + ([QUOTE] + rest)).None?
    ensures c < 32 ==> Loads([QUOTE] + t + ([c] + rest)).None?
    ensures c != 117 && Unescaped(c).None? ==> Loads([QUOTE] + t + ([BACKSLASH, c] + rest)).None?
  {
    assert Decode([]).None? && Decode([BACKSLASH]).None?;
    assert rest != [] ==> Decode([QUOTE] + rest).None?;
    assert c < 32 ==> Decode([c] + rest).None?;
    assert c != 117 && Unescaped(c).None? ==> Decode([BACKSLASH, c] + rest).None?;
    hide *;
    NotLoaded(t, []);
    NotLoaded(t, [BACKSLASH]);
    if rest != [] {
      NotLoaded(t, [QUOTE] + rest);
    }
    if c < 32 {
      NotLoaded(t, [c] + rest);
    }
    if c != 117 && Unescaped(c).None? {
      NotLoaded(t, [BACKSLASH, c] + rest);
    }
  }
}
