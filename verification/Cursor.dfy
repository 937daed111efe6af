/**
 * audit-governance-service/src/routes-logs.ts, encodeCursor and decodeCursor,
 * on the bytes of ASCII timestamps and ids. Base64 follows section 4 of RFC 4648;
 * decoding skips characters outside the alphabet and the padding, as Buffer does.
 */
module Cursor {
  import opened Lines
  import opened Options

  const BAR: Byte := 124
  const PAD: Byte := 61

  type Sextet = n: int | 0 <= n < 64

  function Symbol(n: Sextet): (c: Byte)
    ensures c != PAD
  {
    if n < 26 then 65 + n else if n < 52 then 71 + n else if n < 62 then n - 4 else if n == 62 then 43 else 47
  }

  /** The value of a symbol of the standard or the URL-safe alphabet. */
  function ValueOf(c: Byte): Option<Sextet> {
    if 65 <= c <= 90 then Some(c - 65)
    else if 97 <= c <= 122 then Some(c - 71)
    else if 48 <= c <= 57 then Some(c + 4)
    else if c == 43 || c == 45 then Some(62)
    else if c == 47 || c == 95 then Some(63)
    else None
  }

  lemma SymbolHasValue(n: Sextet)
    ensures ValueOf(Symbol(n)) == Some(n)
  {
  }

  /** Table 1 of RFC 4648, as characters; the last two symbols of table 2 are read as well. */
  lemma Alphabet(n: Sextet, c: char)
    requires c as int < 256
    ensures Symbol(n) == if n < 26 then 'A' as int + n else if n < 52 then 'a' as int + n - 26
                         else if n < 62 then '0' as int + n - 52 else if n == 62 then '+' as int else '/' as int
    ensures ValueOf(c as int) == Some(n) <==>
              c as int == Symbol(n) || (c == '-' && n == 62) || (c == '_' && n == 63)
    ensures PAD == '=' as int && BAR == '|' as int
  {
  }

  // ----------------------------------------------- sextets and their symbols

  /** Bytes as sextets, the last group short. */
  function Sextets(b: Bytes): seq<Sextet> {
    if b == [] then []
    else if |b| == 1 then [b[0] / 4, (b[0] % 4) * 16]
    else if |b| == 2 then [b[0] / 4, (b[0] % 4) * 16 + b[1] / 16, (b[1] % 16) * 4]
    else [b[0] / 4, (b[0] % 4) * 16 + b[1] / 16, (b[1] % 16) * 4 + b[2] / 64, b[2] % 64] + Sextets(b[3..])
  }

  function First(v0: Sextet, v1: Sextet): Byte {
    (v0 as int) * 4 + v1 / 16
  }

  function Second(v1: Sextet, v2: Sextet): Byte {
    ((v1 % 16) as int) * 16 + v2 / 4
  }

  function Third(v2: Sextet, v3: Sextet): Byte {
    ((v2 % 4) as int) * 64 + v3
  }

  function Octets(v: seq<Sextet>): Bytes {
    if |v| < 2 then []
    else if |v| == 2 then [First(v[0], v[1])]
    else if |v| == 3 then [First(v[0], v[1]), Second(v[1], v[2])]
    else [First(v[0], v[1]), Second(v[1], v[2]), Third(v[2], v[3])] + Octets(v[4..])
  }

  lemma ThreeBytes(a: Byte, b: Byte, c: Byte)
    ensures var v0, v1, v2, v3 := a / 4, (a % 4) * 16 + b / 16, (b % 16) * 4 + c / 64, c % 64;
            First(v0, v1) == a && Second(v1, v2) == b && Third(v2, v3) == c
  {
  }

  lemma TwoBytes(a: Byte, b: Byte)
    ensures var v0, v1, v2 := a / 4, (a % 4) * 16 + b / 16, (b % 16) * 4;
            First(v0, v1) == a && Second(v1, v2) == b
  {
  }

  lemma OneByte(a: Byte)
    ensures First(a / 4, (a % 4) * 16) == a
  {
  }

  lemma SextetsOfShort(b: Bytes)
    requires |b| < 3
    ensures var v := Sextets(b);
            if |b| == 0 then |v| == 0
            else if |b| == 1 then |v| == 2 && First(v[0], v[1]) == b[0]
            else |v| == 3 && First(v[0], v[1]) == b[0] && Second(v[1], v[2]) == b[1]
  {
    if |b| == 2 {
      TwoBytes(b[0], b[1]);
    } else if |b| == 1 {
      OneByte(b[0]);
    }
    hide First, Second, Third, Octets;
  }

  lemma OctetsOfShort(v: seq<Sextet>)
    ensures |v| == 0 ==> Octets(v) == []
    ensures |v| == 2 ==> Octets(v) == [First(v[0], v[1])]
    ensures |v| == 3 ==> Octets(v) == [First(v[0], v[1]), Second(v[1], v[2])]
  {
    hide First, Second, Third;
  }

  lemma ShortGroups(b: Bytes)
    requires |b| < 3
    ensures Octets(Sextets(b)) == b
  {
    hide *;
    SextetsOfShort(b);
    OctetsOfShort(Sextets(b));
  }

  lemma FirstGroup(b: Bytes)
    requires |b| >= 3
    ensures var v := Sextets(b);
            |v| >= 4 && v[4..] == Sextets(b[3..]) && First(v[0], v[1]) == b[0] && Second(v[1], v[2]) == b[1] &&
            Third(v[2], v[3]) == b[2]
  {
    ThreeBytes(b[0], b[1], b[2]);
    hide First, Second, Third;
  }

  lemma GroupRead(v: seq<Sextet>)
    requires |v| >= 4
    ensures Octets(v) == [First(v[0], v[1]), Second(v[1], v[2]), Third(v[2], v[3])] + Octets(v[4..])
  {
    hide First, Second, Third;
  }

  lemma {:induction false} OctetsOfSextets(b: Bytes)
    ensures Octets(Sextets(b)) == b
  {
    hide *;
    if |b| >= 3 {
      FirstGroup(b);
      GroupRead(Sextets(b));
      OctetsOfSextets(b[3..]);
      assert b == [b[0], b[1], b[2]] + b[3..];
    } else {
      ShortGroups(b);
    }
  }

  function Symbols(v: seq<Sextet>): Bytes {
    if v == [] then [] else [Symbol(v[0])] + Symbols(v[1..])
  }

  function Values(s: Bytes): seq<Sextet> {
    if s == [] then []
    else match ValueOf(s[0])
      case None => Values(s[1..])
      case Some(n) => [n] + Values(s[1..])
  }

  function Padding(n: nat): Bytes {
    if n % 3 == 1 then [PAD, PAD] else if n % 3 == 2 then [PAD] else []
  }

  function Base64(b: Bytes): Bytes { Symbols(Sextets(b)) + Padding(|b|) }

  function FromBase64(s: Bytes): Bytes { Octets(Values(s)) }

  lemma {:induction false} ValuesOfSymbols(v: seq<Sextet>, n: nat)
    ensures Values(Symbols(v) + Padding(n)) == v
  {
    if v == [] {
      assert Symbols(v) + Padding(n) == Padding(n);
      assert Values([]) == [] && [PAD][1..] == [] && [PAD, PAD][1..] == [PAD];
      assert Values([PAD]) == Values([PAD, PAD]) == [];
    } else {
      SymbolHasValue(v[0]);
      ValuesOfSymbols(v[1..], n);
      var s := Symbols(v) + Padding(n);
      assert s[0] == Symbol(v[0]) && s[1..] == Symbols(v[1..]) + Padding(n);
    }
  }

  lemma Base64RoundTrip(b: Bytes)
    ensures FromBase64(Base64(b)) == b
  {
    ValuesOfSymbols(Sextets(b), |b|);
    OctetsOfSextets(b);
  }

  lemma {:induction false} SextetCount(b: Bytes)
    ensures |Sextets(b)| == (8 * |b| + 5) / 6
  {
    if |b| > 2 {
      SextetCount(b[3..]);
    }
  }

  lemma {:induction false} SymbolCount(v: seq<Sextet>)
    ensures |Symbols(v)| == |v|
  {
    if v != [] {
      SymbolCount(v[1..]);
    }
  }

  /** The text is padded to groups of four, one for each three bytes begun. */
  lemma Base64Length(b: Bytes)
    ensures |Base64(b)| == 4 * ((|b| + 2) / 3)
  {
    SextetCount(b);
    SymbolCount(Sextets(b));
    hide Symbols, Sextets;
  }

  // ---------------------------------------------------------------- cursors

  datatype Position = Position(ts: Bytes, id: Bytes)

  function EncodeCursor(p: Position): Bytes { Base64(p.ts + [BAR] + p.id) }

  /** indexOf: the first place of c, or |s|. */
  function IndexOf(s: Bytes, c: Byte): (i: nat)
    ensures i <= |s| && (i < |s| ==> s[i] == c)
    ensures forall j :: 0 <= j < i ==> s[j] != c
  {
    if s == [] || s[0] == c then 0 else 1 + IndexOf(s[1..], c)
  }

  /** isDate stands for Date.parse giving a number. */
  function DecodeCursor(raw: Bytes, isDate: Bytes -> bool): Option<Position> {
    if raw == [] then None
    else
      var decoded := FromBase64(raw);
      var sep := IndexOf(decoded, BAR);
      if sep == |decoded| then None
      else
        var ts, id := decoded[..sep], decoded[sep + 1..];
        if ts == [] || id == [] || !isDate(ts) then None else Some(Position(ts, id))
  }

  /** Exactly which positions survive the trip through a cursor. */
  lemma CursorRoundTripIff(p: Position, isDate: Bytes -> bool)
    ensures DecodeCursor(EncodeCursor(p), isDate) == Some(p)
       <==> BAR !in p.ts && p.ts != [] && p.id != [] && isDate(p.ts)
  {
    var text := p.ts + [BAR] + p.id;
    Base64RoundTrip(text);
    assert EncodeCursor(p) != [] by {
      assert Octets(Values([])) == [];
    }
    hide FromBase64, Base64;
    assert text[|p.ts|] == BAR;
    if BAR !in p.ts {
      IndexIs(text, BAR, |p.ts|);
      assert text[..|p.ts|] == p.ts && text[|p.ts| + 1..] == p.id;
    } else {
      var i :| 0 <= i < |p.ts| && p.ts[i] == BAR;
      assert text[i] == BAR;
    }
  }

  lemma IndexIs(s: Bytes, c: Byte, i: nat)
    requires i < |s| && s[i] == c && c !in s[..i]
    ensures IndexOf(s, c) == i
  {
    assert forall j :: 0 <= j < i ==> s[j] == s[..i][j];
  }
}
