/**
 * bin/configure-platform.py, the lines of a dotenv file: what parse_env reads
 * from one, what quote_env writes into one, and which key write_env matches.
 */
module EnvLine {
  import opened Options
  import opened JsonText
  import opened PyText

  const HASH: Code := 35
  const APOSTROPHE: Code := 39
  const EQUALS: Code := 61
  const SPACE: Code := 32

  /** The word "export". */
  const EXPORT: Text := [101, 120, 112, 111, 114, 116]

  /** The comment line above appended keys, word by word. */
  const RULE: Text := [35, 32, 45, 45, 45, 32]
  const SINGULARITY: Text := [83, 105, 110, 103, 117, 108, 97, 114, 105, 116, 121, 32]
  const CONFIG: Text := [99, 111, 110, 102, 105, 103, 32]
  const UTILITY: Text := [117, 116, 105, 108, 105, 116, 121, 32]
  const MANAGED: Text := [109, 97, 110, 97, 103, 101, 100, 32]
  const VALUES: Text := [118, 97, 108, 117, 101, 115, 32, 45, 45, 45]
  const MARKER: Text := RULE + SINGULARITY + CONFIG + UTILITY + MANAGED + VALUES

  predicate IdentStart(c: Code) { 65 <= c <= 90 || c == 95 || 97 <= c <= 122 }

  predicate IdentChar(c: Code) { IdentStart(c) || 48 <= c <= 57 }

  predicate Identifier(k: Text) { k != [] && IdentStart(k[0]) && forall c <- k :: IdentChar(c) }

  function Codes(s: string): Text { seq(|s|, i requires 0 <= i < |s| => s[i] as int) }

  /** The constants, as characters. */
  lemma Spelled()
    ensures HASH == '#' as int && APOSTROPHE == '\'' as int && QUOTE == '"' as int
    ensures EQUALS == '=' as int && SPACE == ' ' as int && BACKSLASH == '\\' as int && LETTER_U == 'u' as int
    ensures EXPORT == Codes("export")
    ensures MARKER == Codes("# --- ") + Codes("Singularity ") + Codes("config ") + Codes("utility ") +
                      Codes("managed ") + Codes("values ---")
  {
    WordsSpelled();
    hide Codes;
  }

  lemma WordsSpelled()
    ensures RULE == Codes("# --- ") && SINGULARITY == Codes("Singularity ") && CONFIG == Codes("config ")
    ensures UTILITY == Codes("utility ") && MANAGED == Codes("managed ") && VALUES == Codes("values ---")
    ensures EXPORT == Codes("export")
  {
  }

  /** The classes of the expression, as characters. */
  lemma IdentifierCharacters(c: char)
    ensures IdentStart(c as int) <==> 'A' <= c <= 'Z' || 'a' <= c <= 'z' || c == '_'
    ensures IdentChar(c as int) <==> IdentStart(c as int) || '0' <= c <= '9'
  {
  }

  function IdentLen(t: Text): (n: nat)
    ensures n <= |t| && (forall c <- t[..n] :: IdentChar(c)) && (n < |t| ==> !IdentChar(t[n]))
  {
    if t == [] || !IdentChar(t[0]) then 0
    else
      var n := 1 + IdentLen(t[1..]);
      assert t[..n] == [t[0]] + t[1..][..n - 1];
      n
  }

  // ---------------------------------------------------------------- reading

  function FindEquals(t: Text): (n: nat)
    ensures n <= |t| && EQUALS !in t[..n] && (n < |t| ==> t[n] == EQUALS)
  {
    if t == [] || t[0] == EQUALS then 0
    else
      var n := 1 + FindEquals(t[1..]);
      assert t[..n] == [t[0]] + t[1..][..n - 1];
      n
  }

  /** startswith("export "). */
  predicate StartsExport(t: Text) { |t| >= 7 && t[..6] == EXPORT && t[6] == SPACE }

  function WithoutExport(t: Text): Text { if StartsExport(t) then t[7..] else t }

  function KeyText(t: Text): Text { Strip(WithoutExport(Strip(t))) }

  function Unquote(v: Text): Text {
    if |v| >= 2 && v[0] == v[|v| - 1] && (v[0] == APOSTROPHE || v[0] == QUOTE) then
      match Loads(v)
      case Some(t) => t
      case None => v[1..|v| - 1]
    else v
  }

  datatype Entry = Entry(key: Text, value: Text)

  /** What one line of the file defines. */
  function ParseLine(raw: Text): Option<Entry> {
    var line := Strip(raw);
    var n := FindEquals(line);
    if line == [] || line[0] == HASH || n == |line| then None
    else Some(Entry(KeyText(line[..n]), Unquote(Strip(line[n + 1..]))))
  }

  // ---------------------------------------------------------------- writing

  predicate NeedsQuotes(v: Text) { exists c <- v :: Space(c) || c == HASH || c == APOSTROPHE || c == QUOTE }

  function QuoteEnv(v: Text): Text {
    if v == [] then [] else if NeedsQuotes(v) then Dumps(v) else v
  }

  /** The tail ident\s*= of the expression; what group 2 holds if it matches at the start of t. */
  function Assigned(t: Text): (k: Option<Text>)
    ensures k.Some? ==> Identifier(k.value)
  {
    var n := IdentLen(t);
    var rest := LStrip(t[n..]);
    if n > 0 && IdentStart(t[0]) && rest != [] && rest[0] == EQUALS then Some(t[..n]) else None
  }

  predicate ExportGroup(t: Text) { |t| > 6 && t[..6] == EXPORT && Space(t[6]) }

  /** Group 2 of ^(export\s+)?([A-Za-z_][A-Za-z0-9_]*)\s*= ; the optional group is tried first. */
  function MatchKey(t: Text): (k: Option<Text>)
    ensures k.Some? ==> Identifier(k.value)
  {
    if ExportGroup(t) && Assigned(LStrip(t[6..])).Some? then Assigned(LStrip(t[6..])) else Assigned(t)
  }

  function EntryLine(exported: bool, k: Text, v: Text): Text {
    (if exported then EXPORT + [SPACE] else []) + k + [EQUALS] + QuoteEnv(v)
  }

  function Rewrite(raw: Text, values: map<Text, Text>): Text {
    var stripped := Strip(raw);
    var k := MatchKey(stripped);
    if k.Some? && k.value in values then EntryLine(StartsExport(stripped), k.value, values[k.value]) else raw
  }

  // ------------------------------------------------- lines and their keys

  lemma {:induction false} IdentLenIs(k: Text, rest: Text)
    requires (forall c <- k :: IdentChar(c)) && (rest != [] ==> !IdentChar(rest[0]))
    ensures IdentLen(k + rest) == |k|
  {
    if k == [] {
      assert k + rest == rest;
    } else {
      assert k[0] in k;
      IdentLenIs(k[1..], rest);
      assert (k + rest)[1..] == k[1..] + rest;
    }
  }

  /** blank, an equals sign, and anything: what may stand after a key. */
  predicate Rest(t: Text, blank: Text, value: Text) { Blank(blank) && t == blank + [EQUALS] + value }

  lemma SpaceIsNotIdent(c: Code)
    ensures Space(c) ==> !IdentChar(c) && c != EQUALS
    ensures !IdentChar(EQUALS) && !Space(EQUALS)
  {
  }

  lemma RestFacts(t: Text, blank: Text, value: Text)
    requires Rest(t, blank, value)
    ensures t != [] && !IdentChar(t[0]) && LStrip(t) == [EQUALS] + value
  {
    hide Space, IdentChar;
    assert t == blank + ([EQUALS] + value);
    LStripBlank(blank, [EQUALS] + value);
    SpaceIsNotIdent(t[0]);
    if blank != [] {
      assert t[0] == blank[0] && blank[0] in blank;
    }
  }

  lemma AssignedIs(k: Text, t: Text, blank: Text, value: Text)
    requires Identifier(k) && Rest(t, blank, value)
    ensures Assigned(k + t) == Some(k)
  {
    hide Space, Blank, IdentChar, IdentStart;
    RestFacts(t, blank, value);
    IdentLenIs(k, t);
    assert (k + t)[..|k|] == k && (k + t)[|k|..] == t && (k + t)[0] == k[0];
  }

  lemma ExportIsIdent()
    ensures Identifier(EXPORT)
  {
  }

  lemma NothingAssigned(t: Text)
    requires t != [] && t[0] == EQUALS
    ensures Assigned(t) == None
  {
  }

  /** KEY = value. */
  lemma MatchPlain(k: Text, t: Text, blank: Text, value: Text)
    requires Identifier(k) && Rest(t, blank, value)
    ensures MatchKey(k + t) == Some(k)
  {
    var line := k + t;
    AssignedIs(k, t, blank, value);
    if ExportGroup(line) {
      RestFacts(t, blank, value);
      hide Space, IdentChar, IdentStart, Blank, Rest;
      IdentLenIs(k, t);
      ExportIsIdent();
      SpaceIsNotIdent(line[6]);
      IdentLenIs(EXPORT, line[6..]);
      assert line == EXPORT + line[6..];
      assert |k| == 6 && line[6..] == t;
      assert Assigned([EQUALS] + value) == None by { NothingAssigned([EQUALS] + value); }
    }
  }

  /** export KEY = value. */
  lemma MatchExport(gap: Text, k: Text, t: Text, blank: Text, value: Text)
    requires Identifier(k) && Rest(t, blank, value) && Blank(gap) && gap != []
    ensures MatchKey(EXPORT + gap + (k + t)) == Some(k)
  {
    hide Assigned, Rest, Identifier, IdentChar, IdentStart;
    var line, tail := EXPORT + gap + (k + t), k + t;
    AssignedIs(k, t, blank, value);
    assert line[..6] == EXPORT && line[6..] == gap + tail && line[6] == gap[0];
    assert gap[0] in gap;
    LStripBlank(gap, tail);
    IdentifierStart(k);
    assert tail[0] == k[0];
    assert LStrip(tail) == tail;
  }

  /** Which lines the expression matches: KEY = or export KEY =, with any blanks, and nothing else. */
  ghost predicate Assigns(t: Text, k: Text) {
    exists blank, value :: t == k + (blank + [EQUALS] + value) && Blank(blank)
  }

  lemma Parts(t: Text, u: Text) returns (blank: Text)
    requires u == LStrip(t)
    ensures t == blank + u && Blank(blank)
  {
    hide Space, Blank, LStrip;
    LStripRest(t);
    blank := t[..|t| - |u|];
  }

  lemma AssignedParts(t: Text, k: Text)
    requires Assigned(t) == Some(k)
    ensures Identifier(k) && |k| <= |t| && k == t[..|k|]
    ensures LStrip(t[|k|..]) != [] && LStrip(t[|k|..])[0] == EQUALS
  {
    hide Space, IdentStart, IdentChar, LStrip;
  }

  lemma Halves(t: Text, n: nat)
    requires n <= |t|
    ensures t == t[..n] + t[n..]
    ensures n < |t| ==> t[n..] == [t[n]] + t[n + 1..]
  {
  }

  lemma AssignedOnlyIf(t: Text, k: Text)
    requires Assigned(t) == Some(k)
    ensures Identifier(k) && Assigns(t, k)
  {
    hide *;
    AssignedParts(t, k);
    var rest := LStrip(t[|k|..]);
    Halves(t, |k|);
    Halves(rest, 0);
    assert rest[0..] == rest;
    var blank := Parts(t[|k|..], rest);
    AssignsIs(t, k, blank, rest[1..]);
  }

  lemma AssignsIs(t: Text, k: Text, blank: Text, value: Text)
    requires t == k + (blank + ([EQUALS] + value)) && Blank(blank)
    ensures Assigns(t, k)
  {
    assert blank + ([EQUALS] + value) == blank + [EQUALS] + value;
  }

  lemma GroupIs(t: Text)
    requires ExportGroup(t)
    ensures |t| > 6 && t == EXPORT + t[6..] && Space(t[6..][0])
  {
    hide Space;
  }

  lemma GapNotEmpty(t: Text, u: Text)
    requires t != [] && Space(t[0]) && u == LStrip(t)
    ensures |u| < |t|
  {
  }

  lemma MatchCases(t: Text, k: Text)
    requires MatchKey(t) == Some(k)
    ensures if ExportGroup(t) && Assigned(LStrip(t[6..])).Some? then Assigned(LStrip(t[6..])) == Some(k)
            else Assigned(t) == Some(k)
    ensures ExportGroup(t) ==> |t| > 6
  {
    hide Assigned;
  }

  lemma MatchedOnlyIf(t: Text, k: Text)
    requires MatchKey(t) == Some(k)
    ensures Identifier(k)
    ensures Assigns(t, k) || exists gap, u :: t == EXPORT + gap + u && gap != [] && Blank(gap) && Assigns(u, k)
  {
    hide *;
    MatchCases(t, k);
    if ExportGroup(t) && Assigned(LStrip(t[6..])).Some? {
      GroupIs(t);
      var u := LStrip(t[6..]);
      AssignedOnlyIf(u, k);
      var gap := Parts(t[6..], u);
      GapNotEmpty(t[6..], u);
      assert t == EXPORT + gap + u;
    } else {
      AssignedOnlyIf(t, k);
    }
  }

  lemma IdentifierStart(k: Text)
    requires Identifier(k)
    ensures k != [] && !Space(k[0])
  {
  }

  lemma StripIs(t: Text)
    ensures Strip(t) == LStrip(RStrip(t))
    ensures RStrip(t) == [] || !Space(RStrip(t)[0]) ==> Strip(t) == RStrip(t)
  {
    hide Space, RStrip;
  }

  lemma StrippedStart(t: Text)
    ensures Stripped(t) && t != [] ==> !Space(t[0])
  {
  }

  /** A prefix of a stripped text keeps its first character, so only its end is stripped. */
  lemma StripPrefix(line: Text, n: nat)
    requires Stripped(line) && n <= |line|
    ensures Strip(line[..n]) == RStrip(line[..n])
    ensures Blank(line[..n][|Strip(line[..n])|..])
    ensures line[..n] == Strip(line[..n]) + line[..n][|Strip(line[..n])|..]
  {
    hide *;
    var p := line[..n];
    RStripRest(p);
    RStripParts(p);
    StripIs(p);
    StrippedStart(line);
  }

  /** A suffix of a stripped text keeps its last character, so only its start is stripped. */
  lemma StripSuffix(q: Text, n: nat) returns (blank: Text)
    requires Stripped(q) && n <= |q|
    ensures Blank(blank) && q[n..] == blank + Strip(q[n..])
  {
    hide Space;
    var r := q[n..];
    if r != [] {
      assert r[|r| - 1] == q[|q| - 1];
    }
    assert RStrip(r) == r;
    LStripRest(r);
    blank := r[..|r| - |LStrip(r)|];
  }

  /** Behind "export " there is only the key and what strip removes. */
  lemma KeyAfterExport(q: Text) returns (gap: Text)
    requires StartsExport(q) && Stripped(q)
    ensures gap != [] && Blank(gap) && q == EXPORT + gap + Strip(q[7..])
  {
    hide *;
    ExportPrefix(q);
    var b := StripSuffix(q, 7);
    gap := [SPACE] + b;
    BlankGap(b);
    Glue(q, EXPORT, SPACE, b, Strip(q[7..]));
  }

  lemma ExportPrefix(q: Text)
    requires StartsExport(q)
    ensures |EXPORT| == 6 && |q| >= 7 && q[..6] == EXPORT && q[6] == SPACE
  {
  }

  lemma BlankGap(b: Text)
    requires Blank(b)
    ensures Blank([SPACE] + b)
  {
  }

  lemma Glue(q: Text, a: Text, c: Code, b: Text, k: Text)
    requires |a| < |q| && q[..|a|] == a && q[|a|] == c && q[|a| + 1..] == b + k
    ensures q == a + ([c] + b) + k
  {
    assert q == q[..|a|] + [q[|a|]] + q[|a| + 1..];
  }

  lemma ParsedParts(raw: Text) returns (p: Text, value: Text)
    requires ParseLine(raw).Some?
    ensures ParseLine(raw).value.key == KeyText(p) && Strip(raw) == p + ([EQUALS] + value)
    ensures p == Strip(raw)[..|p|]
  {
    hide Strip, KeyText, Unquote;
    var line := Strip(raw);
    var n := FindEquals(line);
    p, value := line[..n], line[n + 1..];
  }

  lemma KeyCases(p: Text)
    ensures StartsExport(Strip(p)) ==> KeyText(p) == Strip(Strip(p)[7..])
    ensures !StartsExport(Strip(p)) ==> KeyText(p) == Strip(p)
  {
    hide RStrip, LStrip;
    StripStripped(p);
    StripStripped(Strip(p));
  }

  /** Every line that defines an identifier is a line the expression matches, with the same key. */
  lemma DefinedIsMatched(raw: Text)
    requires ParseLine(raw).Some? && Identifier(ParseLine(raw).value.key)
    ensures MatchKey(Strip(raw)) == Some(ParseLine(raw).value.key)
  {
    hide *;
    var line := Strip(raw);
    StripStripped(raw);
    var p, value := ParsedParts(raw);
    var q, k := Strip(p), KeyText(p);
    StripPrefix(line, |p|);
    var blank := p[|q|..];
    var t := blank + [EQUALS] + value;
    RestOf(t, blank, value);
    assert line == q + t;
    IdentifierNotEmpty(k);
    StripStripped(p);
    KeyCases(p);
    if StartsExport(q) {
      var gap := KeyAfterExport(q);
      assert line == EXPORT + gap + (k + t);
      MatchExport(gap, k, t, blank, value);
    } else {
      MatchPlain(k, t, blank, value);
    }
  }

  lemma RestOf(t: Text, blank: Text, value: Text)
    requires Blank(blank) && t == blank + [EQUALS] + value
    ensures Rest(t, blank, value)
  {
  }

  lemma IdentifierNotEmpty(k: Text)
    ensures Identifier(k) ==> k != []
  {
  }

  // ---------------------------------------------------- the lines written

  /** What is read where v was written. */
  function ReadValue(v: Text): Text { Unquote(QuoteEnv(v)) }

  /** v comes back from the file. */
  predicate Writable(v: Text) { NeedsQuotes(v) ==> NoSplitPair(v) }

  /** A quoted value is read through the JSON text. */
  lemma QuotedReads(v: Text)
    requires NeedsQuotes(v)
    ensures ReadValue(v) == Joined(v)
  {
    var q := Dumps(v);
    assert v != [] && q[1..] == EscapeAll(v) + [QUOTE] && |q| >= 2 && q[0] == q[|q| - 1] == QUOTE;
    hide NeedsQuotes, Decode, EscapeAll, Joined;
    DecodeIsJoined(v);
    assert Loads(q) == Some(Joined(v));
    assert QuoteEnv(v) == q;
    hide Loads, Dumps, QuoteEnv;
  }

  lemma PlainReads(v: Text)
    requires !NeedsQuotes(v)
    ensures ReadValue(v) == v
  {
    hide Loads, Dumps, Space;
    if v != [] {
      assert v[0] in v;
    }
  }

  lemma WritableIs(v: Text)
    ensures Writable(v) <==> !NeedsQuotes(v) || NoSplitPair(v)
  {
    hide NeedsQuotes, NoSplitPair;
  }

  lemma ReadValueIff(v: Text)
    ensures ReadValue(v) == v <==> Writable(v)
  {
    hide *;
    WritableIs(v);
    if NeedsQuotes(v) {
      QuotedReads(v);
      JoinedIff(v);
    } else {
      PlainReads(v);
    }
  }

  /** A value that is lost: the two halves of U+1F600 and a space come back as one character and a space. */
  lemma SurrogatesAreJoined()
    ensures !Writable([0xD83D, 0xDE00, SPACE]) && ReadValue([0xD83D, 0xDE00, SPACE]) == [0x1F600, SPACE]
  {
    hide *;
    var v: Text := [0xD83D, 0xDE00, SPACE];
    HalvesAndSpace(v);
    QuotedReads(v);
    ReadValueIff(v);
  }

  lemma HalvesAndSpace(v: Text)
    requires v == [0xD83D, 0xDE00, SPACE]
    ensures NeedsQuotes(v) && Joined(v) == [0x1F600, SPACE]
  {
    assert Space(SPACE) && High(0xD83D) && Low(0xDE00) && Pair(0xD83D, 0xDE00) == 0x1F600;
    hide *;
    SpaceNeedsQuotes(v, 2);
    JoinedPair(0xD83D, 0xDE00, [SPACE]);
    JoinedOne(SPACE);
    assert v == [0xD83D, 0xDE00] + [SPACE];
  }

  lemma JoinedPair(h: Code, l: Code, rest: Text)
    requires High(h) && Low(l)
    ensures Joined([h, l] + rest) == [Pair(h, l)] + Joined(rest)
  {
    hide Pair;
    assert ([h, l] + rest)[2..] == rest;
  }

  lemma JoinedOne(c: Code)
    ensures Joined([c]) == [c]
  {
    assert [c][1..] == [];
  }

  lemma SpaceNeedsQuotes(v: Text, i: nat)
    requires i < |v| && Space(v[i])
    ensures NeedsQuotes(v)
  {
    hide Space;
    assert v[i] in v;
  }

  /** A quoted value has no space at its ends and is one line. */
  lemma QuotedShape(v: Text)
    ensures OneLine(QuoteEnv(v)) && Stripped(QuoteEnv(v))
  {
    if NeedsQuotes(v) {
      DumpsIsPrintable(v);
    } else {
      forall c | c in v ensures !Space(c) && !Break(c) {
        assert !Space(c);
      }
    }
  }

  lemma KeyHasNoSpace(k: Text, c: Code)
    requires Identifier(k) && c in k
    ensures !Space(c) && !Break(c) && c != EQUALS
  {
  }

  function Head(exported: bool, k: Text): Text { (if exported then EXPORT + [SPACE] else []) + k }

  lemma HeadShape(exported: bool, k: Text)
    requires Identifier(k)
    ensures Head(exported, k) != [] && Stripped(Head(exported, k)) && OneLine(Head(exported, k))
    ensures EQUALS !in Head(exported, k) && Head(exported, k)[0] != HASH
  {
    var h := Head(exported, k);
    forall c | c in h ensures !Break(c) && c != EQUALS {
      if c in k {
        KeyHasNoSpace(k, c);
      }
    }
    assert k[0] in k && k[|k| - 1] in k && h[|h| - 1] == k[|k| - 1];
    KeyHasNoSpace(k, k[|k| - 1]);
    KeyHasNoSpace(k, k[0]);
  }

  lemma IdentifierStripped(k: Text)
    requires Identifier(k)
    ensures Stripped(k) && (|k| > 6 ==> k[6] != SPACE)
  {
    assert k[0] in k && k[|k| - 1] in k;
    KeyHasNoSpace(k, k[0]);
    KeyHasNoSpace(k, k[|k| - 1]);
    if |k| > 6 {
      assert k[6] in k;
      KeyHasNoSpace(k, k[6]);
    }
    hide Identifier;
  }

  lemma HeadCases(exported: bool, k: Text)
    ensures exported ==> StartsExport(Head(exported, k)) && Head(exported, k)[7..] == k
    ensures !exported ==> Head(exported, k) == k && (StartsExport(k) ==> |k| > 6 && k[6] == SPACE)
  {
    if exported {
      assert (EXPORT + [SPACE] + k)[..6] == EXPORT;
    }
  }

  lemma HeadKey(exported: bool, k: Text)
    requires Identifier(k)
    ensures KeyText(Head(exported, k)) == k
    ensures StartsExport(Head(exported, k)) <==> exported
  {
    hide *;
    var h := Head(exported, k);
    HeadShape(exported, k);
    StripStripped(h);
    IdentifierStripped(k);
    StripStripped(k);
    HeadCases(exported, k);
    KeyCases(h);
  }

  lemma {:induction false} FindEqualsIs(h: Text, rest: Text)
    requires EQUALS !in h
    ensures FindEquals(h + [EQUALS] + rest) == |h|
  {
    var t := h + [EQUALS] + rest;
    if h != [] {
      assert h[0] in h && EQUALS !in h[1..];
      FindEqualsIs(h[1..], rest);
      assert t[1..] == h[1..] + [EQUALS] + rest;
    }
  }

  lemma EntryIs(exported: bool, k: Text, v: Text)
    ensures EntryLine(exported, k, v) == Head(exported, k) + [EQUALS] + QuoteEnv(v)
  {
  }

  lemma EntryShape(exported: bool, k: Text, v: Text)
    requires Identifier(k)
    ensures var l := EntryLine(exported, k, v); l != [] && Stripped(l) && OneLine(l) && l[0] != HASH
  {
    HeadShape(exported, k);
    QuotedShape(v);
    hide QuoteEnv, Head, Break, Identifier;
    EntryIs(exported, k, v);
    hide EntryLine;
    var h, l := Head(exported, k), EntryLine(exported, k, v);
    assert l[0] == h[0];
    assert l[|l| - 1] == if QuoteEnv(v) == [] then EQUALS else QuoteEnv(v)[|QuoteEnv(v)| - 1];
  }

  /** A written line is read as the key and the value that went in. */
  lemma EntryIsRead(exported: bool, k: Text, v: Text)
    requires Identifier(k)
    ensures ParseLine(EntryLine(exported, k, v)) == Some(Entry(k, ReadValue(v)))
  {
    hide *;
    var h, l := Head(exported, k), EntryLine(exported, k, v);
    EntryShape(exported, k, v);
    StripStripped(l);
    HeadShape(exported, k);
    HeadKey(exported, k);
    EntryIs(exported, k, v);
    FindEqualsIs(h, QuoteEnv(v));
    QuotedShape(v);
    StripStripped(QuoteEnv(v));
    assert l[..|h|] == h && l[|h| + 1..] == QuoteEnv(v);
    ParsesTo(l, h, QuoteEnv(v));
    ReadValueIs(v);
  }

  lemma ReadValueIs(v: Text)
    ensures ReadValue(v) == Unquote(QuoteEnv(v))
  {
  }

  lemma ParsesTo(l: Text, h: Text, value: Text)
    requires l != [] && Strip(l) == l && l[0] != HASH && Strip(value) == value
    requires FindEquals(l) == |h| < |l| && l[..|h|] == h && l[|h| + 1..] == value
    ensures ParseLine(l) == Some(Entry(KeyText(h), Unquote(value)))
  {
    hide Strip, FindEquals, KeyText, Unquote;
  }

  /** A written line is matched with its own key, and the same prefix is seen again. */
  lemma EntryIsMatched(exported: bool, k: Text, v: Text)
    requires Identifier(k)
    ensures var l := EntryLine(exported, k, v);
            Strip(l) == l && RStrip(l) == l && MatchKey(l) == Some(k) && (StartsExport(l) <==> exported)
  {
    hide *;
    var l := EntryLine(exported, k, v);
    EntryShape(exported, k, v);
    StripStripped(l);
    EntryIsRead(exported, k, v);
    DefinedIsMatched(l);
    EntryText(exported, k, v);
    if exported {
      ExportThenKey(l, k + [EQUALS] + QuoteEnv(v));
    } else {
      KeyThenEquals(l, k, QuoteEnv(v));
    }
  }

  lemma EntryText(exported: bool, k: Text, v: Text)
    ensures exported ==> EntryLine(exported, k, v) == EXPORT + [SPACE] + (k + [EQUALS] + QuoteEnv(v))
    ensures !exported ==> EntryLine(exported, k, v) == k + [EQUALS] + QuoteEnv(v)
  {
    hide QuoteEnv;
  }

  lemma ExportThenKey(l: Text, rest: Text)
    requires l == EXPORT + [SPACE] + rest
    ensures StartsExport(l)
  {
    assert l[..6] == EXPORT;
  }

  lemma KeyThenEquals(l: Text, k: Text, rest: Text)
    requires Identifier(k) && l == k + [EQUALS] + rest
    ensures !StartsExport(l)
  {
    if |k| > 6 {
      assert l[6] == k[6] && k[6] in k;
      KeyHasNoSpace(k, k[6]);
    } else if |k| < 6 {
      assert l[|k|] == EQUALS && EXPORT[|k|] != EQUALS;
      if |l| >= 6 {
        assert l[..6][|k|] == l[|k|];
      }
    }
  }

  /** A value is quoted exactly when it holds a blank, a hash or a quote of either kind. */
  lemma QuoteEnvMeans(v: Text)
    ensures QuoteEnv(v) == if exists i :: 0 <= i < |v| && (Space(v[i]) || v[i] in {35, 39, 34}) then Dumps(v) else v
  {
    hide Space, Dumps;
    assert forall i :: 0 <= i < |v| ==> v[i] in v;
  }

  // ------------------------------------------------ lines written by hand

  /** Quotes of either kind around a value are taken off, and what is not JSON stays as it is. */
  lemma QuotesComeOff(q: Code, t: Text)
    requires q == APOSTROPHE || (q == QUOTE && (Literal(t) || Loads([q] + t + [q]).None?))
    ensures Unquote([q] + t + [q]) == t
  {
    var v := [q] + t + [q];
    assert v[1..|v| - 1] == t && v[1..] == t + [q] && v[0] == q == v[|v| - 1];
    if q == QUOTE && Literal(t) {
      LiteralLoads(t);
    }
    hide Decode, Literal;
  }

  /** Without a pair of quotes around it a value is itself. */
  lemma BareStays(v: Text)
    requires |v| < 2 || v[0] != v[|v| - 1] || (v[0] != APOSTROPHE && v[0] != QUOTE)
    ensures Unquote(v) == v
  {
  }

  /** KEY='value', with or without export, is read as the value; with double quotes, if it has no escapes. */
  lemma HandWrittenIsRead(exported: bool, k: Text, q: Code, t: Text)
    requires Identifier(k) && (q == APOSTROPHE || (q == QUOTE && Literal(t)))
    ensures ParseLine(Head(exported, k) + [EQUALS] + ([q] + t + [q])) == Some(Entry(k, t))
  {
    var h, v := Head(exported, k), [q] + t + [q];
    var l := h + [EQUALS] + v;
    QuotesComeOff(q, t);
    QuotesStripped(q, t);
    hide *;
    HeadShape(exported, k);
    HeadKey(exported, k);
    FindEqualsIs(h, v);
    LineStripped(h, v);
    StripStripped(l);
    StripStripped(v);
    LineParts(h, v);
    ParsesTo(l, h, v);
  }

  lemma LineParts(h: Text, v: Text)
    requires h != []
    ensures var l := h + [EQUALS] + v; |h| < |l| && l[..|h|] == h && l[|h| + 1..] == v && l[0] == h[0]
  {
  }

  lemma QuotesStripped(q: Code, t: Text)
    requires q == APOSTROPHE || q == QUOTE
    ensures Stripped([q] + t + [q])
  {
  }

  lemma LineStripped(h: Text, v: Text)
    requires h != [] && v != [] && Stripped(h) && Stripped(v)
    ensures Stripped(h + [EQUALS] + v)
  {
    hide Space;
  }
}
