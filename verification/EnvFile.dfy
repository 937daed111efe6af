/**
 * bin/configure-platform.py, parse_env and write_env on whole files: updating
 * some keys of a dotenv file in place and reading them back.
 */
module EnvFile {
  import opened Options
  import opened JsonText
  import opened PyText
  import opened EnvLine

  // ---------------------------------------------------------- specification

  function AddEntry(out: map<Text, Text>, e: Option<Entry>): map<Text, Text> {
    if e.Some? then out[e.value.key := e.value.value] else out
  }

  /** The dictionary the lines define: a later line replaces an earlier one. */
  function Parsed(ls: seq<Text>): map<Text, Text> {
    if ls == [] then map[] else AddEntry(Parsed(ls[..|ls| - 1]), ParseLine(ls[|ls| - 1]))
  }

  function LinesOf(text: Option<Text>): seq<Text> { if text.Some? then SplitLines(text.value) else [] }

  function Read(text: Option<Text>, k: Text): Option<Text> {
    var d := Parsed(LinesOf(text));
    if k in d then Some(d[k]) else None
  }

  /** A Python dict: its keys in insertion order, and their values. */
  datatype Dict = Dict(order: seq<Text>, values: map<Text, Text>)

  predicate ValidDict(u: Dict) {
    && (forall i, j :: 0 <= i < j < |u.order| ==> u.order[i] != u.order[j])
    && (forall k <- u.order :: k in u.values)
    && (forall k <- u.values :: k in u.order)
  }

  predicate IdentifierKeys(u: Dict) { forall k <- u.order :: Identifier(k) }

  function Rewritten(ls: seq<Text>, values: map<Text, Text>): seq<Text> {
    seq(|ls|, i requires 0 <= i < |ls| => Rewrite(ls[i], values))
  }

  predicate Mentions(ls: seq<Text>, k: Text) { exists l <- ls :: MatchKey(Strip(l)) == Some(k) }

  function Missing(order: seq<Text>, ls: seq<Text>): seq<Text> {
    if order == [] then []
    else Missing(order[..|order| - 1], ls) + (if Mentions(ls, order[|order| - 1]) then [] else [order[|order| - 1]])
  }

  function Entries(keys: seq<Text>, values: map<Text, Text>): seq<Text>
    requires forall k <- keys :: k in values
  {
    if keys == [] then []
    else Entries(keys[..|keys| - 1], values) + [EntryLine(false, keys[|keys| - 1], values[keys[|keys| - 1]])]
  }

  function Appended(front: seq<Text>, missing: seq<Text>, values: map<Text, Text>): seq<Text>
    requires forall k <- missing :: k in values
  {
    if missing == [] then front else front + Gap(front) + [MARKER] + Entries(missing, values)
  }

  /** An empty line, unless the text so far is empty or ends with a blank line. */
  function Gap(front: seq<Text>): seq<Text> { if front != [] && Strip(front[|front| - 1]) != [] then [[]] else [] }

  lemma {:induction false} MissingIs(order: seq<Text>, ls: seq<Text>)
    ensures forall k :: k in Missing(order, ls) <==> k in order && !Mentions(ls, k)
  {
    if order != [] {
      MissingIs(order[..|order| - 1], ls);
      assert order == order[..|order| - 1] + [order[|order| - 1]];
    }
  }

  function NewLines(ls: seq<Text>, u: Dict): seq<Text>
    requires ValidDict(u)
  {
    MissingIs(u.order, ls);
    Appended(Rewritten(ls, u.values), Missing(u.order, ls), u.values)
  }

  predicate Changed(ls: seq<Text>, u: Dict) { Rewritten(ls, u.values) != ls || Missing(u.order, ls) != [] }

  function FileText(ls: seq<Text>): Text { RStrip(Join(ls)) + [NL] }

  /** The file after write_env; None is a missing file. */
  function AfterWrite(text: Option<Text>, u: Dict): Option<Text>
    requires ValidDict(u)
  {
    var ls := LinesOf(text);
    if Changed(ls, u) || text.None? then Some(FileText(NewLines(ls, u))) else text
  }

  // -------------------------------------------------------- looking keys up

  function Defined(l: Text, k: Text): Option<Text> {
    var e := ParseLine(l);
    if e.Some? && e.value.key == k then Some(e.value.value) else None
  }

  /** The value of the last line that defines k. */
  function Look(ls: seq<Text>, k: Text): Option<Text> {
    if ls == [] then None
    else if Defined(ls[|ls| - 1], k).Some? then Defined(ls[|ls| - 1], k)
    else Look(ls[..|ls| - 1], k)
  }

  lemma {:induction false} ParsedIsLook(ls: seq<Text>, k: Text)
    ensures Look(ls, k) == if k in Parsed(ls) then Some(Parsed(ls)[k]) else None
  {
    hide ParseLine;
    if ls != [] {
      ParsedIsLook(ls[..|ls| - 1], k);
    }
  }

  lemma {:induction false} LookAppend(a: seq<Text>, b: seq<Text>, k: Text)
    ensures Look(a + b, k) == if Look(b, k).Some? then Look(b, k) else Look(a, k)
  {
    hide Defined;
    if b == [] {
      assert a + b == a;
    } else {
      var n := |b| - 1;
      LookAppend(a, b[..n], k);
      assert (a + b)[..|a| + n] == a + b[..n];
    }
  }

  /** What a line defines for an updated key. */
  function NewValue(raw: Text, values: map<Text, Text>, k: Text): Option<Text>
    requires k in values
  {
    if MatchKey(Strip(raw)) == Some(k) then Some(ReadValue(values[k])) else None
  }

  lemma RewriteDefined(raw: Text, values: map<Text, Text>, k: Text)
    requires Identifier(k)
    ensures Defined(Rewrite(raw, values), k) == if k !in values then Defined(raw, k) else NewValue(raw, values, k)
  {
    hide Strip, ParseLine, MatchKey, StartsExport, ReadValue, EntryLine, Identifier;
    var stripped := Strip(raw);
    var m := MatchKey(stripped);
    if Defined(raw, k).Some? {
      DefinedIsMatched(raw);
    }
    if m.Some? && m.value in values {
      EntryIsRead(StartsExport(stripped), m.value, values[m.value]);
    }
  }

  lemma {:induction false} RewrittenLook(ls: seq<Text>, values: map<Text, Text>, k: Text)
    requires Identifier(k)
    ensures Look(Rewritten(ls, values), k)
         == if k !in values then Look(ls, k) else if Mentions(ls, k) then Some(ReadValue(values[k])) else None
  {
    hide Identifier, Rewrite, Defined, Strip, MatchKey, ReadValue;
    if ls != [] {
      var n := |ls| - 1;
      RewrittenLook(ls[..n], values, k);
      RewriteDefined(ls[n], values, k);
      assert Rewritten(ls, values)[..n] == Rewritten(ls[..n], values);
      assert ls == ls[..n] + [ls[n]];
      if k in values && MatchKey(Strip(ls[n])) != Some(k) {
        assert Mentions(ls, k) <==> Mentions(ls[..n], k);
      }
    }
  }

  lemma {:induction false} EntriesLook(keys: seq<Text>, values: map<Text, Text>, k: Text)
    requires forall x <- keys :: x in values && Identifier(x)
    ensures Look(Entries(keys, values), k) == if k in keys then Some(ReadValue(values[k])) else None
  {
    hide Identifier, ReadValue, EntryLine, ParseLine;
    if keys != [] {
      var n := |keys| - 1;
      assert keys[n] in keys && keys == keys[..n] + [keys[n]];
      EntriesLook(keys[..n], values, k);
      EntryIsRead(false, keys[n], values[keys[n]]);
      assert Entries(keys, values) == Entries(keys[..n], values) + [EntryLine(false, keys[n], values[keys[n]])];
    }
  }

  lemma CommentDefinesNothing(t: Text)
    requires Stripped(t) && (t == [] || t[0] == HASH)
    ensures Strip(t) == t && ParseLine(t) == None && MatchKey(t) == None
  {
    StripStripped(t);
    hide Strip, KeyText, Unquote;
    assert |t| > 6 ==> t[..6][0] == t[0];
  }

  lemma MarkerShape()
    ensures MARKER[0] == HASH && Stripped(MARKER) && OneLine(MARKER)
  {
    assert VALUES[|VALUES| - 1] == 45 && MARKER[|MARKER| - 1] == VALUES[|VALUES| - 1];
    forall c | c in MARKER ensures 32 <= c < 127 {
      assert c in RULE || c in SINGULARITY || c in CONFIG || c in UTILITY || c in MANAGED || c in VALUES;
    }
  }

  /** Neither an empty line nor the marker defines or mentions a key. */
  lemma FillerDefinesNothing(l: Text, k: Text)
    requires l == [] || l == MARKER
    ensures OneLine(l) && Strip(l) == l && Defined(l, k) == None && MatchKey(l) == None
  {
    hide MARKER;
    MarkerShape();
    CommentDefinesNothing(l);
  }

  /** The lines write_env appends, without the entries. */
  lemma FillerLook(front: seq<Text>, k: Text)
    ensures Look(Gap(front) + [MARKER], k) == None
  {
    hide Defined, MARKER, Look, Strip;
    FillerDefinesNothing([], k);
    FillerDefinesNothing(MARKER, k);
    LookOne([], k);
    LookOne(MARKER, k);
    LookAppend(Gap(front), [MARKER], k);
  }

  lemma LookOne(l: Text, k: Text)
    ensures Look([l], k) == Defined(l, k) && Look([], k) == None
  {
    hide Defined;
    assert [l][..0] == [];
  }

  lemma MissingKeys(ls: seq<Text>, u: Dict)
    requires ValidDict(u)
    ensures forall k :: k in Missing(u.order, ls) <==> k in u.values && !Mentions(ls, k)
    ensures IdentifierKeys(u) ==> forall k <- Missing(u.order, ls) :: Identifier(k)
  {
    MissingIs(u.order, ls);
  }

  /** What the new lines define: the new value of an updated key, the old value of any other. */
  lemma NewLinesLook(ls: seq<Text>, u: Dict, k: Text)
    requires ValidDict(u) && IdentifierKeys(u) && Identifier(k)
    ensures Look(NewLines(ls, u), k) == if k in u.values then Some(ReadValue(u.values[k])) else Look(ls, k)
  {
    hide Look, Rewritten, Mentions, Identifier, IdentifierKeys, Missing, Entries, MARKER, Gap, ReadValue, ValidDict;
    MissingKeys(ls, u);
    var front, missing := Rewritten(ls, u.values), Missing(u.order, ls);
    RewrittenLook(ls, u.values, k);
    if missing != [] {
      var entries := Entries(missing, u.values);
      EntriesLook(missing, u.values, k);
      FillerLook(front, k);
      var filler := Gap(front) + [MARKER];
      LookAppend(front, filler, k);
      LookAppend(front + filler, entries, k);
      assert NewLines(ls, u) == front + filler + entries;
    }
  }

  lemma StripRStrip(t: Text)
    ensures Strip(RStrip(t)) == Strip(t) && RStrip(RStrip(t)) == RStrip(t)
  {
  }

  lemma BlankDefinesNothing(t: Text, k: Text)
    requires RStrip(t) == []
    ensures Defined(t, k) == None && MatchKey(Strip(t)) == None
  {
    hide ParseLine, MatchKey;
    FillerDefinesNothing([], k);
    ParseIsOfStripped(t, []);
  }

  lemma ParseIsOfStripped(a: Text, b: Text)
    requires Strip(a) == Strip(b)
    ensures ParseLine(a) == ParseLine(b)
  {
    hide Strip, Unquote, KeyText;
  }

  lemma {:induction false} TrimmedLook(ls: seq<Text>, k: Text)
    ensures Look(Trimmed(ls), k) == Look(ls, k)
  {
    hide ParseLine, Strip, RStrip;
    if ls != [] {
      var n := |ls| - 1;
      if RStrip(ls[n]) == [] {
        BlankDefinesNothing(ls[n], k);
        TrimmedLook(ls[..n], k);
      } else {
        StripRStrip(ls[n]);
        ParseIsOfStripped(RStrip(ls[n]), ls[n]);
        assert Trimmed(ls)[..n] == ls[..n];
      }
    }
  }

  predicate OneLines(ls: seq<Text>) { forall l <- ls :: OneLine(l) }

  /** The lines of the written file are the trimmed lines; an empty file has one empty line. */
  lemma LinesOfFileText(ls: seq<Text>)
    requires OneLines(ls)
    ensures LinesOf(Some(FileText(ls))) == if Trimmed(ls) == [] then [[]] else Trimmed(ls)
  {
    RStripJoin(ls);
    TrimmedOneLine(ls);
    if Trimmed(ls) == [] {
      assert FileText(ls) == [NL];
      SplitOfJoin([[]]);
      assert Join([[]]) + [NL] == [NL];
    } else {
      SplitOfJoin(Trimmed(ls));
    }
  }

  lemma RewrittenOneLines(ls: seq<Text>, values: map<Text, Text>)
    requires OneLines(ls)
    ensures OneLines(Rewritten(ls, values))
  {
    hide OneLine, Strip, MatchKey, EntryLine, StartsExport;
    forall i | 0 <= i < |ls| ensures OneLine(Rewrite(ls[i], values)) {
      assert ls[i] in ls;
      var stripped := Strip(ls[i]);
      if MatchKey(stripped).Some? && MatchKey(stripped).value in values {
        EntryShape(StartsExport(stripped), MatchKey(stripped).value, values[MatchKey(stripped).value]);
      }
    }
  }

  lemma {:induction false} EntriesOneLines(keys: seq<Text>, values: map<Text, Text>)
    requires forall x <- keys :: x in values && Identifier(x)
    ensures OneLines(Entries(keys, values))
  {
    hide OneLine, EntryLine, Identifier;
    if keys != [] {
      var n := |keys| - 1;
      assert keys[n] in keys;
      EntriesOneLines(keys[..n], values);
      EntryShape(false, keys[n], values[keys[n]]);
    }
  }

  lemma NewLinesOneLines(ls: seq<Text>, u: Dict)
    requires ValidDict(u) && IdentifierKeys(u) && OneLines(ls)
    ensures OneLines(NewLines(ls, u))
  {
    hide *;
    var front, missing := Rewritten(ls, u.values), Missing(u.order, ls);
    MissingKeys(ls, u);
    RewrittenOneLines(ls, u.values);
    EntriesOneLines(missing, u.values);
    AppendedOneLines(front, missing, u.values);
    NewLinesAre(ls, u);
  }

  lemma NewLinesAre(ls: seq<Text>, u: Dict)
    requires ValidDict(u)
    ensures (forall k <- Missing(u.order, ls) :: k in u.values)
    ensures NewLines(ls, u) == Appended(Rewritten(ls, u.values), Missing(u.order, ls), u.values)
  {
    hide Appended, Rewritten, Missing;
    MissingIs(u.order, ls);
  }

  lemma AppendedIs(front: seq<Text>, missing: seq<Text>, values: map<Text, Text>)
    requires forall k <- missing :: k in values
    ensures missing == [] ==> Appended(front, missing, values) == front
    ensures missing != [] ==>
              Appended(front, missing, values)
              == (if front != [] &&
                  Strip(front[|front| - 1]) != [] then front + [[]] else front) + [MARKER] + Entries(missing, values)
  {
    hide Strip, MARKER, Entries;
    assert front + [] == front;
  }

  lemma ChangedIff(ls: seq<Text>, u: Dict)
    ensures Changed(ls, u) <==> Rewritten(ls, u.values) != ls || Missing(u.order, ls) != []
  {
    hide Rewritten, Missing;
  }

  lemma OneLinesAppend(a: seq<Text>, b: seq<Text>)
    requires OneLines(a) && OneLines(b)
    ensures OneLines(a + b)
  {
    hide OneLine;
  }

  lemma OneLinesOne(l: Text)
    requires OneLine(l)
    ensures OneLines([l])
  {
    hide OneLine;
  }

  lemma AppendedOneLines(front: seq<Text>, missing: seq<Text>, values: map<Text, Text>)
    requires forall k <- missing :: k in values
    requires OneLines(front) && OneLines(Entries(missing, values))
    ensures OneLines(Appended(front, missing, values))
  {
    hide *;
    AppendedIs(front, missing, values);
    FillerDefinesNothing([], []);
    FillerDefinesNothing(MARKER, []);
    OneLinesOne([]);
    OneLinesOne(MARKER);
    OneLinesAppend(front, [[]]);
    var before := if front != [] && Strip(front[|front| - 1]) != [] then front + [[]] else front;
    OneLinesAppend(before, [MARKER]);
    OneLinesAppend(before + [MARKER], Entries(missing, values));
  }

  lemma ReadIsLook(text: Option<Text>, k: Text)
    ensures Read(text, k) == Look(LinesOf(text), k)
  {
    ParsedIsLook(LinesOf(text), k);
  }

  /** The lines of the file after the write define what the new lines define. */
  lemma AfterWriteLook(text: Option<Text>, u: Dict, k: Text)
    requires ValidDict(u) && IdentifierKeys(u)
    ensures Look(LinesOf(AfterWrite(text, u)), k) == Look(NewLines(LinesOf(text), u), k)
  {
    hide Look, Rewritten, Missing, ValidDict, IdentifierKeys, FileText, SplitLines;
    var ls := LinesOf(text);
    assert OneLines(ls);
    if Changed(ls, u) || text.None? {
      var now := NewLines(ls, u);
      NewLinesOneLines(ls, u);
      LinesOfFileText(now);
      TrimmedLook(now, k);
      FillerDefinesNothing([], k);
      LookOne([], k);
    }
  }

  /**
   * Read after write, for identifier keys and any existing file: an updated key
   * reads back as the value it was given exactly when that value survives the
   * quoting, and every other key as before.
   */
  lemma ReadAfterWrite(text: Option<Text>, u: Dict, k: Text)
    requires ValidDict(u) && IdentifierKeys(u) && Identifier(k)
    ensures k in u.values ==> (Read(AfterWrite(text, u), k) == Some(u.values[k]) <==> Writable(u.values[k]))
    ensures k !in u.values ==> Read(AfterWrite(text, u), k) == Read(text, k)
  {
    hide *;
    ReadIsLook(text, k);
    ReadIsLook(AfterWrite(text, u), k);
    AfterWriteLook(text, u, k);
    NewLinesLook(LinesOf(text), u, k);
    if k in u.values {
      ReadValueIff(u.values[k]);
    }
  }

  // -------------------------------------------------------- the other lines

  lemma {:induction false} TrimmedAt(ls: seq<Text>, i: nat)
    requires i < |ls| && RStrip(ls[i]) != []
    ensures i < |Trimmed(ls)| && RStrip(Trimmed(ls)[i]) == RStrip(ls[i])
    decreases |ls|
  {
    hide RStrip;
    var n := |ls| - 1;
    if RStrip(ls[n]) == [] {
      TrimmedAt(ls[..n], i);
    } else if i == n {
      StripRStrip(ls[n]);
    }
  }

  /** The line is not one whose key is updated. */
  predicate Foreign(l: Text, u: Dict) {
    MatchKey(Strip(l)).Some? ==> MatchKey(Strip(l)).value !in u.values
  }

  lemma ForeignStays(ls: seq<Text>, u: Dict, i: nat)
    requires ValidDict(u) && i < |ls| && Foreign(ls[i], u)
    ensures i < |NewLines(ls, u)| && NewLines(ls, u)[i] == ls[i]
  {
    hide Strip, MatchKey, Missing, Gap, Entries, MARKER;
    NewLinesAre(ls, u);
    assert Rewritten(ls, u.values)[i] == Rewrite(ls[i], u.values);
  }

  /**
   * Every line that is not blank and not of an updated key, comments included, stays where it was, but for blanks at
   * its end.
   */
  lemma OtherLinesStay(text: Option<Text>, u: Dict, i: nat)
    requires ValidDict(u) && IdentifierKeys(u) && i < |LinesOf(text)|
    requires Foreign(LinesOf(text)[i], u) && RStrip(LinesOf(text)[i]) != []
    ensures var after := LinesOf(AfterWrite(text, u));
            i < |after| && RStrip(after[i]) == RStrip(LinesOf(text)[i])
  {
    hide *;
    var ls := LinesOf(text);
    AfterWriteIs(text, u);
    if Changed(ls, u) || text.None? {
      LinesAreOneLines(text);
      NewLinesOneLines(ls, u);
      LinesOfFileText(NewLines(ls, u));
      ForeignStays(ls, u, i);
      TrimmedAt(NewLines(ls, u), i);
    }
  }

  // ------------------------------------------------------------ idempotence

  predicate Settled(l: Text, values: map<Text, Text>) { Rewrite(l, values) == l }

  lemma RewriteSettles(raw: Text, values: map<Text, Text>)
    ensures Settled(Rewrite(raw, values), values)
    ensures MatchKey(Strip(raw)).Some? && MatchKey(Strip(raw)).value in values ==>
              MatchKey(Strip(Rewrite(raw, values))) == MatchKey(Strip(raw))
  {
    hide Strip, MatchKey, StartsExport, EntryLine, Identifier;
    var stripped := Strip(raw);
    if MatchKey(stripped).Some? && MatchKey(stripped).value in values {
      EntryIsMatched(StartsExport(stripped), MatchKey(stripped).value, values[MatchKey(stripped).value]);
    }
  }

  lemma EntrySettled(k: Text, values: map<Text, Text>)
    requires Identifier(k) && k in values
    ensures Settled(EntryLine(false, k, values[k]), values)
    ensures MatchKey(Strip(EntryLine(false, k, values[k]))) == Some(k)
  {
    hide Strip, MatchKey, StartsExport, EntryLine, Identifier;
    EntryIsMatched(false, k, values[k]);
  }

  /** Right-stripping a settled line leaves it settled. */
  lemma RStripSettled(l: Text, values: map<Text, Text>)
    requires Settled(l, values)
    ensures Settled(RStrip(l), values)
  {
    hide Strip, MatchKey, StartsExport, EntryLine, Identifier, RStrip;
    StripRStrip(l);
    var k := MatchKey(Strip(l));
    if k.Some? && k.value in values {
      EntryIsMatched(StartsExport(Strip(l)), k.value, values[k.value]);
    }
  }

  predicate AllSettled(ls: seq<Text>, values: map<Text, Text>) { forall l <- ls :: Settled(l, values) }

  lemma {:induction false} TrimmedSettled(ls: seq<Text>, values: map<Text, Text>)
    requires AllSettled(ls, values)
    ensures AllSettled(Trimmed(ls), values)
  {
    hide Settled, RStrip;
    if ls != [] {
      var n := |ls| - 1;
      assert ls[n] in ls;
      if RStrip(ls[n]) == [] {
        TrimmedSettled(ls[..n], values);
      } else {
        RStripSettled(ls[n], values);
      }
    }
  }

  lemma {:induction false} TrimmedMentions(ls: seq<Text>, k: Text)
    ensures Mentions(ls, k) ==> Mentions(Trimmed(ls), k)
  {
    hide MatchKey, Strip, RStrip;
    if ls != [] {
      var n := |ls| - 1;
      assert ls == ls[..n] + [ls[n]];
      if RStrip(ls[n]) == [] {
        BlankDefinesNothing(ls[n], k);
        TrimmedMentions(ls[..n], k);
      } else {
        StripRStrip(ls[n]);
        assert RStrip(ls[n]) in Trimmed(ls);
        assert forall l <- ls[..n] :: l in Trimmed(ls);
      }
    }
  }

  lemma {:induction false} EntriesSettled(keys: seq<Text>, values: map<Text, Text>)
    requires forall x <- keys :: x in values && Identifier(x)
    ensures AllSettled(Entries(keys, values), values)
    ensures forall k <- keys :: Mentions(Entries(keys, values), k)
  {
    hide Settled, MatchKey, Strip, EntryLine, Identifier;
    if keys != [] {
      var n := |keys| - 1;
      assert keys[n] in keys && keys == keys[..n] + [keys[n]];
      EntriesSettled(keys[..n], values);
      EntrySettled(keys[n], values);
    }
  }

  lemma NewLinesSettled(ls: seq<Text>, u: Dict)
    requires ValidDict(u) && IdentifierKeys(u)
    ensures AllSettled(NewLines(ls, u), u.values)
    ensures forall k <- u.order :: Mentions(NewLines(ls, u), k)
  {
    hide Settled, MatchKey, Strip, Entries, Missing, MARKER, Rewrite, Identifier;
    var now, front, missing := NewLines(ls, u), Rewritten(ls, u.values), Missing(u.order, ls);
    MissingKeys(ls, u);
    EntriesSettled(missing, u.values);
    FillerSettled(u.values);
    forall i | 0 <= i < |ls| ensures Settled(front[i], u.values) {
      RewriteSettles(ls[i], u.values);
    }
    assert forall l <- front :: l in now;
    forall k | k in u.order ensures Mentions(now, k) {
      if Mentions(ls, k) {
        var i :| 0 <= i < |ls| && MatchKey(Strip(ls[i])) == Some(k);
        RewriteSettles(ls[i], u.values);
        assert front[i] in now;
      } else {
        assert forall l <- Entries(missing, u.values) :: l in now;
      }
    }
  }

  lemma FillerSettled(values: map<Text, Text>)
    ensures Settled([], values) && Settled(MARKER, values)
  {
    hide Strip, MatchKey, MARKER;
    FillerDefinesNothing([], []);
    FillerDefinesNothing(MARKER, []);
  }

  lemma SettledIsUnchanged(ls: seq<Text>, u: Dict)
    requires ValidDict(u) && AllSettled(ls, u.values) && forall k <- u.order :: Mentions(ls, k)
    ensures !Changed(ls, u)
  {
    hide Mentions, Rewrite;
    MissingIs(u.order, ls);
    assert Missing(u.order, ls) == [] by {
      if Missing(u.order, ls) != [] {
        assert Missing(u.order, ls)[0] in Missing(u.order, ls);
      }
    }
    assert forall i :: 0 <= i < |ls| ==> Settled(ls[i], u.values);
  }

  lemma AfterWriteIs(text: Option<Text>, u: Dict)
    requires ValidDict(u)
    ensures AfterWrite(text, u)
         == if Changed(LinesOf(text), u) || text.None? then Some(FileText(NewLines(LinesOf(text), u))) else text
    ensures AfterWrite(text, u).Some?
  {
  }

  lemma LinesAreOneLines(text: Option<Text>)
    ensures OneLines(LinesOf(text))
  {
  }

  lemma BlankFileSettled(u: Dict)
    requires ValidDict(u) && forall k <- u.order :: Mentions([], k)
    ensures AllSettled([[]], u.values) && forall k <- u.order :: Mentions([[]], k)
  {
    FillerSettled(u.values);
    assert forall k :: !Mentions([], k);
  }

  /** Writing the same updates again changes nothing. */
  lemma SecondWriteIsNoop(text: Option<Text>, u: Dict)
    requires ValidDict(u) && IdentifierKeys(u)
    ensures AfterWrite(AfterWrite(text, u), u) == AfterWrite(text, u)
  {
    hide *;
    var ls := LinesOf(text);
    AfterWriteIs(text, u);
    AfterWriteIs(AfterWrite(text, u), u);
    if Changed(ls, u) || text.None? {
      var now := NewLines(ls, u);
      LinesAreOneLines(text);
      NewLinesOneLines(ls, u);
      LinesOfFileText(now);
      NewLinesSettled(ls, u);
      TrimmedSettled(now, u.values);
      forall k | k in u.order ensures Mentions(Trimmed(now), k) {
        TrimmedMentions(now, k);
      }
      if Trimmed(now) == [] {
        BlankFileSettled(u);
      }
      SettledIsUnchanged(LinesOf(AfterWrite(text, u)), u);
    }
  }

  // ------------------------------------------------------------- the program

  lemma FileTextIs(ls: seq<Text>)
    ensures FileText(ls) == RStrip(Join(ls)) + [NL]
  {
  }

  lemma RewrittenNext(ls: seq<Text>, i: nat, values: map<Text, Text>)
    requires i < |ls|
    ensures Rewritten(ls[..i + 1], values) == Rewritten(ls[..i], values) + [Rewrite(ls[i], values)]
    ensures ls[..i + 1] == ls[..i] + [ls[i]]
  {
    hide Rewrite;
    var now := Rewritten(ls[..i + 1], values);
    forall j | 0 <= j < |now| ensures now[j] == (Rewritten(ls[..i], values) + [Rewrite(ls[i], values)])[j] {
      assert now[j] == Rewrite(ls[..i + 1][j], values);
    }
  }

  lemma MentionsNext(ls: seq<Text>, i: nat)
    requires i < |ls|
    ensures forall k :: Mentions(ls[..i + 1], k) <==> Mentions(ls[..i], k) || MatchKey(Strip(ls[i])) == Some(k)
  {
    hide MatchKey, Strip;
    assert ls[..i + 1] == ls[..i] + [ls[i]];
    assert ls[i] in ls[..i + 1];
  }

  method ListMissing(u: Dict, lines: seq<Text>, seen: set<Text>) returns (missing: seq<Text>)
    requires ValidDict(u) && forall k :: k in seen <==> k in u.values && Mentions(lines, k)
    ensures missing == Missing(u.order, lines)
  {
    missing := [];
    for i := 0 to |u.order|
      invariant missing == Missing(u.order[..i], lines)
    {
      assert u.order[..i + 1][..i] == u.order[..i] && u.order[i] in u.order;
      if u.order[i] !in seen {
        missing := missing + [u.order[i]];
      }
    }
    assert u.order[..|u.order|] == u.order;
  }

  method AddEntries(front: seq<Text>, keys: seq<Text>, values: map<Text, Text>) returns (all: seq<Text>)
    requires forall k <- keys :: k in values
    ensures all == front + Entries(keys, values)
  {
    hide EntryLine;
    all := front;
    for i := 0 to |keys|
      invariant all == front + Entries(keys[..i], values)
    {
      assert keys[..i + 1][..i] == keys[..i];
      all := all + [EntryLine(false, keys[i], values[keys[i]])];
    }
    assert keys[..|keys|] == keys;
  }

  /** The loop over the existing lines. */
  method RewriteLines(lines: seq<Text>, u: Dict) returns (newLines: seq<Text>, seen: set<Text>, changed: bool)
    ensures newLines == Rewritten(lines, u.values)
    ensures forall k :: k in seen <==> k in u.values && Mentions(lines, k)
    ensures changed <==> newLines != lines
  {
    hide Strip, MatchKey, EntryLine, StartsExport, Mentions, Rewritten;
    newLines, seen, changed := [], {}, false;
    NothingRewritten(u.values);
    for i := 0 to |lines|
      invariant newLines == Rewritten(lines[..i], u.values)
      invariant forall k :: k in seen <==> k in u.values && Mentions(lines[..i], k)
      invariant changed <==> newLines != lines[..i]
    {
      var raw := lines[i];
      RewrittenNext(lines, i, u.values);
      MentionsNext(lines, i);
      var stripped := Strip(raw);
      var m := MatchKey(stripped);
      if m.None? || m.value !in u.values {
        newLines := newLines + [raw];
      } else {
        var nextLine := EntryLine(StartsExport(stripped), m.value, u.values[m.value]);
        newLines := newLines + [nextLine];
        seen := seen + {m.value};
        changed := changed || nextLine != raw;
      }
    }
    assert lines[..|lines|] == lines;
  }

  lemma NothingRewritten(values: map<Text, Text>)
    ensures Rewritten([], values) == [] && forall k :: !Mentions([], k)
  {
  }

  class Dotenv {
    var text: Option<Text>

    constructor (text: Option<Text>)
      ensures this.text == text
    {
      this.text := text;
    }

    method ParseEnv() returns (out: map<Text, Text>)
      ensures out == Parsed(LinesOf(text))
    {
      hide Strip, FindEquals, Unquote, KeyText;
      out := map[];
      if text.None? {
        return;
      }
      var lines := SplitLines(text.value);
      for i := 0 to |lines|
        invariant out == Parsed(lines[..i])
      {
        assert lines[..i + 1][..i] == lines[..i];
        var line := Strip(lines[i]);
        var n := FindEquals(line);
        if line == [] || line[0] == HASH || n == |line| {
          continue;
        }
        var key, value := KeyText(line[..n]), Unquote(Strip(line[n + 1..]));
        out := out[key := value];
      }
      assert lines[..|lines|] == lines;
    }

    method WriteEnv(u: Dict, dryRun: bool)
      requires ValidDict(u)
      modifies this
      ensures text == if dryRun then old(text) else AfterWrite(old(text), u)
    {
      hide *;
      var lines := LinesOf(text);
      var newLines, seen, changed := RewriteLines(lines, u);
      var missing := ListMissing(u, lines, seen);
      NewLinesAre(lines, u);
      AppendedIs(newLines, missing, u.values);
      ChangedIff(lines, u);
      if missing != [] {
        if newLines != [] && Strip(newLines[|newLines| - 1]) != [] {
          newLines := newLines + [[]];
        }
        newLines := newLines + [MARKER];
        newLines := AddEntries(newLines, missing, u.values);
        changed := true;
      }
      FileTextIs(newLines);
      AfterWriteIs(text, u);
      if !dryRun && (changed || text.None?) {
        text := Some(RStrip(Join(newLines)) + [NL]);
      }
    }
  }
}
