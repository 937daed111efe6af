/** The Python string methods bin/configure-platform.py relies on: strip, splitlines, join. */
module PyText {
  import opened JsonText

  /** str.isspace and the regular expression \s. */
  predicate Space(c: Code) {
    9 <= c <= 13 || 28 <= c <= 32 || c == 0x85 || c == 0xA0 || c == 0x1680 || 0x2000 <= c <= 0x200A
    || c == 0x2028 || c == 0x2029 || c == 0x202F || c == 0x205F || c == 0x3000
  }

  /** Where splitlines ends a line. */
  predicate Break(c: Code) { 10 <= c <= 13 || 28 <= c <= 30 || c == 0x85 || c == 0x2028 || c == 0x2029 }

  const NL: Code := 10
  const CR: Code := 13

  /** The characters of both kinds, one by one, as the documentation of str.splitlines and str.isspace lists them. */
  lemma SpacesAndBreaks(c: Code)
    ensures Break(c) <==> c in {0x0A, 0x0B, 0x0C, 0x0D, 0x1C, 0x1D, 0x1E, 0x85, 0x2028, 0x2029}
    ensures Space(c) <==> c in {0x09, 0x0A, 0x0B, 0x0C, 0x0D, 0x1C, 0x1D, 0x1E, 0x1F, 0x20, 0x85, 0xA0, 0x1680,
                                0x2000, 0x2001, 0x2002, 0x2003, 0x2004, 0x2005, 0x2006, 0x2007, 0x2008, 0x2009, 0x200A,
                                0x2028, 0x2029, 0x202F, 0x205F, 0x3000}
  {
  }

  predicate Blank(t: Text) { forall c <- t :: Space(c) }

  predicate OneLine(t: Text) { forall c <- t :: !Break(c) }

  // ------------------------------------------------------------------ strip

  function LStrip(t: Text): (s: Text)
    ensures |s| <= |t| && s == t[|t| - |s|..]
    ensures s != [] ==> !Space(s[0])
  {
    if t != [] && Space(t[0]) then LStrip(t[1..]) else t
  }

  function RStrip(t: Text): (s: Text)
    ensures |s| <= |t| && s == t[..|s|]
    ensures s != [] ==> !Space(s[|s| - 1])
  {
    if t != [] && Space(t[|t| - 1]) then RStrip(t[..|t| - 1]) else t
  }

  function Strip(t: Text): Text { LStrip(RStrip(t)) }

  lemma BlankParts(blank: Text)
    requires Blank(blank) && blank != []
    ensures Space(blank[0]) && Blank(blank[1..])
    ensures Space(blank[|blank| - 1]) && Blank(blank[..|blank| - 1])
  {
    hide Space;
    assert blank[0] in blank && blank[|blank| - 1] in blank;
    assert forall c <- blank[1..] :: c in blank;
    assert forall c <- blank[..|blank| - 1] :: c in blank;
  }

  lemma DropFirst(a: Text, b: Text)
    requires a != []
    ensures (a + b)[0] == a[0] && (a + b)[1..] == a[1..] + b
  {
  }

  lemma DropLast(a: Text, b: Text)
    requires b != []
    ensures (a + b)[|a + b| - 1] == b[|b| - 1] && (a + b)[..|a + b| - 1] == a + b[..|b| - 1]
  {
  }

  lemma LStripNext(t: Text)
    requires t != [] && Space(t[0])
    ensures LStrip(t) == LStrip(t[1..])
  {
    hide Space;
  }

  lemma RStripNext(t: Text)
    requires t != [] && Space(t[|t| - 1])
    ensures RStrip(t) == RStrip(t[..|t| - 1])
  {
    hide Space;
  }

  lemma {:induction false} RStripBlank(t: Text, blank: Text)
    requires Blank(blank)
    ensures RStrip(t + blank) == RStrip(t)
  {
    hide *;
    if blank == [] {
      assert t + blank == t;
    } else {
      BlankParts(blank);
      DropLast(t, blank);
      RStripNext(t + blank);
      RStripBlank(t, blank[..|blank| - 1]);
    }
  }

  lemma {:induction false} LStripBlank(blank: Text, t: Text)
    requires Blank(blank)
    ensures LStrip(blank + t) == LStrip(t)
  {
    hide *;
    if blank == [] {
      assert blank + t == t;
    } else {
      BlankParts(blank);
      DropFirst(blank, t);
      LStripNext(blank + t);
      LStripBlank(blank[1..], t);
    }
  }

  /** What rstrip takes away is blank. */
  lemma {:induction false} RStripRest(t: Text)
    ensures Blank(t[|RStrip(t)|..])
  {
    if t != [] && Space(t[|t| - 1]) {
      var n := |t| - 1;
      RStripRest(t[..n]);
      assert t[|RStrip(t)|..] == t[..n][|RStrip(t)|..] + [t[n]];
    }
  }

  lemma RStripParts(t: Text)
    ensures t == RStrip(t) + t[|RStrip(t)|..]
    ensures RStrip(t) != [] ==> RStrip(t)[0] == t[0]
  {
    hide RStrip;
    assert t == t[..|RStrip(t)|] + t[|RStrip(t)|..];
  }

  lemma {:induction false} LStripRest(t: Text)
    ensures Blank(t[..|t| - |LStrip(t)|])
  {
    if t != [] && Space(t[0]) {
      var n := |t| - |LStrip(t)|;
      LStripRest(t[1..]);
      assert t[..n] == [t[0]] + t[1..][..n - 1];
    }
  }

  predicate Stripped(t: Text) { t != [] ==> !Space(t[0]) && !Space(t[|t| - 1]) }

  lemma StripStripped(t: Text)
    ensures Stripped(Strip(t))
    ensures Stripped(t) ==> Strip(t) == t && RStrip(t) == t
  {
    hide Space;
    var r := RStrip(t);
    var s := LStrip(r);
    if s != [] {
      assert s[|s| - 1] == r[|r| - 1];
    }
  }

  // ------------------------------------------------------------------ lines

  function BreakAt(t: Text): (n: nat)
    ensures n <= |t| && OneLine(t[..n]) && (n < |t| ==> Break(t[n]))
  {
    if t == [] || Break(t[0]) then 0
    else
      var n := 1 + BreakAt(t[1..]);
      assert t[..n] == [t[0]] + t[1..][..n - 1];
      n
  }

  /** str.splitlines: a final break does not start another line, and CR NL is one break. */
  function SplitLines(t: Text): (ls: seq<Text>)
    ensures forall l <- ls :: OneLine(l)
    decreases |t|
  {
    if t == [] then []
    else
      var n := BreakAt(t);
      if n == |t| then [t]
      else if t[n] == CR && n + 1 < |t| && t[n + 1] == NL then [t[..n]] + SplitLines(t[n + 2..])
      else [t[..n]] + SplitLines(t[n + 1..])
  }

  lemma {:induction false} BreakAtIs(l: Text, rest: Text)
    requires OneLine(l) && (rest == [] || Break(rest[0]))
    ensures BreakAt(l + rest) == |l|
  {
    hide Break;
    if l == [] {
      assert l + rest == rest;
    } else {
      assert l[0] in l && forall c <- l[1..] :: c in l;
      BreakAtIs(l[1..], rest);
      assert (l + rest)[1..] == l[1..] + rest;
    }
  }

  /** A line ends with any single break, or with CR NL as one; a last line needs none. */
  lemma SplitOne(l: Text, b: Code, rest: Text)
    requires OneLine(l) && Break(b)
    ensures SplitLines(l) == if l == [] then [] else [l]
    ensures SplitLines(l + [13, 10] + rest) == [l] + SplitLines(rest)
    ensures b != 13 || rest == [] || rest[0] != 10 ==> SplitLines(l + [b] + rest) == [l] + SplitLines(rest)
  {
    BreakAtIs(l, []);
    assert l + [] == l;
    BreakAtIs(l, [13, 10] + rest);
    var t := l + [13, 10] + rest;
    assert t == l + ([13, 10] + rest) && t[..|l|] == l && t[|l| + 2..] == rest && t[|l|] == 13 && t[|l| + 1] == 10;
    BreakAtIs(l, [b] + rest);
    var u := l + [b] + rest;
    assert u == l + ([b] + rest) && u[..|l|] == l && u[|l| + 1..] == rest && u[|l|] == b;
    assert |l| + 1 < |u| ==> u[|l| + 1] == rest[0];
    hide Break;
  }

  /** "\n".join. */
  function Join(ls: seq<Text>): Text {
    if ls == [] then []
    else if |ls| == 1 then ls[0]
    else Join(ls[..|ls| - 1]) + [NL] + ls[|ls| - 1]
  }

  /** The lines that remain when the joined text is right-stripped. */
  function Trimmed(ls: seq<Text>): seq<Text> {
    if ls == [] then []
    else
      var n := |ls| - 1;
      if RStrip(ls[n]) == [] then Trimmed(ls[..n]) else ls[..n] + [RStrip(ls[n])]
  }

  lemma {:induction false} RStripAppend(t: Text, s: Text)
    requires RStrip(s) != []
    ensures RStrip(t + s) == t + RStrip(s)
  {
    hide Space;
    var n, m := |s| - 1, |t + s| - 1;
    assert (t + s)[m] == s[n];
    if Space(s[n]) {
      RStripAppend(t, s[..n]);
      assert (t + s)[..m] == t + s[..n];
    }
  }

  lemma JoinLast(ls: seq<Text>)
    requires ls != []
    ensures |ls| == 1 ==> Join(ls) == ls[0]
    ensures |ls| > 1 ==> Join(ls) == Join(ls[..|ls| - 1]) + [NL] + ls[|ls| - 1]
  {
  }

  lemma TrimmedLast(ls: seq<Text>)
    requires ls != []
    ensures var front, last := ls[..|ls| - 1], RStrip(ls[|ls| - 1]);
            Trimmed(ls) == if last == [] then Trimmed(front) else front + [last]
  {
    hide RStrip;
  }

  lemma RStripOfRest(front: Text, last: Text)
    requires RStrip(last) == []
    ensures RStrip(front + [NL] + last) == RStrip(front)
  {
    RStripRest(last);
    assert last[0..] == last;
    assert front + [NL] + last == front + ([NL] + last);
    RStripBlank(front, [NL] + last);
  }

  lemma {:induction false} RStripJoin(ls: seq<Text>)
    ensures RStrip(Join(ls)) == Join(Trimmed(ls))
  {
    if ls != [] {
      hide RStrip, Join, Trimmed;
      var front, last := ls[..|ls| - 1], ls[|ls| - 1];
      JoinLast(ls);
      TrimmedLast(ls);
      if |ls| == 1 {
        TrimmedOne(ls, last);
      } else if RStrip(last) == [] {
        RStripJoin(front);
        RStripOfRest(Join(front), last);
      } else {
        RStripAppend(Join(front) + [NL], last);
        JoinLast(front + [RStrip(last)]);
        assert (front + [RStrip(last)])[..|front|] == front;
      }
    }
  }

  lemma TrimmedOne(ls: seq<Text>, l: Text)
    requires ls == [l]
    ensures Join(Trimmed(ls)) == RStrip(l)
  {
    hide RStrip;
    assert ls[..0] == [];
  }

  lemma {:induction false} BreakAfter(l: Text, rest: Text)
    requires OneLine(l)
    ensures BreakAt(l + [NL] + rest) == |l|
  {
    var t := l + [NL] + rest;
    if l != [] {
      assert l[0] in l;
      BreakAfter(l[1..], rest);
      assert t[1..] == l[1..] + [NL] + rest;
    }
  }

  lemma {:induction false} JoinFront(l: Text, ls: seq<Text>)
    requires ls != []
    ensures Join([l] + ls) == l + [NL] + Join(ls)
  {
    hide *;
    var all, front, last := [l] + ls, ls[..|ls| - 1], ls[|ls| - 1];
    JoinLast(all);
    JoinLast(ls);
    assert all[|all| - 1] == last && all[..|all| - 1] == [l] + front;
    if |ls| == 1 {
      assert [l] + front == [l];
      JoinLast([l]);
    } else {
      JoinFront(l, front);
      Regroup(l, Join(front), last);
    }
  }

  lemma Regroup(a: Text, b: Text, c: Text)
    ensures (a + [NL] + b) + [NL] + c == a + [NL] + (b + [NL] + c)
  {
  }

  /** Lines that are written one by one, each with its newline, are the lines that are read. */
  lemma {:induction false} SplitOfJoin(ls: seq<Text>)
    requires ls != [] && forall l <- ls :: OneLine(l)
    ensures SplitLines(Join(ls) + [NL]) == ls
    decreases |ls|
  {
    hide OneLine, Break, BreakAt;
    var l, t := ls[0], Join(ls) + [NL];
    assert l in ls;
    if |ls| == 1 {
      assert t == l + [NL] + [];
      BreakAfter(l, []);
      assert t[|l| + 1..] == [] && t[..|l|] == l;
      assert SplitLines([]) == [];
    } else {
      var rest := Join(ls[1..]) + [NL];
      JoinFront(l, ls[1..]);
      assert ls == [l] + ls[1..];
      assert t == l + [NL] + rest;
      BreakAfter(l, rest);
      assert t[|l| + 1..] == rest && t[..|l|] == l && t[|l|] == NL;
      SplitOfJoin(ls[1..]);
    }
  }

  lemma {:induction false} TrimmedOneLine(ls: seq<Text>)
    requires forall l <- ls :: OneLine(l)
    ensures forall l <- Trimmed(ls) :: OneLine(l)
  {
    if ls != [] {
      var n := |ls| - 1;
      var last := ls[n];
      assert last in ls;
      if RStrip(last) == [] {
        TrimmedOneLine(ls[..n]);
      } else {
        assert forall c <- RStrip(last) :: c in last;
      }
    }
  }
}
