/** Physical lines of a byte string, and how a sequence of readline calls relates to them. */
module Lines {
  type Byte = b: int | 0 <= b < 256
  type Bytes = seq<Byte>

  const NEWLINE: Byte := 10

  /** Offset just after the first newline at or after i, or the end of s. */
  function PieceEnd(s: Bytes, i: nat): (e: nat)
    requires i < |s|
    ensures i < e <= |s|
    ensures forall k :: i <= k < e - 1 ==> s[k] != NEWLINE
    ensures e < |s| ==> s[e - 1] == NEWLINE
    decreases |s| - i
  {
    if s[i] == NEWLINE || i + 1 == |s| then i + 1 else PieceEnd(s, i + 1)
  }

  lemma PieceEndUnique(s: Bytes, i: nat, e: nat)
    requires i < e <= |s|
    requires forall k :: i <= k < e - 1 ==> s[k] != NEWLINE
    requires e < |s| ==> s[e - 1] == NEWLINE
    ensures PieceEnd(s, i) == e
  {
  }

  /** The lines of s, each with its newline; a final piece may lack one. */
  function Pieces(s: Bytes): (r: seq<Bytes>) {
    if s == [] then [] else
      var e := PieceEnd(s, 0);
      [s[..e]] + Pieces(s[e..])
  }

  function Join(ls: seq<Bytes>): Bytes {
    if ls == [] then [] else ls[0] + Join(ls[1..])
  }

  predicate Terminated(s: Bytes) { s != [] && s[|s| - 1] == NEWLINE }

  /** Nonempty, and a newline occurs at the end or nowhere. */
  predicate IsPiece(l: Bytes) {
    l != [] && forall k :: 0 <= k < |l| - 1 ==> l[k] != NEWLINE
  }

  predicate ArePieces(ls: seq<Bytes>) {
    && (forall i :: 0 <= i < |ls| ==> IsPiece(ls[i]))
    && (forall i :: 0 <= i < |ls| - 1 ==> Terminated(ls[i]))
  }

  /** Offset i lies between two lines. */
  predicate Boundary(s: Bytes, i: nat)
    requires i <= |s|
  {
    i == 0 || s[i - 1] == NEWLINE
  }

  lemma PiecesHead(l: Bytes, rest: Bytes)
    requires IsPiece(l) && (Terminated(l) || rest == [])
    ensures Pieces(l + rest) == [l] + Pieces(rest)
  {
    var s := l + rest;
    PieceEndUnique(s, 0, |l|);
    assert s[..|l|] == l && s[|l|..] == rest;
  }

  lemma {:induction false} PiecesAreLines(s: Bytes)
    ensures Join(Pieces(s)) == s
    ensures ArePieces(Pieces(s))
    ensures s != [] ==> Pieces(s) != []
    ensures Terminated(s) ==> Terminated(Pieces(s)[|Pieces(s)| - 1])
  {
    if s != [] {
      var e := PieceEnd(s, 0);
      var l, m := s[..e], s[e..];
      PiecesUnroll(s);
      hide *;
      FirstPiece(s, l, m);
      PiecesAreLines(m);
      JoinCons(l, Pieces(m));
      ConsPieces(l, Pieces(m));
    }
  }

  lemma JoinCons(l: Bytes, ls: seq<Bytes>)
    ensures Join([l] + ls) == l + Join(ls)
  {
    assert ([l] + ls)[1..] == ls;
  }

  lemma FirstPiece(s: Bytes, l: Bytes, m: Bytes)
    requires s != [] && l == s[..PieceEnd(s, 0)] && m == s[PieceEnd(s, 0)..]
    ensures s == l + m && IsPiece(l) && (m == [] || Terminated(l)) && (Terminated(s) ==> m == [] || Terminated(m))
  {
  }

  lemma PiecesUnroll(s: Bytes)
    requires s != []
    ensures PieceEnd(s, 0) <= |s| && Pieces(s) == [s[..PieceEnd(s, 0)]] + Pieces(s[PieceEnd(s, 0)..])
  {
  }

  lemma ConsPieces(l: Bytes, ls: seq<Bytes>)
    requires IsPiece(l) && (ls == [] || Terminated(l)) && ArePieces(ls)
    ensures ArePieces([l] + ls)
  {
  }

  /** Pieces is the only way to cut a text into lines. */
  lemma {:induction false} PiecesUnique(ls: seq<Bytes>)
    requires ArePieces(ls)
    ensures Pieces(Join(ls)) == ls
  {
    if ls != [] {
      assert ArePieces(ls[1..]) by {
        assert forall i :: 0 <= i < |ls[1..]| ==> ls[1..][i] == ls[i + 1];
      }
      PiecesUnique(ls[1..]);
      assert |ls| > 1 ==> Terminated(ls[0]);
      PiecesHead(ls[0], Join(ls[1..]));
    }
  }

  lemma {:induction false} JoinConcat(ls: seq<Bytes>, ms: seq<Bytes>)
    ensures Join(ls + ms) == Join(ls) + Join(ms)
  {
    if ls == [] {
      assert ls + ms == ms;
    } else {
      var rest := ls[1..];
      assert (ls + ms)[0] == ls[0] && (ls + ms)[1..] == rest + ms;
      calc {
        Join(ls + ms);
        ls[0] + Join(rest + ms);
        { JoinConcat(rest, ms); }
        ls[0] + (Join(rest) + Join(ms));
        (ls[0] + Join(rest)) + Join(ms);
      }
    }
  }

  /** Cutting after a newline splits the list of lines, too. */
  lemma PiecesConcat(a: Bytes, b: Bytes)
    requires a == [] || Terminated(a)
    ensures Pieces(a + b) == Pieces(a) + Pieces(b)
  {
    hide *;
    var ls, ms := Pieces(a), Pieces(b);
    PiecesAreLines(a);
    PiecesAreLines(b);
    PiecesOfNothing();
    ArePiecesConcat(ls, ms);
    JoinConcat(ls, ms);
    PiecesUnique(ls + ms);
  }

  lemma PiecesOfNothing()
    ensures Pieces([]) == []
  {
  }

  lemma ArePiecesConcat(ls: seq<Bytes>, ms: seq<Bytes>)
    requires ArePieces(ls) && ArePieces(ms) && (ls == [] || Terminated(ls[|ls| - 1]))
    ensures ArePieces(ls + ms)
  {
    hide IsPiece, Terminated;
  }

  lemma PiecesOfSlice(s: Bytes, i: nat, j: nat)
    requires i < |s| && PieceEnd(s, i) <= j <= |s|
    ensures Pieces(s[i..j]) == [s[i..PieceEnd(s, i)]] + Pieces(s[PieceEnd(s, i)..j])
  {
    var e := PieceEnd(s, i);
    assert s[i..j] == s[i..e] + s[e..j];
    PiecesHead(s[i..e], s[e..j]);
  }

  lemma PiecesJoinAt(s: Bytes, i: nat, j: nat, k: nat)
    requires i <= j <= k <= |s| && Boundary(s, j) && (i == j || j > 0)
    ensures Pieces(s[i..k]) == Pieces(s[i..j]) + Pieces(s[j..k])
  {
    assert s[i..k] == s[i..j] + s[j..k];
    assert i < j ==> s[i..j][j - i - 1] == s[j - 1];
    PiecesConcat(s[i..j], s[j..k]);
  }

  /** Start of the unterminated tail: after the last newline, or 0. */
  function TailStart(s: Bytes): (t: nat)
    ensures t <= |s| && Boundary(s, t)
    ensures forall k :: t <= k < |s| ==> s[k] != NEWLINE
  {
    if s == [] || s[|s| - 1] == NEWLINE then |s|
    else
      var t := TailStart(s[..|s| - 1]);
      assert t > 0 ==> s[t - 1] == s[..|s| - 1][t - 1];
      assert forall k :: t <= k < |s| - 1 ==> s[k] == s[..|s| - 1][k];
      t
  }

  lemma SliceOfPrefix(s: Bytes, t: Bytes, i: nat, j: nat)
    requires |s| <= |t| && t[..|s|] == s && i <= j <= |s|
    ensures t[i..j] == s[i..j]
  {
    forall k | 0 <= k < j - i ensures t[i..j][k] == s[i..j][k] {
      assert t[i + k] == t[..|s|][i + k];
    }
  }
}
