/**
 * bin/log-forwarder.py: what one reading of a file means, where it stops,
 * and what one pass over the directory makes of each file in it.
 */
module TailProtocol {
  import opened Lines
  import opened LogTail
  import opened Options

  // ------------------------------------------------------- one reading

  lemma RecordsCons(c: Config, name: string, l: Bytes, ls: seq<Bytes>)
    ensures Records(c, name, [l] + ls) == RecordOf(c, name, l) + Records(c, name, ls)
  {
    assert ([l] + ls)[1..] == ls;
  }

  lemma ConsReading(c: Config, name: string, s: Bytes, pos: nat, e: nat, end: nat)
    requires pos < |s| && e == PieceEnd(s, pos) && e <= end <= |s|
    ensures Records(c, name, Pieces(s[pos..end]))
         == RecordOf(c, name, s[pos..e]) + Records(c, name, Pieces(s[e..end]))
  {
    hide Records, RecordOf, Pieces;
    PiecesOfSlice(s, pos, end);
    RecordsCons(c, name, s[pos..e], Pieces(s[e..end]));
  }

  lemma EmptyReading(c: Config, name: string, s: Bytes, pos: nat)
    requires pos <= |s|
    ensures Records(c, name, Pieces(s[pos..pos])) == []
  {
    assert s[pos..pos] == [];
  }

  /** A reading is: split what was consumed into lines, and parse each one. */
  lemma {:induction false} ScanIsSplitAndParse(c: Config, name: string, s: Bytes, pos: nat, budget: nat)
    requires pos <= |s|
    ensures var r := Scan(c, name, s, pos, budget);
            r.records == Records(c, name, Pieces(s[pos..r.end]))
    decreases |s| - pos
  {
    hide RecordOf, Unfinished, Records, Pieces, PieceEnd;
    if budget == 0 || pos == |s| || Unfinished(s, pos, c.maxLine) {
      EmptyReading(c, name, s, pos);
    } else {
      var e := PieceEnd(s, pos);
      var here := RecordOf(c, name, s[pos..e]);
      var rest := Scan(c, name, s, e, budget - |here|);
      ScanUnfold(c, name, s, pos, budget);
      ScanIsSplitAndParse(c, name, s, e, budget - |here|);
      ConsReading(c, name, s, pos, e, rest.end);
    }
  }

  /** The bytes after the last newline fit into one line. */
  predicate TailFits(s: Bytes, maxLine: nat) { |s| - TailStart(s) <= maxLine }

  lemma UnterminatedIsTail(s: Bytes, i: nat)
    requires i < |s| && Boundary(s, i) && s[PieceEnd(s, i) - 1] != NEWLINE
    ensures PieceEnd(s, i) == |s| && TailStart(s) == i && !Boundary(s, |s|)
  {
  }

  /** A reading never stops inside a line, unless it swallows an oversized unterminated tail. */
  lemma {:induction false} ScanStopsBetweenLines(c: Config, name: string, s: Bytes, pos: nat, budget: nat)
    requires pos <= |s| && Boundary(s, pos)
    ensures var r := Scan(c, name, s, pos, budget);
            && (TailFits(s, c.maxLine) ==> Boundary(s, r.end))
            && (|r.records| < budget ==> if TailFits(s, c.maxLine) then r.end == TailStart(s) else r.end == |s|)
    decreases |s| - pos
  {
    hide RecordOf, PieceEnd;
    if pos == |s| {
      TailOfTerminated(s);
    } else if budget == 0 {
    } else if Unfinished(s, pos, c.maxLine) {
      UnterminatedIsTail(s, pos);
    } else {
      var e := PieceEnd(s, pos);
      if s[e - 1] != NEWLINE {
        UnterminatedIsTail(s, pos);
        assert !TailFits(s, c.maxLine);
      } else {
        ScanUnfold(c, name, s, pos, budget);
        ScanStopsBetweenLines(c, name, s, e, budget - |RecordOf(c, name, s[pos..e])|);
      }
    }
  }

  lemma TailOfTerminated(s: Bytes)
    requires Boundary(s, |s|)
    ensures TailStart(s) == |s|
  {
  }

  /** Exactly when a reading that was not cut short by MAX_BATCH stops between two lines. */
  lemma StopsBetweenLinesIff(c: Config, name: string, s: Bytes, pos: nat, budget: nat)
    requires pos <= |s| && Boundary(s, pos)
    requires |Scan(c, name, s, pos, budget).records| < budget
    ensures Boundary(s, Scan(c, name, s, pos, budget).end) <==> TailFits(s, c.maxLine)
  {
    ScanStopsBetweenLines(c, name, s, pos, budget);
    if !TailFits(s, c.maxLine) && Boundary(s, |s|) {
      TailOfTerminated(s);
    }
  }

  /** Two readings in a row, the second of a file that has grown, are one reading of it all. */
  lemma ReadingsCompose(c: Config, name: string, s: Bytes, t: Bytes, i: nat, j: nat, k: nat)
    requires i <= j <= |s| <= |t| && j <= k <= |t| && t[..|s|] == s && Boundary(s, j) && Boundary(s, i)
    ensures Records(c, name, Pieces(t[i..k]))
         == Records(c, name, Pieces(s[i..j])) + Records(c, name, Pieces(t[j..k]))
  {
    SliceOfPrefix(s, t, i, j);
    if j > 0 {
      assert t[j - 1] == t[..|s|][j - 1] == s[j - 1];
    }
    PiecesJoinAt(t, i, j, k);
    RecordsConcat(c, name, Pieces(t[i..j]), Pieces(t[j..k]));
  }

  /** An oversized tail is split: one line of t, but two readings each take a part of it. */
  lemma OversizedTailIsSplit(c: Config, name: string, budget: nat)
    requires 2 <= budget
    ensures var s: Bytes := seq(c.maxLine + 1, _ => 97);
            var t: Bytes := s + [98, NEWLINE];
            && Pieces(t) == [t]
            && Scan(c, name, s, 0, budget) == Reading(RecordOf(c, name, s), |s|)
            && Scan(c, name, t, |s|, budget).records == RecordOf(c, name, [98, NEWLINE])
  {
    var s: Bytes := seq(c.maxLine + 1, _ => 97);
    var t: Bytes := s + [98, NEWLINE];
    PieceEndUnique(s, 0, |s|);
    PieceEndUnique(t, 0, |t|);
    PieceEndUnique(t, |s|, |t|);
    assert s[0..|s|] == s && t[..|t|] == t && t[|t|..] == [] && t[|s|..|t|] == [98, NEWLINE];
    ScanUnfold(c, name, s, 0, budget);
    ScanUnfold(c, name, t, |s|, budget);
  }

  // ------------------------------------------------- one pass, one file of it

  predicate DistinctNames(dir: seq<LogFile>) {
    forall i, j :: 0 <= i < j < |dir| ==> dir[i].name != dir[j].name
  }

  /** What is left of the batch when the pass reaches file j. */
  function BudgetAt(c: Config, dir: seq<LogFile>, st: State, budget: nat, j: nat): (b: nat)
    requires Readable(dir) && j < |dir|
    ensures b <= budget
  {
    if budget == 0 || j == 0 then budget
    else BudgetAt(c, dir[1..], st, budget - |Visit(c, dir[0], st, budget).records|, j - 1)
  }

  function ReadingAt(c: Config, dir: seq<LogFile>, st: State, budget: nat, j: nat): Reading
    requires Readable(dir) && j < |dir|
  {
    Visit(c, dir[j], st, BudgetAt(c, dir, st, budget, j))
  }

  lemma ReadingAtTail(c: Config, dir: seq<LogFile>, st: State, budget: nat, j: nat)
    requires Readable(dir) && 0 < j < |dir| && 0 < budget
    ensures var left := budget - |Visit(c, dir[0], st, budget).records|;
            && BudgetAt(c, dir, st, budget, j) == BudgetAt(c, dir[1..], st, left, j - 1)
            && ReadingAt(c, dir, st, budget, j) == ReadingAt(c, dir[1..], st, left, j - 1)
  {
    assert dir[1..][j - 1] == dir[j];
    assert Readable(dir[1..]);
    hide Visit, Readable;
  }

  predicate Inside(all: seq<Record>, part: seq<Record>) {
    exists i, j | 0 <= i <= j <= |all| :: all[i..j] == part
  }

  lemma InsideMore(a: seq<Record>, b: seq<Record>, part: seq<Record>)
    requires Inside(b, part)
    ensures Inside(a + b, part)
  {
    var i, j :| 0 <= i <= j <= |b| && b[i..j] == part;
    assert (a + b)[|a| + i..|a| + j] == part;
  }

  predicate SameEntry(a: State, b: State, k: string) {
    (k in a <==> k in b) && (k in a ==> a[k] == b[k])
  }

  /** The pass never touches the entry of a file that is not listed. */
  lemma {:induction false} UntouchedByPass(c: Config, dir: seq<LogFile>, st: State, acc: State, budget: nat, k: string)
    requires Readable(dir) && forall i :: 0 <= i < |dir| ==> dir[i].name != k
    ensures SameEntry(ReadDir(c, dir, st, acc, budget).state, acc, k)
  {
    hide Visit;
    if dir != [] && budget > 0 {
      var here := Visit(c, dir[0], st, budget);
      assert dir[0].name != k;
      UntouchedByPass(c, dir[1..], st, Propose(dir[0], acc, here.end), budget - |here.records|, k);
    }
  }

  /** The reading of file j is inside the batch. */
  lemma {:induction false} ReadingInsideBatch(c: Config, dir: seq<LogFile>, st: State, acc: State, budget: nat, j: nat)
    requires Readable(dir) && j < |dir|
    ensures Inside(ReadDir(c, dir, st, acc, budget).records, ReadingAt(c, dir, st, budget, j).records)
    decreases j
  {
    hide Visit;
    var all, part := ReadDir(c, dir, st, acc, budget).records, ReadingAt(c, dir, st, budget, j).records;
    if budget == 0 {
      assert all[0..0] == [];
    } else {
      var here := Visit(c, dir[0], st, budget);
      var acc', left := Propose(dir[0], acc, here.end), budget - |here.records|;
      var rest := ReadDir(c, dir[1..], st, acc', left).records;
      if j == 0 {
        assert (here.records + rest)[0..|here.records|] == here.records;
      } else {
        ReadingAtTail(c, dir, st, budget, j);
        ReadingInsideBatch(c, dir[1..], st, acc', left, j - 1);
        InsideMore(here.records, rest, part);
      }
    }
  }

  lemma ReadDirCons(c: Config, dir: seq<LogFile>, st: State, acc: State, budget: nat)
    requires Readable(dir) && dir != [] && 0 < budget
    ensures var here := Visit(c, dir[0], st, budget);
            ReadDir(c, dir, st, acc, budget).state ==
            ReadDir(c, dir[1..], st, Propose(dir[0], acc, here.end), budget - |here.records|).state
  {
    hide Visit, Propose;
  }

  /** The end of the reading of file j is proposed; a file the pass did not reach keeps its entry. */
  lemma {:induction false} ReadingProposed(c: Config, dir: seq<LogFile>, st: State, acc: State, budget: nat, j: nat)
    requires Readable(dir) && DistinctNames(dir) && j < |dir| && dir[j].eligible
    ensures var f, all := dir[j], ReadDir(c, dir, st, acc, budget);
            if BudgetAt(c, dir, st, budget, j) == 0 then SameEntry(all.state, acc, f.name)
            else f.name in all.state && all.state[f.name] == Saved(f.inode, ReadingAt(c, dir, st, budget, j).end)
    decreases j
  {
    hide Visit, ReadDir;
    if budget == 0 {
      ReadDirStops(c, dir, st, acc, budget);
    } else {
      var f, here := dir[0], Visit(c, dir[0], st, budget);
      ReadDirCons(c, dir, st, acc, budget);
      var acc', left := Propose(f, acc, here.end), budget - |here.records|;
      if j == 0 {
        UntouchedByPass(c, dir[1..], st, acc', left, f.name);
      } else {
        assert dir[j].name != f.name && dir[1..][j - 1] == dir[j];
        ReadingAtTail(c, dir, st, budget, j);
        ReadingProposed(c, dir[1..], st, acc', left, j - 1);
      }
    }
  }

  // ------------------------------------------------ where a reading starts

  /** Nothing is saved of the file, or an entry of another inode, or an offset that the file no longer reaches. */
  predicate StartsOver(f: LogFile, st: State) {
    match if f.name in st then Some(st[f.name]) else None
    case None => true
    case Some(entry) => entry.inode != f.inode || f.size < entry.offset
  }

  /** From an offset on, one readline of at most so many bytes ends at e. */
  predicate IsReadLine(s: Bytes, i: nat, limit: nat, e: nat) {
    && i <= e <= |s| && e <= i + limit
    && (forall k :: i <= k < e - 1 ==> s[k] != NEWLINE)
    && (e == |s| || e == i + limit || (i < e && s[e - 1] == NEWLINE))
  }

  /**
   * A file that starts over is read from byte 0 if it is within the bootstrap limit, and else from that many bytes
   * before its end, one readline further on; every other file is read from its saved offset.
   */
  lemma StartsAt(c: Config, f: LogFile, st: State)
    requires f.size <= |f.content|
    ensures var start := StartOffset(c, f, st);
            if !StartsOver(f, st) then start == if st[f.name].offset < 0 then 0 else st[f.name].offset
            else if f.size <= c.bootstrap then start == 0
            else IsReadLine(f.content, f.size - c.bootstrap, c.maxLine, start)
  {
  }

  /** The batch holds the reading of file j from some offset on, as whole pieces, and proposes where it ended. */
  predicate ReadFrom(c: Config, dir: seq<LogFile>, st: State, j: nat, from: nat, end: nat)
    requires Readable(dir) && j < |dir|
  {
    var f, b := dir[j], Batch(c, dir, st);
    && from <= end <= |f.content| && Inside(b.records, Records(c, f.name, Pieces(f.content[from..end])))
    && if f.name in b.state && b.state[f.name] == Saved(f.inode, end) then true
       else |b.records| == c.maxBatch && end == from && SameEntry(b.state, st, f.name)
  }

  lemma {:induction false} UnderBudget(c: Config, dir: seq<LogFile>, st: State, acc: State, budget: nat, j: nat)
    requires Readable(dir) && j < |dir|
    requires |ReadDir(c, dir, st, acc, budget).records| < budget
    ensures |ReadingAt(c, dir, st, budget, j).records| < BudgetAt(c, dir, st, budget, j)
    decreases j
  {
    hide Visit;
    if j > 0 {
      var here := Visit(c, dir[0], st, budget);
      ReadingAtTail(c, dir, st, budget, j);
      UnderBudget(c, dir[1..], st, Propose(dir[0], acc, here.end), budget - |here.records|, j - 1);
    }
  }

  lemma ReadSomewhere(c: Config, dir: seq<LogFile>, st: State, j: nat) returns (end: nat)
    requires Readable(dir) && DistinctNames(dir) && j < |dir| && dir[j].eligible
    ensures ReadFrom(c, dir, st, j, StartOffset(c, dir[j], st), end)
  {
    var f, b := dir[j], BudgetAt(c, dir, st, c.maxBatch, j);
    var from := StartOffset(c, f, st);
    end := ReadingAt(c, dir, st, c.maxBatch, j).end;
    ReadingInsideBatch(c, dir, st, st, c.maxBatch, j);
    ReadingProposed(c, dir, st, st, c.maxBatch, j);
    ScanIsSplitAndParse(c, f.name, f.content, from, b);
    if |Batch(c, dir, st).records| < c.maxBatch {
      UnderBudget(c, dir, st, st, c.maxBatch, j);
    }
    hide ReadDir, StartOffset, Records, Pieces, Inside, BudgetAt, RecordOf, PieceEnd, Unfinished;
  }

  /**
   * Rotation: a file whose saved entry is missing, of another inode or beyond its end is read from its first byte
   * when it is within the bootstrap limit, and its new inode is proposed; one that was only appended to is read
   * from its saved offset.
   */
  lemma RotatedFileStartsAtZero(c: Config, dir: seq<LogFile>, st: State, j: nat) returns (end: nat)
    requires Readable(dir) && DistinctNames(dir) && j < |dir| && dir[j].eligible
    ensures var f := dir[j];
            && (f.name !in st || st[f.name].inode != f.inode || st[f.name].offset > f.size ==>
                  f.size <= c.bootstrap ==> ReadFrom(c, dir, st, j, 0, end))
            && (f.name in st && st[f.name].inode == f.inode && 0 <= st[f.name].offset <= f.size ==>
                  ReadFrom(c, dir, st, j, st[f.name].offset, end))
  {
    StartsAt(c, dir[j], st);
    end := ReadSomewhere(c, dir, st, j);
    hide ReadFrom, StartOffset;
  }

  /** A file that starts over is read from its first byte exactly when it is no longer than the bootstrap limit. */
  lemma ResetReadsAllIff(c: Config, f: LogFile, st: State)
    requires c.Valid() && f.size <= |f.content| && StartsOver(f, st)
    ensures StartOffset(c, f, st) == 0 <==> f.size <= c.bootstrap
  {
    StartsAt(c, f, st);
  }
}
