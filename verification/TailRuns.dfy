/**
 * bin/log-forwarder.py: whole runs of read, post and save, seen from one
 * append-only file k that keeps its inode, while every other file may
 * appear, grow, rotate or vanish between polls.
 */
module TailRuns {
  import opened Lines
  import opened LogTail
  import opened Options
  import opened TailProtocol

  /** How one turn of the loop in run ends. */
  datatype Outcome =
    | Rejected       // post_batch raised, the server kept nothing
    | ReplyLost      // post_batch raised, but the server kept the batch
    | Done           // posted (if there was anything to post) and saved
    | SaveFailed     // posted, then save_state raised OSError
    | CrashBefore    // the process died before the post
    | CrashAfter     // the process died between post and save

  datatype Poll = Poll(dir: seq<LogFile>, at: nat, outcome: Outcome)

  /** One batch that reached the server, or that had nothing to send: its part about k runs from `from` to `to`. */
  datatype Delivery = Delivery(records: seq<Record>, part: seq<Record>, from: nat, to: nat,
                               acked: bool, persisted: nat)

  /** The saved file, the state in memory, what was delivered, and the bytes of k seen so far. */
  datatype World = World(disk: State, mem: State, sent: seq<Delivery>, seen: Bytes)

  /** Where the file stands: at its saved offset, or at 0 when nothing is saved, or the entry of a rotated file. */
  function Position(st: State, k: string, inode: int): (o: nat) {
    if k in st && st[k].inode == inode && st[k].offset > 0 then st[k].offset else 0
  }

  /** What this poll can rely on: k is listed, same inode, only appended to, tail and bootstrap within bounds. */
  predicate Appends(c: Config, k: string, inode: int, w: World, p: Poll) {
    && Readable(p.dir) && DistinctNames(p.dir) && p.at < |p.dir|
    && var f := p.dir[p.at];
    && f.name == k && f.eligible && f.inode == inode
    && |w.seen| <= f.size && f.content[..|w.seen|] == w.seen
    && TailFits(f.content, c.maxLine)
    && (k !in w.mem || w.mem[k].inode != inode ==> f.size <= c.bootstrap)
  }

  function PartOf(c: Config, w: World, p: Poll): Reading
    requires Readable(p.dir) && p.at < |p.dir|
  {
    ReadingAt(c, p.dir, w.mem, c.maxBatch, p.at)
  }

  /** One turn of the loop in run. */
  function Step(c: Config, k: string, w: World, p: Poll): World
    requires Readable(p.dir) && p.at < |p.dir|
  {
    var b := Batch(c, p.dir, w.mem);
    var seen := p.dir[p.at].content;
    var d := NewDelivery(c, k, w, p);
    if b.records != [] then
      match p.outcome
      case Rejected => w.(seen := seen)
      case ReplyLost => w.(sent := w.sent + [d], seen := seen)
      case Done => World(b.state, b.state, w.sent + [d], seen)
      case SaveFailed => World(w.disk, b.state, w.sent + [d], seen)
      case CrashBefore => w.(mem := w.disk, seen := seen)
      case CrashAfter => World(w.disk, w.disk, w.sent + [d], seen)
    else if p.outcome == CrashBefore || p.outcome == CrashAfter then w.(mem := w.disk, seen := seen)
    else if b.state == w.mem then w.(seen := seen)
    else if p.outcome == SaveFailed then w.(mem := w.disk, seen := seen)  // not caught: the process ends
    else World(b.state, b.state, w.sent + [d], seen)
  }

  // ------------------------------------------------------------- invariant

  predicate StateOk(k: string, inode: int, base: nat, seen: Bytes, st: State) {
    if k in st && st[k].inode == inode then base <= st[k].offset <= |seen| && Boundary(seen, st[k].offset)
    else base == 0
  }

  predicate DeliveryOk(c: Config, k: string, base: nat, seen: Bytes, d: Delivery) {
    && base <= d.from <= d.to <= |seen| && Boundary(seen, d.from) && Boundary(seen, d.to)
    && d.part == Records(c, k, Pieces(seen[d.from..d.to])) && Inside(d.records, d.part)
    && d.persisted <= d.from
  }

  predicate Covers(d: Delivery, a: nat) { d.acked && d.from <= a < d.to }

  predicate SentAt(sent: seq<Delivery>, a: nat) {
    exists i :: 0 <= i < |sent| && Covers(sent[i], a)
  }

  /** Every byte from base up to the limit was part of an acknowledged batch. */
  predicate Covered(base: nat, limit: nat, sent: seq<Delivery>) {
    forall a: nat :: base <= a < limit ==> SentAt(sent, a)
  }

  predicate Inv(c: Config, k: string, inode: int, base: nat, w: World) {
    && base <= |w.seen| && Boundary(w.seen, base)
    && StateOk(k, inode, base, w.seen, w.disk) && StateOk(k, inode, base, w.seen, w.mem)
    && base <= Position(w.disk, k, inode) <= Position(w.mem, k, inode)
    && Covered(base, Position(w.mem, k, inode), w.sent)
    && (forall i :: 0 <= i < |w.sent| ==> DeliveryOk(c, k, base, w.seen, w.sent[i]))
  }

  lemma BoundaryGrows(s: Bytes, t: Bytes, i: nat)
    requires i <= |s| <= |t| && t[..|s|] == s && Boundary(s, i)
    ensures Boundary(t, i)
  {
    if i > 0 {
      assert t[i - 1] == t[..|s|][i - 1];
    }
  }

  lemma DeliveryOkGrows(c: Config, k: string, base: nat, s: Bytes, t: Bytes, d: Delivery)
    requires |s| <= |t| && t[..|s|] == s && DeliveryOk(c, k, base, s, d)
    ensures DeliveryOk(c, k, base, t, d)
  {
    hide Records, Inside;
    BoundaryGrows(s, t, d.from);
    BoundaryGrows(s, t, d.to);
    SliceOfPrefix(s, t, d.from, d.to);
  }

  lemma StateOkGrows(k: string, inode: int, base: nat, s: Bytes, t: Bytes, st: State)
    requires |s| <= |t| && t[..|s|] == s && StateOk(k, inode, base, s, st)
    ensures StateOk(k, inode, base, t, st)
  {
    if k in st && st[k].inode == inode {
      BoundaryGrows(s, t, st[k].offset);
    }
  }

  /** The part of one poll that concerns k: where it starts, where it ends, and what it is. */
  lemma PollReads(c: Config, k: string, inode: int, base: nat, w: World, p: Poll)
    requires Inv(c, k, inode, base, w) && Appends(c, k, inode, w, p)
    ensures var t, b, part := p.dir[p.at].content, Batch(c, p.dir, w.mem), PartOf(c, w, p);
            var from, to := Position(w.mem, k, inode), Position(b.state, k, inode);
            && from <= to <= |t| && Boundary(t, from) && Boundary(t, to)
            && part.records == Records(c, k, Pieces(t[from..to]))
            && Inside(b.records, part.records)
            && StateOk(k, inode, base, t, b.state)
  {
    var f := p.dir[p.at];
    var t, from := f.content, Position(w.mem, k, inode);
    StateOkGrows(k, inode, base, w.seen, t, w.mem);
    assert StartOffset(c, f, w.mem) == from && from <= |t| && Boundary(t, from);
    var budget := BudgetAt(c, p.dir, w.mem, c.maxBatch, p.at);
    var part := Scan(c, k, t, from, budget);
    assert PartOf(c, w, p) == part;
    ScanIsSplitAndParse(c, k, t, from, budget);
    ScanStopsBetweenLines(c, k, t, from, budget);
    ReadingInsideBatch(c, p.dir, w.mem, w.mem, c.maxBatch, p.at);
    ReadingProposed(c, p.dir, w.mem, w.mem, c.maxBatch, p.at);
    if budget == 0 {
      assert part.end == from && t[from..from] == [];
    }
  }

  /** Sending one more acknowledged stretch that starts where the cover ends extends the cover. */
  lemma CoverExtends(base: nat, sent: seq<Delivery>, d: Delivery)
    requires Covered(base, d.from, sent)
    ensures Covered(base, d.from, sent + [d])
    ensures d.acked ==> Covered(base, d.to, sent + [d])
  {
    forall a: nat | base <= a < d.to && (a < d.from || d.acked)
      ensures SentAt(sent + [d], a)
    {
      if a < d.from {
        assert SentAt(sent, a);
        var i :| 0 <= i < |sent| && Covers(sent[i], a);
        assert Covers((sent + [d])[i], a);
      } else {
        assert Covers((sent + [d])[|sent|], a);
      }
    }
    forall a: nat | base <= a < d.from ensures SentAt(sent + [d], a) {
      assert SentAt(sent, a);
      var i :| 0 <= i < |sent| && Covers(sent[i], a);
      assert Covers((sent + [d])[i], a);
    }
  }

  function NewDelivery(c: Config, k: string, w: World, p: Poll): Delivery
    requires Readable(p.dir) && p.at < |p.dir|
  {
    var inode := p.dir[p.at].inode;
    Delivery(Batch(c, p.dir, w.mem).records, PartOf(c, w, p).records,
             Position(w.mem, k, inode), Position(Batch(c, p.dir, w.mem).state, k, inode),
             Batch(c, p.dir, w.mem).records == [] || p.outcome != ReplyLost, Position(w.disk, k, inode))
  }

  lemma NewDeliveryOk(c: Config, k: string, inode: int, base: nat, w: World, p: Poll)
    requires Inv(c, k, inode, base, w) && Appends(c, k, inode, w, p)
    ensures DeliveryOk(c, k, base, p.dir[p.at].content, NewDelivery(c, k, w, p))
    ensures StateOk(k, inode, base, p.dir[p.at].content, Batch(c, p.dir, w.mem).state)
  {
    PollReads(c, k, inode, base, w, p);
  }

  /** What any turn leaves behind, whatever its outcome: the two states and the deliveries are old or new. */
  predicate Turn(w: World, next: State, d: Delivery, w': World) {
    && (w'.sent == w.sent || w'.sent == w.sent + [d])
    && (w'.mem == w.mem || w'.mem == w.disk || (w'.mem == next && w'.sent == w.sent + [d] && d.acked))
    && (w'.disk == w.disk || (w'.disk == next && w'.mem == next && w'.sent == w.sent + [d] && d.acked))
  }

  lemma StepIsTurn(c: Config, k: string, w: World, p: Poll)
    requires Readable(p.dir) && p.at < |p.dir|
    ensures Turn(w, Batch(c, p.dir, w.mem).state, NewDelivery(c, k, w, p), Step(c, k, w, p))
    ensures Step(c, k, w, p).seen == p.dir[p.at].content
  {
    hide Batch, PartOf, Position;
  }

  lemma TurnKeepsInv(c: Config, k: string, inode: int, base: nat, w: World, t: Bytes, next: State, d: Delivery,
                     w': World)
    requires Inv(c, k, inode, base, w) && |w.seen| <= |t| && t[..|w.seen|] == w.seen && w'.seen == t
    requires StateOk(k, inode, base, t, next) && DeliveryOk(c, k, base, t, d)
    requires d.from == Position(w.mem, k, inode) && d.to == Position(next, k, inode)
    requires Turn(w, next, d, w')
    ensures Inv(c, k, inode, base, w')
    ensures Position(w.disk, k, inode) <= Position(w'.disk, k, inode) && w.sent <= w'.sent
  {
    BoundaryGrows(w.seen, t, base);
    StateOkGrows(k, inode, base, w.seen, t, w.disk);
    StateOkGrows(k, inode, base, w.seen, t, w.mem);
    hide Records, Inside, Boundary;
    forall i | 0 <= i < |w.sent| ensures DeliveryOk(c, k, base, t, w.sent[i]) {
      DeliveryOkGrows(c, k, base, w.seen, t, w.sent[i]);
    }
    CoverExtends(base, w.sent, d);
  }

  /** Every turn of the loop keeps the invariant, and never moves the saved offset back. */
  lemma StepKeepsInv(c: Config, k: string, inode: int, base: nat, w: World, p: Poll)
    requires Inv(c, k, inode, base, w) && Appends(c, k, inode, w, p)
    ensures Inv(c, k, inode, base, Step(c, k, w, p))
    ensures Position(w.disk, k, inode) <= Position(Step(c, k, w, p).disk, k, inode)
    ensures w.sent <= Step(c, k, w, p).sent
  {
    var d, next, w' := NewDelivery(c, k, w, p), Batch(c, p.dir, w.mem).state, Step(c, k, w, p);
    NewDeliveryOk(c, k, inode, base, w, p);
    StepIsTurn(c, k, w, p);
    assert d.from == Position(w.mem, k, inode) && d.to == Position(next, k, inode);
    hide *;
    TurnKeepsInv(c, k, inode, base, w, p.dir[p.at].content, next, d, w');
  }

  function Run(c: Config, k: string, w: World, ps: seq<Poll>): World
    requires forall i :: 0 <= i < |ps| ==> Readable(ps[i].dir) && ps[i].at < |ps[i].dir|
    decreases |ps|
  {
    if ps == [] then w else Run(c, k, Step(c, k, w, ps[0]), ps[1..])
  }

  /** Along the whole run, k is only appended to. */
  predicate AppendOnly(c: Config, k: string, inode: int, w: World, ps: seq<Poll>)
    decreases |ps|
  {
    && (forall i :: 0 <= i < |ps| ==> Readable(ps[i].dir) && ps[i].at < |ps[i].dir|)
    && (ps != [] ==> Appends(c, k, inode, w, ps[0]) && AppendOnly(c, k, inode, Step(c, k, w, ps[0]), ps[1..]))
  }

  lemma {:induction false} RunKeepsInv(c: Config, k: string, inode: int, base: nat, w: World, ps: seq<Poll>)
    requires Inv(c, k, inode, base, w) && AppendOnly(c, k, inode, w, ps)
    ensures Inv(c, k, inode, base, Run(c, k, w, ps))
    ensures Position(w.disk, k, inode) <= Position(Run(c, k, w, ps).disk, k, inode)
    ensures w.sent <= Run(c, k, w, ps).sent
    decreases |ps|
  {
    hide Inv, Step, Appends;
    if ps != [] {
      StepKeepsInv(c, k, inode, base, w, ps[0]);
      RunKeepsInv(c, k, inode, base, Step(c, k, w, ps[0]), ps[1..]);
    }
  }

  /** A start: the saved offset (or 0, when nothing is saved) lies between two lines, and nothing was sent. */
  predicate Start(k: string, inode: int, base: nat, w: World) {
    && w.disk == w.mem && w.sent == [] && base <= |w.seen| && Boundary(w.seen, base)
    && StateOk(k, inode, base, w.seen, w.mem) && base == Position(w.mem, k, inode)
  }

  /** A whole line inside a delivered stretch is one of the lines whose records were sent. */
  lemma LineInStretch(c: Config, k: string, s: Bytes, from: nat, to: nat, a: nat, r: Record)
    requires from <= a < to <= |s| && Boundary(s, a) && Boundary(s, to)
    requires r in RecordOf(c, k, s[a..PieceEnd(s, a)])
    ensures r in Records(c, k, Pieces(s[from..to]))
  {
    var e := PieceEnd(s, a);
    assert e <= to;
    PiecesJoinAt(s, from, a, to);
    PiecesOfSlice(s, a, to);
    var before, line, after := Pieces(s[from..a]), s[a..e], Pieces(s[e..to]);
    RecordsConcat(c, k, before, [line] + after);
    RecordsCons(c, k, line, after);
  }

  /**
   * At least once: over every run, with rejected posts, lost replies, failed
   * saves and crashes anywhere, each line below the saved offset either has
   * no record or has its record in an acknowledged batch.
   */
  lemma AtLeastOnce(c: Config, k: string, inode: int, base: nat, w: World, ps: seq<Poll>, a: nat, r: Record)
    requires Start(k, inode, base, w) && AppendOnly(c, k, inode, w, ps)
    requires var z := Run(c, k, w, ps);
             && base <= a < Position(z.disk, k, inode) && a < |z.seen| && Boundary(z.seen, a)
             && r in RecordOf(c, k, z.seen[a..PieceEnd(z.seen, a)])
    ensures exists d <- Run(c, k, w, ps).sent :: d.acked && r in d.records
  {
    var z := Run(c, k, w, ps);
    RunKeepsInv(c, k, inode, base, w, ps);
    assert Inv(c, k, inode, base, z) && SentAt(z.sent, a);
    var i :| 0 <= i < |z.sent| && Covers(z.sent[i], a);
    var d := z.sent[i];
    assert DeliveryOk(c, k, base, z.seen, d);
    hide Run, AppendOnly, Records, Start;
    LineInStretch(c, k, z.seen, d.from, d.to, a, r);
    InsideHas(d.records, d.part, r);
    assert d in z.sent;
  }

  lemma InsideHas(all: seq<Record>, part: seq<Record>, r: Record)
    requires Inside(all, part) && r in part
    ensures r in all
  {
    var x, y :| 0 <= x <= y <= |all| && all[x..y] == part;
    assert r in all[x..y];
  }

  /** What has been saved is never sent again: every later batch starts at or above the saved offset. */
  lemma {:induction false} SavedIsNeverSentAgain(c: Config, k: string, inode: int, base: nat, w: World, ps: seq<Poll>)
    requires Inv(c, k, inode, base, w) && AppendOnly(c, k, inode, w, ps)
    ensures forall i :: |w.sent| <= i < |Run(c, k, w, ps).sent| ==>
              Position(w.disk, k, inode) <= Run(c, k, w, ps).sent[i].from
    decreases |ps|
  {
    if ps != [] {
      var w', d := Step(c, k, w, ps[0]), NewDelivery(c, k, w, ps[0]);
      StepKeepsInv(c, k, inode, base, w, ps[0]);
      StepIsTurn(c, k, w, ps[0]);
      SavedIsNeverSentAgain(c, k, inode, base, w', ps[1..]);
      RunKeepsInv(c, k, inode, base, w', ps[1..]);
      assert Position(w.disk, k, inode) <= d.from by { hide Step, Run, Batch; }
      var z := Run(c, k, w', ps[1..]);
      assert Run(c, k, w, ps) == z && w'.sent <= z.sent;
      hide *;
    }
  }

  /** The records of k that reached the server, in order of arrival. */
  function Parts(sent: seq<Delivery>): seq<Record> {
    if sent == [] then [] else Parts(sent[..|sent| - 1]) + sent[|sent| - 1].part
  }

  /** Memory and disk agree, and what was sent is the whole text up to the saved offset, line by line. */
  predicate InStep(c: Config, k: string, inode: int, base: nat, w: World)
    requires base <= Position(w.disk, k, inode) <= |w.seen|
  {
    w.mem == w.disk && Parts(w.sent) == Records(c, k, Pieces(w.seen[base..Position(w.disk, k, inode)]))
  }

  /** No lost reply, no failed save, no crash between post and save. */
  predicate Quiet(p: Poll) { p.outcome == Rejected || p.outcome == CrashBefore || p.outcome == Done }

  lemma QuietTurn(c: Config, k: string, w: World, p: Poll)
    requires Readable(p.dir) && p.at < |p.dir| && Quiet(p) && w.mem == w.disk
    ensures var w', next := Step(c, k, w, p), Batch(c, p.dir, w.mem).state;
            || (w'.mem == w'.disk == w.mem && w'.sent == w.sent)
            || (w'.mem == w'.disk == next && w'.sent == w.sent + [NewDelivery(c, k, w, p)])
  {
    hide Batch, PartOf, Position, NewDelivery;
  }

  lemma PartsGrow(c: Config, k: string, s: Bytes, t: Bytes, base: nat, at: nat, sent: seq<Delivery>, d: Delivery)
    requires base <= at <= |s| <= |t| && t[..|s|] == s && Boundary(s, base) && Boundary(s, at)
    requires at == d.from <= d.to <= |t|
    requires Parts(sent) == Records(c, k, Pieces(s[base..at])) && d.part == Records(c, k, Pieces(t[at..d.to]))
    ensures Parts(sent + [d]) == Records(c, k, Pieces(t[base..d.to]))
  {
    hide Records, Pieces, Boundary;
    assert (sent + [d])[..|sent|] == sent;
    ReadingsCompose(c, k, s, t, base, at, d.to);
  }

  lemma QuietTurnInStep(c: Config, k: string, inode: int, base: nat, w: World, t: Bytes, next: State, d: Delivery,
                        w': World)
    requires Inv(c, k, inode, base, w) && InStep(c, k, inode, base, w) && Inv(c, k, inode, base, w')
    requires |w.seen| <= |t| && t[..|w.seen|] == w.seen && w'.seen == t
    requires DeliveryOk(c, k, base, t, d) && d.from == Position(w.mem, k, inode) && d.to == Position(next, k, inode)
    requires || (w'.mem == w'.disk == w.mem && w'.sent == w.sent)
             || (w'.mem == w'.disk == next && w'.sent == w.sent + [d])
    ensures InStep(c, k, inode, base, w')
  {
    var s, at := w.seen, Position(w.disk, k, inode);
    assert Boundary(s, at) && Boundary(s, base) && at == d.from <= |s| && base <= at && d.from <= d.to <= |t|;
    assert d.part == Records(c, k, Pieces(t[at..d.to]));
    hide Records, Pieces, Inside, DeliveryOk, StateOk, Covered, Inv;
    if w'.sent == w.sent + [d] && w'.disk == next {
      PartsGrow(c, k, s, t, base, at, w.sent, d);
    } else {
      SliceOfPrefix(s, t, base, at);
    }
  }

  lemma QuietStep(c: Config, k: string, inode: int, base: nat, w: World, p: Poll)
    requires Inv(c, k, inode, base, w) && Appends(c, k, inode, w, p) && Quiet(p) && InStep(c, k, inode, base, w)
    ensures Inv(c, k, inode, base, Step(c, k, w, p)) && InStep(c, k, inode, base, Step(c, k, w, p))
  {
    var d, next, w' := NewDelivery(c, k, w, p), Batch(c, p.dir, w.mem).state, Step(c, k, w, p);
    StepKeepsInv(c, k, inode, base, w, p);
    NewDeliveryOk(c, k, inode, base, w, p);
    StepIsTurn(c, k, w, p);
    QuietTurn(c, k, w, p);
    assert d.from == Position(w.mem, k, inode) && d.to == Position(next, k, inode);
    hide *;
    QuietTurnInStep(c, k, inode, base, w, p.dir[p.at].content, next, d, w');
  }

  /**
   * Exactly once: in a run without those three accidents, the records sent
   * are the parsed lines from the first offset to the saved one, in order,
   * none skipped, repeated or split, whatever MAX_BATCH cut in between.
   */
  lemma ExactlyOnce(c: Config, k: string, inode: int, base: nat, w: World, ps: seq<Poll>)
    requires Start(k, inode, base, w) && AppendOnly(c, k, inode, w, ps)
    requires forall i :: 0 <= i < |ps| ==> Quiet(ps[i])
    ensures var z := Run(c, k, w, ps);
            var to := Position(z.disk, k, inode);
            && base <= to <= |z.seen| && Boundary(z.seen, to)
            && Parts(z.sent) == Records(c, k, Pieces(z.seen[base..to]))
  {
    assert w.seen[base..base] == [];
    QuietRun(c, k, inode, base, w, ps);
  }

  lemma {:induction false} QuietRun(c: Config, k: string, inode: int, base: nat, w: World, ps: seq<Poll>)
    requires Inv(c, k, inode, base, w) && InStep(c, k, inode, base, w) && AppendOnly(c, k, inode, w, ps)
    requires forall i :: 0 <= i < |ps| ==> Quiet(ps[i])
    ensures Inv(c, k, inode, base, Run(c, k, w, ps)) && InStep(c, k, inode, base, Run(c, k, w, ps))
    decreases |ps|
  {
    if ps != [] {
      hide Inv, InStep, Step, Appends;
      QuietStep(c, k, inode, base, w, ps[0]);
      QuietRun(c, k, inode, base, Step(c, k, w, ps[0]), ps[1..]);
    }
  }

  // ---------------------------------------------------------------- progress

  /** A batch that is not full leaves no complete line unread, in any listed file read from a line start. */
  lemma NotFullMeansDrained(c: Config, dir: seq<LogFile>, st: State, j: nat)
    requires Readable(dir) && DistinctNames(dir) && j < |dir| && dir[j].eligible
    requires |Batch(c, dir, st).records| < c.maxBatch
    requires TailFits(dir[j].content, c.maxLine) && Boundary(dir[j].content, StartOffset(c, dir[j], st))
    ensures var next := Batch(c, dir, st).state;
            dir[j].name in next && next[dir[j].name] == Saved(dir[j].inode, TailStart(dir[j].content))
  {
    var f, b := dir[j], BudgetAt(c, dir, st, c.maxBatch, j);
    UnderBudget(c, dir, st, st, c.maxBatch, j);
    ReadingProposed(c, dir, st, st, c.maxBatch, j);
    ScanStopsBetweenLines(c, f.name, f.content, StartOffset(c, f, st), b);
  }

  // ------------------------------------------- progress over a whole run

  /** No file grows between its stat and its reading. */
  predicate Still(dir: seq<LogFile>) {
    forall i :: 0 <= i < |dir| ==> dir[i].size == |dir[i].content|
  }

  /** The bytes of one file that are left to read. */
  function Left(c: Config, f: LogFile, st: State): nat
    requires f.size <= |f.content|
  {
    if f.eligible then |f.content| - StartOffset(c, f, st) else 0
  }

  function Remaining(c: Config, dir: seq<LogFile>, st: State): nat
    requires Readable(dir)
  {
    if dir == [] then 0 else Left(c, dir[0], st) + Remaining(c, dir[1..], st)
  }

  lemma {:induction false} RemainingLess(c: Config, dir: seq<LogFile>, st: State, next: State, j: nat)
    requires Readable(dir) && forall i :: 0 <= i < |dir| ==> Left(c, dir[i], next) <= Left(c, dir[i], st)
    ensures Remaining(c, dir, next) <= Remaining(c, dir, st)
    ensures j < |dir| && Left(c, dir[j], next) < Left(c, dir[j], st) ==> Remaining(c, dir, next) < Remaining(c, dir, st)
  {
    hide Left;
    if dir != [] {
      var rest := dir[1..];
      assert forall i :: 0 <= i < |rest| ==> rest[i] == dir[i + 1];
      RemainingLess(c, rest, st, next, if j == 0 then |dir| else j - 1);
    }
  }

  lemma {:induction false} RecordsMoveOn(c: Config, name: string, s: Bytes, pos: nat, budget: nat)
    requires pos <= |s| && Scan(c, name, s, pos, budget).records != []
    ensures pos < Scan(c, name, s, pos, budget).end
  {
    hide RecordOf, PieceEnd, Unfinished;
    if budget > 0 && pos < |s| && !Unfinished(s, pos, c.maxLine) {
      ScanUnfold(c, name, s, pos, budget);
    }
  }

  lemma {:induction false} SomeFileRead(c: Config, dir: seq<LogFile>, st: State, acc: State, budget: nat)
    returns (j: nat)
    requires Readable(dir) && ReadDir(c, dir, st, acc, budget).records != []
    ensures j < |dir| && ReadingAt(c, dir, st, budget, j).records != []
  {
    hide Visit;
    var here := Visit(c, dir[0], st, budget);
    if here.records != [] {
      j := 0;
    } else {
      j := SomeFileRead(c, dir[1..], st, Propose(dir[0], acc, here.end), budget);
      j := j + 1;
      ReadingAtTail(c, dir, st, budget, j);
    }
  }

  lemma StartsAtSaved(c: Config, f: LogFile, st: State)
    requires f.size == |f.content| && f.name in st && st[f.name].inode == f.inode
    requires 0 <= st[f.name].offset <= |f.content|
    ensures StartOffset(c, f, st) == st[f.name].offset
  {
  }

  lemma SameStart(c: Config, f: LogFile, st: State, next: State)
    requires f.size <= |f.content| && SameEntry(next, st, f.name)
    ensures StartOffset(c, f, next) == StartOffset(c, f, st)
  {
    hide ReadEnd;
  }

  /** A pass leaves no more to read of a file than before, and less if it read a record there. */
  lemma LeftShrinks(c: Config, dir: seq<LogFile>, st: State, j: nat)
    requires Readable(dir) && Still(dir) && DistinctNames(dir) && j < |dir|
    ensures var next, f := Batch(c, dir, st).state, dir[j];
            && Left(c, f, next) <= Left(c, f, st)
            && (ReadingAt(c, dir, st, c.maxBatch, j).records != [] ==> Left(c, f, next) < Left(c, f, st))
  {
    hide Scan, StartOffset, ReadDir;
    var f, next, budget := dir[j], Batch(c, dir, st).state, BudgetAt(c, dir, st, c.maxBatch, j);
    if f.eligible {
      ReadingProposed(c, dir, st, st, c.maxBatch, j);
      var from := StartOffset(c, f, st);
      if budget == 0 {
        SameStart(c, f, st, next);
      } else {
        StartsAtSaved(c, f, next);
      }
      if Scan(c, f.name, f.content, from, budget).records != [] {
        RecordsMoveOn(c, f.name, f.content, from, budget);
      }
    }
  }

  /** A pass that reads a record leaves less to read. */
  lemma BatchShrinks(c: Config, dir: seq<LogFile>, st: State)
    requires Readable(dir) && Still(dir) && DistinctNames(dir) && Batch(c, dir, st).records != []
    ensures Remaining(c, dir, Batch(c, dir, st).state) < Remaining(c, dir, st)
  {
    var j := SomeFileRead(c, dir, st, st, c.maxBatch);
    hide Left, Batch, ReadingAt;
    forall i | 0 <= i < |dir| ensures Left(c, dir[i], Batch(c, dir, st).state) <= Left(c, dir[i], st) {
      LeftShrinks(c, dir, st, i);
    }
    LeftShrinks(c, dir, st, j);
    RemainingLess(c, dir, st, Batch(c, dir, st).state, j);
  }

  function Repeat(p: Poll, n: nat): (ps: seq<Poll>)
    ensures |ps| == n && forall i :: 0 <= i < n ==> ps[i] == p
  {
    seq(n, _ => p)
  }

  lemma RepeatMore(p: Poll, n: nat)
    requires n > 0
    ensures Repeat(p, n)[0] == p && Repeat(p, n)[1..] == Repeat(p, n - 1)
  {
  }

  /** A Done turn ends with the state that the pass proposed. */
  lemma DoneMem(c: Config, k: string, w: World, p: Poll)
    requires Readable(p.dir) && p.at < |p.dir| && p.outcome == Done
    ensures Step(c, k, w, p).mem == Batch(c, p.dir, w.mem).state
  {
    hide Batch, PartOf, Position, NewDelivery;
  }

  lemma EntryStays(c: Config, k: string, dir: seq<LogFile>, st: State, j: nat)
    requires Readable(dir) && DistinctNames(dir) && j < |dir| && dir[j].eligible && dir[j].name == k
    requires k in st && st[k].inode == dir[j].inode
    ensures k in Batch(c, dir, st).state && Batch(c, dir, st).state[k].inode == dir[j].inode
  {
    ReadingProposed(c, dir, st, st, c.maxBatch, j);
  }

  /** The same poll can come again. */
  lemma AppendsAgain(c: Config, k: string, inode: int, w: World, p: Poll)
    requires Appends(c, k, inode, w, p) && p.outcome == Done && Still(p.dir)
    ensures Appends(c, k, inode, Step(c, k, w, p), p)
  {
    DoneMem(c, k, w, p);
    StepIsTurn(c, k, w, p);
    if k in w.mem && w.mem[k].inode == inode {
      EntryStays(c, k, p.dir, w.mem, p.at);
    }
    var t := p.dir[p.at].content;
    assert t[..|t|] == t;
    hide Step, Batch, TailFits, DistinctNames;
  }

  lemma {:induction false} AppendsForEver(c: Config, k: string, inode: int, w: World, p: Poll, n: nat)
    requires Appends(c, k, inode, w, p) && p.outcome == Done && Still(p.dir)
    ensures AppendOnly(c, k, inode, w, Repeat(p, n))
    decreases n
  {
    hide Step, Repeat;
    if n > 0 {
      RepeatMore(p, n);
      AppendsAgain(c, k, inode, w, p);
      AppendsForEver(c, k, inode, Step(c, k, w, p), p, n - 1);
    }
  }

  lemma {:induction false} SeenStays(c: Config, k: string, inode: int, w: World, p: Poll, n: nat)
    requires Appends(c, k, inode, w, p) && p.outcome == Done && Still(p.dir) && n > 0
    requires AppendOnly(c, k, inode, w, Repeat(p, n))
    ensures Run(c, k, w, Repeat(p, n)).seen == p.dir[p.at].content
    decreases n
  {
    hide Step, Repeat;
    RepeatMore(p, n);
    StepIsTurn(c, k, w, p);
    if n > 1 {
      AppendsAgain(c, k, inode, w, p);
      SeenStays(c, k, inode, Step(c, k, w, p), p, n - 1);
    }
  }

  /** After a Done turn whose batch is not full, k is saved up to its tail. */
  lemma NotFullSaves(c: Config, k: string, inode: int, base: nat, w: World, p: Poll)
    requires Inv(c, k, inode, base, w) && InStep(c, k, inode, base, w) && Appends(c, k, inode, w, p)
    requires p.outcome == Done
    requires |Batch(c, p.dir, w.mem).records| < c.maxBatch
    ensures Position(Step(c, k, w, p).disk, k, inode) == TailStart(p.dir[p.at].content)
  {
    QuietStep(c, k, inode, base, w, p);
    DoneMem(c, k, w, p);
    StartsBetweenLines(c, k, inode, base, w, p);
    NotFullMeansDrained(c, p.dir, w.mem, p.at);
    hide Step, Batch, StartOffset, TailStart, Inv;
  }

  lemma StartsBetweenLines(c: Config, k: string, inode: int, base: nat, w: World, p: Poll)
    requires Inv(c, k, inode, base, w) && Appends(c, k, inode, w, p)
    ensures Boundary(p.dir[p.at].content, StartOffset(c, p.dir[p.at], w.mem))
  {
    StateOkGrows(k, inode, base, w.seen, p.dir[p.at].content, w.mem);
  }

  lemma SavedBelowTail(c: Config, k: string, inode: int, base: nat, w: World)
    requires Inv(c, k, inode, base, w)
    ensures Position(w.disk, k, inode) <= TailStart(w.seen)
  {
  }

  lemma {:induction false} DrainedRun(c: Config, k: string, inode: int, base: nat, w: World, p: Poll, n: nat)
    requires c.Valid() && Inv(c, k, inode, base, w) && InStep(c, k, inode, base, w) && Appends(c, k, inode, w, p)
    requires p.outcome == Done && Still(p.dir) && n > Remaining(c, p.dir, w.mem)
    requires AppendOnly(c, k, inode, w, Repeat(p, n))
    ensures Position(Run(c, k, w, Repeat(p, n)).disk, k, inode) == TailStart(p.dir[p.at].content)
    decreases n
  {
    hide Inv, InStep, Step, Repeat, Batch, Remaining, TailStart, Position, TailFits;
    var w' := Step(c, k, w, p);
    RepeatMore(p, n);
    QuietStep(c, k, inode, base, w, p);
    DoneMem(c, k, w, p);
    AppendsAgain(c, k, inode, w, p);
    if |Batch(c, p.dir, w.mem).records| < c.maxBatch {
      NotFullSaves(c, k, inode, base, w, p);
      RunKeepsInv(c, k, inode, base, w', Repeat(p, n - 1));
      SeenStays(c, k, inode, w, p, n);
      SavedBelowTail(c, k, inode, base, Run(c, k, w, Repeat(p, n)));
    } else {
      BatchShrinks(c, p.dir, w.mem);
      DrainedRun(c, k, inode, base, w', p, n - 1);
    }
  }

  /**
   * Progress: over an unchanging directory, after more posted and saved turns than there are bytes
   * left to read, every complete line of k is sent exactly once and its offset is saved.
   */
  lemma EveryLineIsSaved(c: Config, k: string, inode: int, base: nat, w: World, p: Poll, n: nat)
    requires c.Valid() && Start(k, inode, base, w) && Appends(c, k, inode, w, p) && p.outcome == Done
    requires Still(p.dir) && n > Remaining(c, p.dir, w.mem)
    ensures AppendOnly(c, k, inode, w, Repeat(p, n))
    ensures var z, t := Run(c, k, w, Repeat(p, n)), p.dir[p.at].content;
            && z.seen == t && base <= TailStart(t) == Position(z.disk, k, inode)
            && Parts(z.sent) == Records(c, k, Pieces(t[base..TailStart(t)]))
  {
    AppendsForEver(c, k, inode, w, p, n);
    assert w.seen[base..base] == [];
    assert Inv(c, k, inode, base, w) && InStep(c, k, inode, base, w);
    hide *;
    ExactlyOnce(c, k, inode, base, w, Repeat(p, n));
    DrainedRun(c, k, inode, base, w, p, n);
    SeenStays(c, k, inode, w, p, n);
  }

  /**
   * A rotated file, or a new one, is a start at byte 0: its run begins there whatever is saved of its predecessor, and
   * over an unchanging directory all its complete lines are sent, exactly once, and saved under the new inode.
   */
  lemma RotatedFileIsRead(c: Config, k: string, st: State, p: Poll, n: nat)
    requires c.Valid() && Readable(p.dir) && DistinctNames(p.dir) && p.at < |p.dir| && p.outcome == Done
    requires var f := p.dir[p.at];
             && f.name == k && f.eligible && TailFits(f.content, c.maxLine) && f.size <= c.bootstrap
             && (k !in st || st[k].inode != f.inode)
    requires Still(p.dir) && n > Remaining(c, p.dir, st)
    ensures var f, w := p.dir[p.at], World(st, st, [], []);
            && Start(k, f.inode, 0, w) && AppendOnly(c, k, f.inode, w, Repeat(p, n))
            && var z, to := Run(c, k, w, Repeat(p, n)), TailStart(f.content);
               && (0 < to ==> k in z.disk && z.disk[k] == Saved(f.inode, to))
               && Parts(z.sent) == Records(c, k, Pieces(f.content[..to]))
  {
    var f, w := p.dir[p.at], World(st, st, [], []);
    assert Start(k, f.inode, 0, w) && Appends(c, k, f.inode, w, p);
    EveryLineIsSaved(c, k, f.inode, 0, w, p, n);
    var to := TailStart(f.content);
    assert f.content[0..to] == f.content[..to];
    var z := Run(c, k, w, Repeat(p, n));
    assert Position(z.disk, k, f.inode) == to;
    hide Run, Repeat, Batch, AppendOnly, Parts, Records, Pieces, Remaining;
  }

  /** A run as the lemmas above ask for: a new file of one line is read, posted and saved. */
  lemma FirstLineIsSaved(c: Config, k: string)
    requires c.Valid() && c.bootstrap >= 2 && c.maxBatch >= 2
    ensures var w, p := World(map[], map[], [], []), Poll([LogFile(k, true, 1, 2, [97, 10])], 0, Done);
            && Start(k, 1, 0, w) && AppendOnly(c, k, 1, w, [p])
            && var z := Run(c, k, w, [p]);
               Position(z.disk, k, 1) == 2 && z.seen == [97, 10] && |z.sent| == 1 && z.sent[0].acked
  {
    var s: Bytes := [97, 10];
    var w, p := World(map[], map[], [], []), Poll([LogFile(k, true, 1, 2, s)], 0, Done);
    OneLineScan(c, k, s);
    NotFullMeansDrained(c, p.dir, w.mem, 0);
    hide Batch, PartOf, Step;
    var z := Step(c, k, w, p);
    assert [p][1..] == [] && Run(c, k, z, []) == z && AppendOnly(c, k, 1, z, []);
    StepOfDone(c, k, w, p);
  }

  lemma StepOfDone(c: Config, k: string, w: World, p: Poll)
    requires Readable(p.dir) && p.at < |p.dir| && p.outcome == Done && Batch(c, p.dir, w.mem).state != w.mem
    ensures var z := Step(c, k, w, p);
            && z.disk == Batch(c, p.dir, w.mem).state && z.seen == p.dir[p.at].content
            && z.sent == w.sent + [NewDelivery(c, k, w, p)] && NewDelivery(c, k, w, p).acked
  {
    hide Batch, PartOf, Position;
  }

  /** Whatever reaches the server is a delivery, acknowledged unless the reply was lost. */
  lemma PostIsDelivery(c: Config, k: string, w: World, p: Poll)
    requires Readable(p.dir) && p.at < |p.dir| && Batch(c, p.dir, w.mem).records != []
    ensures var z, d := Step(c, k, w, p), NewDelivery(c, k, w, p);
            && d.records == Batch(c, p.dir, w.mem).records && (d.acked <==> p.outcome != ReplyLost)
            && z.sent == if p.outcome == Rejected || p.outcome == CrashBefore then w.sent else w.sent + [d]
  {
    hide Batch, PartOf, Position;
  }

  /**
   * So it is not exactly once in every run: when the reply is lost, or the process dies between post and save, a
   * new file of one line is sent twice.
   */
  lemma LostReplySendsTwice(c: Config, k: string, accident: Outcome)
    requires c.Valid() && c.bootstrap >= 2 && c.maxBatch >= 2 && c.parse(k, [97, 10]).Some?
    requires accident == ReplyLost || accident == CrashAfter
    ensures var w, dir := World(map[], map[], [], []), [LogFile(k, true, 1, 2, [97, 10])];
            var ps := [Poll(dir, 0, accident), Poll(dir, 0, Done)];
            && Start(k, 1, 0, w) && AppendOnly(c, k, 1, w, ps)
            && Parts(Run(c, k, w, ps).sent) == [c.parse(k, [97, 10]).value, c.parse(k, [97, 10]).value]
  {
    var w, dir := World(map[], map[], [], []), [LogFile(k, true, 1, 2, [97, 10])];
    var p, q := Poll(dir, 0, accident), Poll(dir, 0, Done);
    var ps, r := [p, q], c.parse(k, [97, 10]).value;
    hide *;
    OneLineSent(c, k, w, p, r);
    MemAfterAccident(c, k, w, p);
    var x := Step(c, k, w, p);
    OneLineSent(c, k, x, q, r);
    TwoParts(Step(c, k, x, q).sent, w.sent, NewDelivery(c, k, w, p), NewDelivery(c, k, x, q), r);
    OneLineAppends(c, k, w, p);
    OneLineAppends(c, k, x, q);
    TwoSteps(c, k, w, p, q);
    assert ps == [p, q];
  }

  lemma OneLineSent(c: Config, k: string, w: World, p: Poll, r: Record)
    requires c.Valid() && c.bootstrap >= 2 && c.maxBatch >= 2 && c.parse(k, [97, 10]) == Some(r)
    requires p.dir == [LogFile(k, true, 1, 2, [97, 10])] && p.at == 0 && w.mem == map[]
    requires p.outcome == ReplyLost || p.outcome == CrashAfter || p.outcome == Done
    ensures Readable(p.dir) && Batch(c, p.dir, w.mem).records != []
    ensures Step(c, k, w, p).sent == w.sent + [NewDelivery(c, k, w, p)] && NewDelivery(c, k, w, p).part == [r]
  {
    OneLineBatch(c, k, [97, 10]);
    PostIsDelivery(c, k, w, p);
    hide Batch, Step, ReadingAt;
  }

  lemma OneLineAppends(c: Config, k: string, w: World, p: Poll)
    requires c.Valid() && c.bootstrap >= 2 && c.maxBatch >= 2 && c.parse(k, [97, 10]).Some? && w.mem == map[]
    requires p.dir == [LogFile(k, true, 1, 2, [97, 10])] && p.at == 0 && (w.seen == [] || w.seen == [97, 10])
    ensures Appends(c, k, 1, w, p)
    ensures w == World(map[], map[], [], []) ==> Start(k, 1, 0, w)
  {
    OneLineBatch(c, k, [97, 10]);
    hide Batch, ReadingAt;
    assert [97, 10][..2] == [97, 10];
  }

  lemma TwoSteps(c: Config, k: string, w: World, p: Poll, q: Poll)
    requires Appends(c, k, 1, w, p) && Appends(c, k, 1, Step(c, k, w, p), q)
    ensures AppendOnly(c, k, 1, w, [p, q]) && Run(c, k, w, [p, q]) == Step(c, k, Step(c, k, w, p), q)
  {
    assert [p, q][1..] == [q] && [q][1..] == [];
    var z := Step(c, k, Step(c, k, w, p), q);
    hide Step;
    assert Run(c, k, z, []) == z && AppendOnly(c, k, 1, z, []);
  }

  lemma TwoParts(sent: seq<Delivery>, before: seq<Delivery>, d: Delivery, e: Delivery, r: Record)
    requires before == [] && sent == before + [d] + [e] && d.part == [r] && e.part == [r]
    ensures Parts(sent) == [r, r]
  {
    assert sent[..1] == [d] && [d][..0] == [];
    assert Parts([d]) == Parts([]) + [r] == [r];
  }

  lemma MemAfterAccident(c: Config, k: string, w: World, p: Poll)
    requires Readable(p.dir) && p.at < |p.dir| && (p.outcome == ReplyLost || p.outcome == CrashAfter)
    requires w.mem == w.disk && Batch(c, p.dir, w.mem).records != []
    ensures Step(c, k, w, p).mem == w.mem && Step(c, k, w, p).disk == w.disk
    ensures Step(c, k, w, p).seen == p.dir[p.at].content
  {
    hide Batch, PartOf, Position;
  }

  lemma OneLineBatch(c: Config, k: string, s: Bytes)
    requires c.Valid() && c.bootstrap >= 2 && c.maxBatch >= 2 && s == [97, 10] && c.parse(k, s).Some?
    ensures var dir := [LogFile(k, true, 1, 2, s)];
            && Readable(dir) && Batch(c, dir, map[]).records != [] && TailFits(s, c.maxLine)
            && ReadingAt(c, dir, map[], c.maxBatch, 0).records == [c.parse(k, s).value]
  {
    OneLineScan(c, k, s);
    PieceEndUnique(s, 0, 2);
    ScanUnfold(c, k, s, 0, c.maxBatch);
    var dir, st: State := [LogFile(k, true, 1, 2, s)], map[];
    assert s[0..2] == s;
    ReadingInsideBatch(c, dir, st, st, c.maxBatch, 0);
    hide ReadDir;
  }

  lemma OneLineScan(c: Config, k: string, s: Bytes)
    requires c.Valid() && c.bootstrap >= 2 && c.maxBatch >= 2 && s == [97, 10]
    ensures var dir := [LogFile(k, true, 1, 2, s)];
            && |Batch(c, dir, map[]).records| < c.maxBatch && StartOffset(c, dir[0], map[]) == 0
            && TailFits(s, c.maxLine) && Boundary(s, 0) && TailStart(s) == 2
  {
    PieceEndUnique(s, 0, 2);
    ScanUnfold(c, k, s, 0, c.maxBatch);
    var dir, st: State := [LogFile(k, true, 1, 2, s)], map[];
    var here := Visit(c, dir[0], st, c.maxBatch);
    assert here == Scan(c, k, s, 0, c.maxBatch) && |here.records| <= 1;
    var rest := ReadDir(c, [], st, Propose(dir[0], st, here.end), c.maxBatch - |here.records|);
    assert dir[1..] == [] && rest.records == [];
    assert Batch(c, dir, st).records == here.records + rest.records;
  }

  // ----------------------------------------------------- the loop, step by step

  /** The variables of run, and the state file. */
  class Forwarder {
    const c: Config
    const pollSeconds: real
    var saved: State
    var state: State
    var backoff: real

    /** The waiting time stays between the poll interval and 30 seconds, whichever is larger. */
    predicate Valid()
      reads this
    {
      && c.Valid() && 0.5 <= pollSeconds <= 60.0
      && (backoff <= pollSeconds || backoff <= 30.0) && (pollSeconds <= backoff || 30.0 <= backoff)
    }

    /** load_state and the first assignments of run. */
    constructor (c: Config, pollSeconds: real, onDisk: State)
      requires c.Valid() && 0.5 <= pollSeconds <= 60.0
      ensures Valid() && this.c == c && this.pollSeconds == pollSeconds
      ensures state == onDisk && saved == onDisk && backoff == pollSeconds
    {
      this.c, this.pollSeconds := c, pollSeconds;
      saved, state, backoff := onDisk, onDisk, pollSeconds;
    }

    /** One turn of the loop; a process that dies is started again. */
    method Turn(dir: seq<LogFile>, outcome: Outcome) returns (posted: seq<Record>)
      requires Valid() && Readable(dir)
      modifies this`saved, this`state, this`backoff
      ensures Valid()
      ensures posted == Batch(c, dir, old(state)).records
      ensures forall k, at: nat, w: World :: at < |dir| && w.disk == old(saved) && w.mem == old(state) ==>
                var w' := Step(c, k, w, Poll(dir, at, outcome));
                w'.disk == saved && w'.mem == state
      ensures dir == [] ==> saved == old(saved) && (state == old(state) || state == saved)
      ensures posted != [] && outcome == Done ==> backoff == pollSeconds
      ensures posted != [] && (outcome == Rejected || outcome == ReplyLost || outcome == SaveFailed) ==>
                backoff == if old(backoff) > 15.0 then 30.0 else old(backoff) * 2.0
    {
      var proposed;
      posted, proposed := ReadBatch(c, dir, state);
      hide Batch, PartOf, Position, NewDelivery;
      if outcome == CrashBefore || (outcome == CrashAfter && posted == []) {
        Restart();
      } else if posted != [] {
        if outcome == CrashAfter {
          Restart();
        } else if outcome == Rejected || outcome == ReplyLost {
          Wait();
        } else {
          state := proposed;
          if outcome == SaveFailed {
            Wait();
          } else {
            saved := state;
            backoff := pollSeconds;
          }
        }
      } else if proposed != state {
        if outcome == SaveFailed {
          Restart();
        } else {
          state := proposed;
          saved := state;
        }
      }
    }

    method Restart()
      requires Valid()
      modifies this`state, this`backoff
      ensures Valid() && state == saved && backoff == pollSeconds
    {
      state, backoff := saved, pollSeconds;
    }

    method Wait()
      requires Valid()
      modifies this`backoff
      ensures Valid() && backoff == if old(backoff) > 15.0 then 30.0 else old(backoff) * 2.0
    {
      backoff := if backoff * 2.0 < 30.0 then backoff * 2.0 else 30.0;
    }
  }
}
