/**
 * bin/log-forwarder.py: the bounded, incremental reader.
 *
 * parse_line is a parameter: it maps a file name and a raw line to a record,
 * or to None for a line that is blank once stripped.
 */
module LogTail {
  import opened Lines
  import opened Options

  /** A record, as the JSON object that parse_line builds and post_batch sends. */
  datatype Record = Record(json: string)

  datatype Config = Config(
    maxBatch: nat, maxLine: nat, bootstrap: nat,
    marker: Bytes,  // " [line truncated]" and a newline
    parse: (string, Bytes) -> Option<Record>)
  {
    /** Within the clamps applied to the environment. */
    predicate Valid() {
      1 <= maxBatch <= 500 && 1024 <= maxLine <= 65536 && bootstrap <= 10485760
    }
  }

  function Clamped(low: int, high: int, n: int): int {
    var capped := if n < high then n else high;
    if capped > low then capped else low
  }

  /** LOG_FORWARDER_MAX_BATCH, LOG_FORWARDER_MAX_LINE_BYTES and LOG_FORWARDER_BOOTSTRAP_BYTES. */
  function FromEnv(batch: int, line: int, bootstrap: int, marker: Bytes,
                   parse: (string, Bytes) -> Option<Record>): (c: Config)
    ensures c.Valid()
  {
    Config(Clamped(1, 500, batch), Clamped(1024, 64 * 1024, line), Clamped(0, 10 * 1024 * 1024, bootstrap), marker,
           parse)
  }

  /** The valid configurations are those that some environment gives. */
  lemma ValidIff(c: Config)
    ensures c.Valid() <==> exists batch, line, bootstrap :: FromEnv(batch, line, bootstrap, c.marker, c.parse) == c
  {
    if c.Valid() {
      assert FromEnv(c.maxBatch, c.maxLine, c.bootstrap, c.marker, c.parse) == c;
    }
  }

  datatype Saved = Saved(inode: int, offset: int)
  type State = map<string, Saved>

  /** One directory entry: what stat reports, and the bytes that reading then finds. */
  datatype LogFile = LogFile(name: string, eligible: bool, inode: int, size: nat, content: Bytes)

  // ---------------------------------------------------------------- meaning

  /** What a line contributes: its own bytes, cut to a prefix and a marker when too long. */
  function Clip(c: Config, l: Bytes): Bytes {
    if |l| > c.maxLine + 1 || (|l| == c.maxLine + 1 && l[c.maxLine] != NEWLINE)
    then l[..c.maxLine] + c.marker else l
  }

  /** A line, terminated or not, is whole if its text fits the limit, and else the limit's prefix and the marker. */
  lemma ClipMeans(c: Config, text: Bytes)
    requires NEWLINE !in text
    ensures Clip(c, text + [NEWLINE]) == if |text| <= c.maxLine then text + [NEWLINE] else text[..c.maxLine] + c.marker
    ensures Clip(c, text) == if |text| <= c.maxLine then text else text[..c.maxLine] + c.marker
  {
    assert |text| > c.maxLine ==> (text + [NEWLINE])[..c.maxLine] == text[..c.maxLine];
  }

  function RecordOf(c: Config, name: string, l: Bytes): (r: seq<Record>)
    ensures |r| <= 1
  {
    match c.parse(name, Clip(c, l))
    case None => []
    case Some(v) => [v]
  }

  /** Split into lines and parse each one: the simple specification. */
  function Records(c: Config, name: string, ls: seq<Bytes>): seq<Record> {
    if ls == [] then [] else RecordOf(c, name, ls[0]) + Records(c, name, ls[1..])
  }

  lemma {:induction false} RecordsConcat(c: Config, name: string, ls: seq<Bytes>, ms: seq<Bytes>)
    ensures Records(c, name, ls + ms) == Records(c, name, ls) + Records(c, name, ms)
  {
    if ls == [] {
      assert ls + ms == ms;
    } else {
      var rest := ls[1..];
      assert (ls + ms)[0] == ls[0] && (ls + ms)[1..] == rest + ms;
      calc {
        Records(c, name, ls + ms);
        RecordOf(c, name, ls[0]) + Records(c, name, rest + ms);
        { RecordsConcat(c, name, rest, ms); }
        RecordOf(c, name, ls[0]) + (Records(c, name, rest) + Records(c, name, ms));
        (RecordOf(c, name, ls[0]) + Records(c, name, rest)) + Records(c, name, ms);
      }
    }
  }

  // ------------------------------------------------- the reader, as functions

  /** Where one readline(limit) from offset i stops. */
  function ReadEnd(s: Bytes, i: nat, limit: nat): (e: nat)
    requires i <= |s|
    ensures i <= e <= |s|
  {
    if i == |s| then i
    else if PieceEnd(s, i) <= i + limit then PieceEnd(s, i) else i + limit
  }

  /** The piece at offset i has no newline and is short enough to be a line still being written. */
  predicate Unfinished(s: Bytes, i: nat, maxLine: nat)
    requires i < |s|
  {
    var e := PieceEnd(s, i);
    s[e - 1] != NEWLINE && e - i <= maxLine
  }

  /** Records read from one file, and the offset reached. */
  datatype Reading = Reading(records: seq<Record>, end: nat)

  /** The records read from offset pos while fewer than `budget` are held, and the offset reached. */
  function Scan(c: Config, name: string, s: Bytes, pos: nat, budget: nat): (r: Reading)
    requires pos <= |s|
    ensures pos <= r.end <= |s| && |r.records| <= budget
    decreases |s| - pos
  {
    if budget == 0 || pos == |s| || Unfinished(s, pos, c.maxLine) then Reading([], pos)
    else
      var e := PieceEnd(s, pos);
      var here := RecordOf(c, name, s[pos..e]);
      var rest := Scan(c, name, s, e, budget - |here|);
      Reading(here + rest.records, rest.end)
  }

  /** No saved entry, another inode, or a file shorter than the saved offset. */
  predicate Reset(f: LogFile, st: State) {
    f.name !in st || st[f.name].inode != f.inode || st[f.name].offset > f.size
  }

  function SeekOffset(c: Config, f: LogFile, st: State): (o: nat)
    ensures o <= f.size
  {
    if Reset(f, st) then (if f.size > c.bootstrap then f.size - c.bootstrap else 0)
    else (if st[f.name].offset > 0 then st[f.name].offset else 0)
  }

  /** The first offset read: after a reset into the middle of a file, one readline is skipped. */
  function StartOffset(c: Config, f: LogFile, st: State): (o: nat)
    requires f.size <= |f.content|
    ensures o <= |f.content|
  {
    var o := SeekOffset(c, f, st);
    if o > 0 && Reset(f, st) then ReadEnd(f.content, o, c.maxLine) else o
  }

  predicate Readable(dir: seq<LogFile>) {
    forall i :: 0 <= i < |dir| ==> dir[i].size <= |dir[i].content|
  }

  /** What is read from one directory entry: nothing, if it is excluded. */
  function Visit(c: Config, f: LogFile, st: State, budget: nat): (r: Reading)
    requires f.size <= |f.content|
    ensures |r.records| <= budget
  {
    if f.eligible then Scan(c, f.name, f.content, StartOffset(c, f, st), budget) else Reading([], 0)
  }

  function Propose(f: LogFile, acc: State, end: nat): State {
    if f.eligible then acc[f.name := Saved(f.inode, end)] else acc
  }

  /** What one pass returns: the records, and the state to save once they are delivered. */
  datatype Proposal = Proposal(records: seq<Record>, state: State)

  /** One pass over the directory: st is looked up, acc is what is proposed so far. */
  function ReadDir(c: Config, dir: seq<LogFile>, st: State, acc: State, budget: nat): (r: Proposal)
    requires Readable(dir)
    ensures |r.records| <= budget
  {
    if dir == [] || budget == 0 then Proposal([], acc)
    else
      var here := Visit(c, dir[0], st, budget);
      var rest := ReadDir(c, dir[1..], st, Propose(dir[0], acc, here.end), budget - |here.records|);
      Proposal(here.records + rest.records, rest.state)
  }

  /** What read_batch returns. */
  function Batch(c: Config, dir: seq<LogFile>, st: State): (r: Proposal)
    requires Readable(dir)
    ensures |r.records| <= c.maxBatch
  {
    ReadDir(c, dir, st, st, c.maxBatch)
  }

  // --------------------------------------------- the reader, step by step

  /** An open file: its bytes and a cursor that readline advances. */
  class Handle {
    const content: Bytes
    var pos: nat

    constructor (content: Bytes)
      ensures this.content == content && pos == 0
    {
      this.content := content;
      pos := 0;
    }

    method Seek(offset: nat)
      modifies this
      ensures pos == offset
    {
      pos := offset;
    }

    method ReadLine(limit: nat) returns (raw: Bytes)
      requires pos <= |content|
      modifies this
      ensures pos == ReadEnd(content, old(pos), limit)
      ensures raw == content[old(pos)..pos]
    {
      var start := pos;
      while pos < |content| && pos - start < limit && (pos == start || content[pos - 1] != NEWLINE)
        invariant start <= pos <= |content| && pos - start <= limit
        invariant forall k :: start <= k < pos - 1 ==> content[k] != NEWLINE
      {
        pos := pos + 1;
      }
      raw := content[start..pos];
      ReadEndUnique(content, start, limit, pos);
    }
  }

  lemma ReadEndUnique(s: Bytes, i: nat, limit: nat, e: nat)
    requires i <= e <= |s| && e - i <= limit
    requires forall k :: i <= k < e - 1 ==> s[k] != NEWLINE
    requires e == |s| || e - i == limit || (e > i && s[e - 1] == NEWLINE)
    ensures e == ReadEnd(s, i, limit)
  {
  }

  /** Two slices from one place agree as far as the shorter one goes. */
  lemma SamePrefix(s: Bytes, i: nat, e: nat, f: nat, n: nat)
    requires i + n < e <= f <= |s|
    ensures s[i..e][..n] == s[i..f][..n] && s[i..e][n] == s[i..f][n] && |s[i..f]| > n
  {
  }

  /** One turn of the inner loop: a whole line, clipped, or nothing when the rest must wait. */
  method ReadLogicalLine(c: Config, handle: Handle, size: nat) returns (line: Option<Bytes>)
    requires handle.pos <= |handle.content| && size <= |handle.content|
    modifies handle
    ensures var s, start := handle.content, old(handle.pos);
            if start == |s| || Unfinished(s, start, c.maxLine)
            then line == None && handle.pos == start
            else handle.pos == PieceEnd(s, start) && line == Some(Clip(c, s[start..handle.pos]))
  {
    var start := handle.pos;
    var raw := handle.ReadLine(c.maxLine + 1);
    if raw == [] {
      return None;
    }
    ghost var read := handle.pos;
    PieceFromRead(handle.content, start, c.maxLine, read);
    if raw[|raw| - 1] != NEWLINE && handle.pos >= size && |raw| <= c.maxLine {
      handle.Seek(start);
      return None;
    }
    if |raw| > c.maxLine && raw[|raw| - 1] != NEWLINE {
      SkipRemainder(handle, c.maxLine, start);
      SamePrefix(handle.content, start, read, handle.pos, c.maxLine);
      raw := raw[..c.maxLine] + c.marker;
    }
    return Some(raw);
  }

  lemma ScanUnfold(c: Config, name: string, s: Bytes, pos: nat, budget: nat)
    requires 0 < budget && pos < |s| && !Unfinished(s, pos, c.maxLine)
    ensures var e := PieceEnd(s, pos);
            var here := RecordOf(c, name, s[pos..e]);
            var rest := Scan(c, name, s, e, budget - |here|);
            Scan(c, name, s, pos, budget) == Reading(here + rest.records, rest.end)
  {
    hide Unfinished, RecordOf, Clip;
  }

  lemma ScanStops(c: Config, name: string, s: Bytes, pos: nat, budget: nat)
    requires pos <= |s| && (budget == 0 || pos == |s| || Unfinished(s, pos, c.maxLine))
    ensures Scan(c, name, s, pos, budget) == Reading([], pos)
  {
    hide Unfinished;
  }

  lemma SeqAssoc<T>(a: seq<T>, b: seq<T>, c: seq<T>)
    ensures a + (b + c) == (a + b) + c
  {
  }

  lemma ScanStep(c: Config, name: string, s: Bytes, pos: nat, e: nat, held: seq<Record>, here: seq<Record>)
    requires |held| < c.maxBatch && pos < |s| && !Unfinished(s, pos, c.maxLine) && e == PieceEnd(s, pos)
    requires here == RecordOf(c, name, s[pos..e])
    ensures var budget := c.maxBatch - |held|;
            var all, rest := Scan(c, name, s, pos, budget), Scan(c, name, s, e, budget - |here|);
            held + all.records == (held + here) + rest.records && all.end == rest.end
  {
    hide Scan, PieceEnd, Unfinished, Clip, RecordOf;
    ScanUnfold(c, name, s, pos, c.maxBatch - |held|);
    SeqAssoc(held, here, Scan(c, name, s, e, c.maxBatch - |held| - |here|).records);
  }

  /** The inner loop of read_batch over one file, from the seek to the committed offset. */
  method ReadFile(c: Config, f: LogFile, st: State, held: seq<Record>) returns (records: seq<Record>, committed: nat)
    requires c.Valid() && f.size <= |f.content| && |held| <= c.maxBatch
    ensures var scan := Scan(c, f.name, f.content, StartOffset(c, f, st), c.maxBatch - |held|);
            records == held + scan.records && committed == scan.end
  {
    hide Scan, PieceEnd, Unfinished, Clip;
    records := held;
    var reset := Reset(f, st);
    var offset := SeekOffset(c, f, st);
    var handle := new Handle(f.content);
    handle.Seek(offset);
    if offset > 0 && reset {
      var _ := handle.ReadLine(c.maxLine);
    }
    committed := handle.pos;
    ghost var goal := Scan(c, f.name, f.content, committed, c.maxBatch - |held|);
    while |records| < c.maxBatch
      invariant handle.content == f.content && committed == handle.pos <= |f.content|
      invariant |records| <= c.maxBatch
      invariant var rest := Scan(c, f.name, f.content, committed, c.maxBatch - |records|);
                held + goal.records == records + rest.records && goal.end == rest.end
      decreases |f.content| - committed
    {
      var line := ReadLogicalLine(c, handle, f.size);
      if line == None {
        ScanStops(c, f.name, f.content, committed, c.maxBatch - |records|);
        break;
      }
      var record := c.parse(f.name, line.value);
      ghost var here := RecordOf(c, f.name, f.content[committed..handle.pos]);
      ScanStep(c, f.name, f.content, committed, handle.pos, records, here);
      committed := handle.pos;
      assert here == if record.Some? then [record.value] else [];
      if record.Some? {
        records := records + [record.value];
      } else {
        assert records + [] == records;
      }
    }
    ScanStops(c, f.name, f.content, committed, c.maxBatch - |records|);
    assert records + [] == records;
  }

  /** What one readline(maxLine + 1) tells about the piece that starts there. */
  lemma PieceFromRead(s: Bytes, i: nat, maxLine: nat, e: nat)
    requires i < |s| && e == ReadEnd(s, i, maxLine + 1)
    ensures i < e <= PieceEnd(s, i)
    ensures s[e - 1] == NEWLINE || e - i <= maxLine ==> e == PieceEnd(s, i)
  {
  }

  /** The loop that consumes the rest of an oversized line. */
  method SkipRemainder(handle: Handle, maxLine: nat, start: nat)
    requires start < handle.pos <= |handle.content|
    requires forall k :: start <= k < handle.pos ==> handle.content[k] != NEWLINE
    modifies handle
    ensures handle.pos == PieceEnd(handle.content, start)
  {
    while true
      invariant start < handle.pos <= |handle.content|
      invariant forall k :: start <= k < handle.pos ==> handle.content[k] != NEWLINE
      decreases |handle.content| - handle.pos
    {
      var remainder := handle.ReadLine(maxLine + 1);
      if remainder == [] || remainder[|remainder| - 1] == NEWLINE {
        break;
      }
    }
    PieceEndUnique(handle.content, start, handle.pos);
  }

  lemma ReadDirStep(c: Config, dir: seq<LogFile>, i: nat, st: State, acc: State, held: seq<Record>, here: Reading)
    requires Readable(dir) && i < |dir| && |held| < c.maxBatch
    requires here == Visit(c, dir[i], st, c.maxBatch - |held|)
    ensures var budget := c.maxBatch - |held|;
            var all := ReadDir(c, dir[i..], st, acc, budget);
            var rest := ReadDir(c, dir[i + 1..], st, Propose(dir[i], acc, here.end), budget - |here.records|);
            held + all.records == (held + here.records) + rest.records && all.state == rest.state
  {
    hide Visit;
    assert dir[i..][0] == dir[i] && dir[i..][1..] == dir[i + 1..];
    var acc' := Propose(dir[i], acc, here.end);
    SeqAssoc(held, here.records, ReadDir(c, dir[i + 1..], st, acc', c.maxBatch - |held| - |here.records|).records);
  }

  lemma ReadDirStops(c: Config, dir: seq<LogFile>, st: State, acc: State, budget: nat)
    requires Readable(dir) && (dir == [] || budget == 0)
    ensures ReadDir(c, dir, st, acc, budget) == Proposal([], acc)
  {
  }

  lemma BatchIs(c: Config, dir: seq<LogFile>, st: State)
    requires Readable(dir)
    ensures Batch(c, dir, st) == ReadDir(c, dir[0..], st, st, c.maxBatch)
  {
    assert dir[0..] == dir;
  }

  method ReadBatch(c: Config, dir: seq<LogFile>, st: State) returns (records: seq<Record>, proposed: State)
    requires c.Valid() && Readable(dir)
    ensures records == Batch(c, dir, st).records && proposed == Batch(c, dir, st).state
  {
    hide Scan, StartOffset, ReadDir, Batch, PieceEnd, Unfinished;
    records, proposed := [], st;
    var i := 0;
    BatchIs(c, dir, st);
    while i < |dir|
      invariant 0 <= i <= |dir| && |records| <= c.maxBatch
      invariant var all, rest := Batch(c, dir, st), ReadDir(c, dir[i..], st, proposed, c.maxBatch - |records|);
                all.records == records + rest.records && all.state == rest.state
    {
      if |records| >= c.maxBatch {
        break;
      }
      var f := dir[i];
      ghost var held, acc := records, proposed;
      ghost var here := Visit(c, f, st, c.maxBatch - |held|);
      if f.eligible {
        var committed;
        records, committed := ReadFile(c, f, st, records);
        proposed := proposed[f.name := Saved(f.inode, committed)];
      } else {
        assert held + [] == held;
      }
      assert records == held + here.records && proposed == Propose(f, acc, here.end);
      ReadDirStep(c, dir, i, st, acc, held, here);
      i := i + 1;
    }
    ReadDirStops(c, dir[i..], st, proposed, c.maxBatch - |records|);
    assert records + [] == records;
  }
}
