/**
 * Window limiters: the in-memory weighted limiter of routes-events.ts and the
 * rate-limit rows of routes-governance.ts, over whole runs of requests.
 * Time is in milliseconds.
 */
module RateWindows {
  import opened Options

  // ---------------------------------------------------- windows in general

  /** An admitted request: when, in which window, with what weight, and whether it opened the window. */
  datatype Entry = Entry(at: int, window: nat, weight: nat, opening: bool)

  function SumWindow(log: seq<Entry>, w: nat): nat {
    if log == [] then 0
    else SumWindow(log[..|log| - 1], w) + if log[|log| - 1].window == w then log[|log| - 1].weight else 0
  }

  /** What was admitted at times from a to b, both included. */
  function SumBetween(log: seq<Entry>, a: int, b: int): nat {
    if log == [] then 0
    else SumBetween(log[..|log| - 1], a, b) + if a <= log[|log| - 1].at <= b then log[|log| - 1].weight else 0
  }

  /** A log whose current window started at `start`; a window lasts while now - start <= stay. */
  predicate LogOk(log: seq<Entry>, current: nat, start: int, stay: nat) {
    && (forall e <- log :: e.window <= current)
    && (forall e <- log :: e.window < current ==> e.at < start)
    && (forall e <- log :: e.window + 2 <= current ==> e.at + stay + 1 < start)
    && (forall e <- log :: e.window == current ==> start <= e.at <= start + stay)
    && (forall d <- log, e <- log :: d.window + 2 <= e.window ==> d.at + stay + 1 < e.at)
  }

  lemma LogOpens(log: seq<Entry>, current: nat, start: int, stay: nat, e: Entry)
    requires LogOk(log, current, start, stay) && e.window == current + 1 && start + stay < e.at
    ensures LogOk(log + [e], current + 1, e.at, stay)
  {
  }

  lemma LogAdds(log: seq<Entry>, current: nat, start: int, stay: nat, e: Entry)
    requires LogOk(log, current, start, stay) && e.window == current && start <= e.at <= start + stay
    ensures LogOk(log + [e], current, start, stay)
  {
  }

  lemma NothingLogged(stay: nat)
    ensures forall current: nat, start :: LogOk([], current, start, stay)
  {
  }

  lemma WindowsBelow(log: seq<Entry>, current: nat, start: int, stay: nat)
    requires LogOk(log, current, start, stay)
    ensures forall e <- log :: e.window < current + 1
  {
  }

  lemma SumsOneMore(log: seq<Entry>, e: Entry, w: nat)
    ensures SumWindow(log + [e], w) == SumWindow(log, w) + if e.window == w then e.weight else 0
  {
    assert (log + [e])[..|log|] == log;
  }

  lemma BetweenOneMore(log: seq<Entry>, e: Entry, a: int, b: int)
    ensures SumBetween([], a, b) == 0
    ensures SumBetween(log + [e], a, b) == SumBetween(log, a, b) + if e.at < a || b < e.at then 0 else e.weight
  {
    assert (log + [e])[..|log|] == log;
  }

  lemma {:induction false} NothingBeyond(log: seq<Entry>, w: nat)
    requires forall e <- log :: e.window < w
    ensures SumWindow(log, w) == 0
  {
    if log != [] {
      assert log[|log| - 1] in log;
      NothingBeyond(log[..|log| - 1], w);
    }
  }

  /** An interval no longer than a window meets at most two neighbouring windows. */
  lemma {:induction false} BetweenIsTwoWindows(log: seq<Entry>, a: int, b: int, m: nat)
    requires forall e <- log :: a <= e.at <= b ==> m <= e.window <= m + 1
    ensures SumBetween(log, a, b) <= SumWindow(log, m) + SumWindow(log, m + 1)
  {
    if log != [] {
      assert log[|log| - 1] in log;
      BetweenIsTwoWindows(log[..|log| - 1], a, b, m);
    }
  }

  /** The first window that the interval meets, if it meets any. */
  lemma {:induction false} FirstWindow(log: seq<Entry>, a: int, b: int) returns (m: nat)
    requires exists e <- log :: a <= e.at <= b
    ensures exists e <- log :: a <= e.at <= b && e.window == m
    ensures forall e <- log :: a <= e.at <= b ==> m <= e.window
  {
    var init, last := log[..|log| - 1], log[|log| - 1];
    assert last in log && forall e <- log :: e in init || e == last;
    if exists e <- init :: a <= e.at <= b {
      m := FirstWindow(init, a, b);
      var e :| e in init && a <= e.at <= b && e.window == m;
      assert e in log;
      if a <= last.at <= b && last.window < m {
        m := last.window;
      }
    } else {
      m := last.window;
    }
  }

  lemma {:induction false} NothingBetween(log: seq<Entry>, a: int, b: int)
    requires forall e <- log :: !(a <= e.at <= b)
    ensures SumBetween(log, a, b) == 0
  {
    if log != [] {
      assert log[|log| - 1] in log;
      NothingBetween(log[..|log| - 1], a, b);
    }
  }

  /** If every window admits at most `limit`, every interval no longer than a window admits at most twice that. */
  lemma TwiceTheLimit(log: seq<Entry>, current: nat, start: int, stay: nat, limit: nat, a: int, b: int)
    requires LogOk(log, current, start, stay) && b <= a + stay + 1
    requires forall w :: SumWindow(log, w) <= limit
    ensures SumBetween(log, a, b) <= 2 * limit
  {
    if exists e <- log :: a <= e.at <= b {
      var m := FirstWindow(log, a, b);
      var d :| d in log && a <= d.at <= b && d.window == m;
      forall e | e in log && a <= e.at <= b ensures m <= e.window <= m + 1 {
        assert d.window + 2 <= e.window ==> d.at + stay + 1 < e.at;
      }
      BetweenIsTwoWindows(log, a, b, m);
    } else {
      NothingBetween(log, a, b);
    }
  }

  // ------------------------------------------------- the in-memory limiter

  datatype Bucket = Bucket(resetAt: int, count: nat)

  datatype Request = Request(key: string, weight: nat, at: int)

  /** No bucket, or its window is over. */
  predicate Opens(b: Option<Bucket>, now: int) { b.None? || b.value.resetAt <= now }

  predicate Admits(b: Option<Bucket>, weight: nat, limit: nat, now: int) {
    Opens(b, now) || b.value.count + weight <= limit
  }

  function NextBucket(b: Option<Bucket>, weight: nat, limit: nat, now: int, window: nat): Option<Bucket> {
    if Opens(b, now) then Some(Bucket(now + window, weight))
    else if b.value.count + weight > limit then b
    else Some(b.value.(count := b.value.count + weight))
  }

  function BucketAt(buckets: map<string, Bucket>, key: string): Option<Bucket> {
    if key in buckets then Some(buckets[key]) else None
  }

  class EventLimiter {
    var buckets: map<string, Bucket>
    const window: nat

    constructor (window: nat)
      requires 1_000 <= window <= 3_600_000
      ensures buckets == map[] && this.window == window
    {
      this.window, buckets := window, map[];
    }

    /** rateLimit: a rejected request changes nothing, and no request touches the bucket of another key. */
    method RateLimit(r: Request, limit: nat) returns (admitted: bool)
      modifies this
      ensures admitted <==> Admits(BucketAt(old(buckets), r.key), r.weight, limit, r.at)
      ensures BucketAt(buckets, r.key) == NextBucket(BucketAt(old(buckets), r.key), r.weight, limit, r.at, window)
      ensures forall k :: k != r.key ==> BucketAt(buckets, k) == BucketAt(old(buckets), k)
      ensures !admitted ==> buckets == old(buckets)
    {
      if r.key !in buckets || buckets[r.key].resetAt <= r.at {
        buckets := buckets[r.key := Bucket(r.at + window, r.weight)];
        return true;
      }
      var current := buckets[r.key];
      if current.count + r.weight > limit {
        return false;
      }
      buckets := buckets[r.key := current.(count := current.count + r.weight)];
      return true;
    }
  }

  /** A run seen from one key: its bucket, the number of its current window, and what was admitted. */
  datatype KeyRun = KeyRun(bucket: Option<Bucket>, windows: nat, log: seq<Entry>)

  function RunOf(key: string, rs: seq<Request>, limit: nat, window: nat): KeyRun {
    if rs == [] then KeyRun(None, 0, [])
    else
      var x, r := RunOf(key, rs[..|rs| - 1], limit, window), rs[|rs| - 1];
      if r.key != key then x
      else
        var b := NextBucket(x.bucket, r.weight, limit, r.at, window);
        if Opens(x.bucket, r.at) then KeyRun(b, x.windows + 1, x.log + [Entry(r.at, x.windows + 1, r.weight, true)])
        else if Admits(x.bucket, r.weight, limit, r.at)
            then KeyRun(b, x.windows, x.log + [Entry(r.at, x.windows, r.weight, false)])
        else x
  }

  /** The run follows the limiter: its bucket is the limiter's, and its log grows by what the limiter admits. */
  lemma RunFollows(key: string, rs: seq<Request>, r: Request, limit: nat, window: nat)
    ensures RunOf(key, [], limit, window) == KeyRun(None, 0, [])
    ensures var x, y := RunOf(key, rs, limit, window), RunOf(key, rs + [r], limit, window);
            if r.key != key then y == x
            else
              && y.bucket == NextBucket(x.bucket, r.weight, limit, r.at, window)
              && y.windows == x.windows + (if Opens(x.bucket, r.at) then 1 else 0)
              && y.log == if Admits(x.bucket, r.weight, limit, r.at)
                          then x.log + [Entry(r.at, y.windows, r.weight, Opens(x.bucket, r.at))] else x.log
  {
    assert (rs + [r])[..|rs|] == rs;
  }

  predicate Ordered(rs: seq<Request>) {
    forall i, j :: 0 <= i < j < |rs| ==> rs[i].at <= rs[j].at
  }

  /** The openings of window w stayed within the limit. */
  predicate OpeningsFit(log: seq<Entry>, w: nat, limit: nat) {
    forall e <- log :: e.window == w && e.opening ==> e.weight <= limit
  }

  predicate KeyRunOk(x: KeyRun, window: nat)
    requires 1 <= window
  {
    match x.bucket
    case None => x.windows == 0 && x.log == []
    case Some(b) =>
      && LogOk(x.log, x.windows, b.resetAt - window, window - 1)
      && SumWindow(x.log, x.windows) == b.count
  }

  ghost predicate TotalsOk(log: seq<Entry>, limit: nat) {
    forall w: nat :: SumWindow(log, w) <= limit <==> OpeningsFit(log, w, limit)
  }

  lemma {:induction false} MemRunOk(key: string, rs: seq<Request>, limit: nat, window: nat)
    requires Ordered(rs) && 1 <= window
    ensures var x := RunOf(key, rs, limit, window);
            KeyRunOk(x, window) && (x.bucket.Some? ==> rs != [] && x.bucket.value.resetAt - window <= rs[|rs| - 1].at)
  {
    hide LogOk, SumWindow;
    NothingLogged(window - 1);
    if rs != [] {
      var init, r := rs[..|rs| - 1], rs[|rs| - 1];
      MemRunOk(key, init, limit, window);
      var x := RunOf(key, init, limit, window);
      if init != [] {
        assert init[|init| - 1] == rs[|rs| - 2];
      }
      if r.key == key {
        if Opens(x.bucket, r.at) {
          var e := Entry(r.at, x.windows + 1, r.weight, true);
          SumsOneMore(x.log, e, x.windows + 1);
          if x.bucket.Some? {
            WindowsBelow(x.log, x.windows, x.bucket.value.resetAt - window, window - 1);
            LogOpens(x.log, x.windows, x.bucket.value.resetAt - window, window - 1, e);
          } else {
            LogOpens([], 0, r.at - window, window - 1, e);
          }
          NothingBeyond(x.log, x.windows + 1);
        } else if Admits(x.bucket, r.weight, limit, r.at) {
          var e := Entry(r.at, x.windows, r.weight, false);
          SumsOneMore(x.log, e, x.windows);
          LogAdds(x.log, x.windows, x.bucket.value.resetAt - window, window - 1, e);
        }
      }
    }
  }

  /** A window admits at most the limit exactly when the request that opened it is within the limit. */
  lemma {:induction false} WindowTotalIff(key: string, rs: seq<Request>, limit: nat, window: nat)
    requires Ordered(rs) && 1 <= window
    ensures TotalsOk(RunOf(key, rs, limit, window).log, limit)
  {
    if rs != [] {
      var init, r := rs[..|rs| - 1], rs[|rs| - 1];
      WindowTotalIff(key, init, limit, window);
      MemRunOk(key, init, limit, window);
      var x, y := RunOf(key, init, limit, window), RunOf(key, rs, limit, window);
      if |y.log| > |x.log| {
        var e := y.log[|x.log|];
        assert y.log == x.log + [e];
        forall w: nat ensures SumWindow(y.log, w) <= limit <==> OpeningsFit(y.log, w, limit) {
          SumsOneMore(x.log, e, w);
          if w == e.window && e.opening {
            NothingBeyond(x.log, w);
          }
          assert SumWindow(x.log, w) <= limit <==> OpeningsFit(x.log, w, limit);
          OpeningsOneMore(x.log, e, w, limit);
        }
      }
    }
  }

  lemma OpeningsOneMore(log: seq<Entry>, e: Entry, w: nat, limit: nat)
    ensures OpeningsFit(log + [e], w, limit) <==>
              OpeningsFit(log, w, limit) && (e.window == w && e.opening ==> e.weight <= limit)
  {
    if OpeningsFit(log + [e], w, limit) {
      assert forall d <- log :: d in log + [e];
      assert e in log + [e];
    }
  }

  lemma {:induction false} EntriesAreRequests(key: string, rs: seq<Request>, limit: nat, window: nat, bound: nat)
    requires forall r <- rs :: r.weight <= bound
    ensures forall e <- RunOf(key, rs, limit, window).log :: e.weight <= bound
  {
    if rs != [] {
      assert rs[|rs| - 1] in rs;
      EntriesAreRequests(key, rs[..|rs| - 1], limit, window, bound);
    }
  }

  /**
   * With no request heavier than the limit, each key is admitted at most `limit` in a window and
   * at most twice that in any interval no longer than a window.
   */
  lemma EventLimiterBounds(key: string, rs: seq<Request>, limit: nat, window: nat, a: int, b: int)
    requires Ordered(rs) && 1 <= window && b <= a + window
    requires forall r <- rs :: r.weight <= limit
    ensures var log := RunOf(key, rs, limit, window).log;
            (forall w :: SumWindow(log, w) <= limit) && SumBetween(log, a, b) <= 2 * limit
  {
    var x := RunOf(key, rs, limit, window);
    MemRunOk(key, rs, limit, window);
    WindowTotalIff(key, rs, limit, window);
    EntriesAreRequests(key, rs, limit, window, limit);
    forall w: nat ensures SumWindow(x.log, w) <= limit {
      assert OpeningsFit(x.log, w, limit);
    }
    if x.bucket.Some? {
      TwiceTheLimit(x.log, x.windows, x.bucket.value.resetAt - window, window - 1, limit, a, b);
    }
  }

  /** One request over the limit is admitted when it opens a window. */
  lemma OversizedOpeningIsAdmitted(key: string, limit: nat, window: nat, at: int)
    ensures var x := RunOf(key, [Request(key, limit + 1, at)], limit, window);
            SumWindow(x.log, 1) == limit + 1
  {
    var r := Request(key, limit + 1, at);
    assert [r][..|[r]| - 1] == [] && RunOf(key, [], limit, window) == KeyRun(None, 0, []);
    var x := RunOf(key, [r], limit, window);
    assert x.log == [] + [Entry(at, 1, limit + 1, true)];
    SumsOneMore([], Entry(at, 1, limit + 1, true), 1);
  }

  /** Each window of a run has one opening, at the time it began, and began when the one before was over. */
  predicate OpeningsOk(x: KeyRun, window: nat) {
    match x.bucket
    case None => x.log == []
    case Some(b) =>
      && (exists e <- x.log :: e.opening && e.window == x.windows)
      && forall e <- x.log :: e.opening ==>
           if e.window == x.windows then e.at == b.resetAt - window
           else e.at + window <= b.resetAt - window
  }

  lemma OpeningMore(x: KeyRun, window: nat, e: Entry, count: nat)
    requires OpeningsOk(x, window) && (x.bucket.Some? ==> x.bucket.value.resetAt <= e.at)
    requires e.opening && e.window == x.windows + 1 && forall d <- x.log :: d.window <= x.windows
    ensures OpeningsOk(KeyRun(Some(Bucket(e.at + window, count)), x.windows + 1, x.log + [e]), window)
  {
    assert e in x.log + [e];
  }

  lemma AddingMore(x: KeyRun, window: nat, e: Entry, count: nat)
    requires OpeningsOk(x, window) && x.bucket.Some? && !e.opening
    ensures OpeningsOk(KeyRun(Some(Bucket(x.bucket.value.resetAt, count)), x.windows, x.log + [e]), window)
  {
    var d :| d in x.log && d.opening && d.window == x.windows;
    assert d in x.log + [e];
  }

  lemma WindowsAtMost(x: KeyRun, window: nat)
    requires 1 <= window && KeyRunOk(x, window)
    ensures forall e <- x.log :: e.window <= x.windows
  {
  }

  lemma {:induction false} RunOpenings(key: string, rs: seq<Request>, limit: nat, window: nat)
    requires Ordered(rs) && 1 <= window
    ensures OpeningsOk(RunOf(key, rs, limit, window), window)
  {
    hide KeyRunOk, OpeningsOk;
    if rs == [] {
      NoOpenings(window);
    } else {
      var init, r := rs[..|rs| - 1], rs[|rs| - 1];
      RunOpenings(key, init, limit, window);
      MemRunOk(key, init, limit, window);
      var x := RunOf(key, init, limit, window);
      WindowsAtMost(x, window);
      if r.key == key {
        if Opens(x.bucket, r.at) {
          OpeningMore(x, window, Entry(r.at, x.windows + 1, r.weight, true), r.weight);
        } else if Admits(x.bucket, r.weight, limit, r.at) {
          AddingMore(x, window, Entry(r.at, x.windows, r.weight, false), x.bucket.value.count + r.weight);
        }
      }
    }
  }

  lemma NoOpenings(window: nat)
    ensures OpeningsOk(KeyRun(None, 0, []), window)
  {
  }

  /**
   * A request of the key is admitted exactly when it fits, together with what its window has admitted, or comes a
   * window or more after the last opening; nothing else is refused.
   */
  lemma AdmittedIff(rs: seq<Request>, r: Request, limit: nat, window: nat)
    requires Ordered(rs + [r]) && 1 <= window
    ensures var x := RunOf(r.key, rs, limit, window);
            Admits(x.bucket, r.weight, limit, r.at) <==>
              forall e <- x.log :: e.opening && r.at < e.at + window ==>
                SumWindow(x.log, e.window) + r.weight <= limit
  {
    assert (rs + [r])[|rs|] == r && forall i :: 0 <= i < |rs| ==> (rs + [r])[i] == rs[i];
    assert Ordered(rs) && (rs != [] ==> rs[|rs| - 1].at <= r.at);
    var x := RunOf(r.key, rs, limit, window);
    MemRunOk(r.key, rs, limit, window);
    RunOpenings(r.key, rs, limit, window);
    hide RunOf, LogOk, Ordered;
    AdmitsIff(x, r, limit, window);
  }

  lemma AdmitsIff(x: KeyRun, r: Request, limit: nat, window: nat)
    requires 1 <= window && KeyRunOk(x, window) && OpeningsOk(x, window)
    requires x.bucket.Some? ==> x.bucket.value.resetAt - window <= r.at
    ensures Admits(x.bucket, r.weight, limit, r.at) <==>
              forall e <- x.log :: e.opening && r.at < e.at + window ==>
                SumWindow(x.log, e.window) + r.weight <= limit
  {
    hide LogOk, SumWindow;
  }

  // ---------------------------------------------------- the rate-limit rows

  /** A row of rate_limits. */
  datatype RateRow = RateRow(periodMs: nat, maxCalls: nat, windowStart: int, calls: nat)

  predicate Rolls(r: RateRow, now: int) { now - r.windowStart > r.periodMs }

  /** The UPDATE of one check: the call is counted whether or not it fits. */
  function Counted(r: RateRow, now: int): RateRow {
    if Rolls(r, now) then r.(windowStart := now, calls := 1) else r.(calls := r.calls + 1)
  }

  predicate Fits(r: RateRow, now: int) { Counted(r, now).calls <= r.maxCalls }

  /** rate-limits/check over the rows of one scope: every row is bumped, and all must fit. */
  method CheckRateLimits(rows: array<RateRow>, now: int) returns (allowed: bool)
    modifies rows
    ensures forall i :: 0 <= i < rows.Length ==> rows[i] == Counted(old(rows[i]), now)
    ensures allowed <==> forall i :: 0 <= i < rows.Length ==> Fits(old(rows[i]), now)
  {
    allowed := true;
    var i := 0;
    while i < rows.Length
      invariant 0 <= i <= rows.Length
      invariant forall j :: 0 <= j < i ==> rows[j] == Counted(old(rows[j]), now)
      invariant forall j :: i <= j < rows.Length ==> rows[j] == old(rows[j])
      invariant allowed <==> forall j :: 0 <= j < i ==> Fits(old(rows[j]), now)
    {
      rows[i] := Counted(rows[i], now);
      var fits := rows[i].calls <= rows[i].maxCalls;
      if !fits {
        allowed := false;
      }
      i := i + 1;
    }
  }

  datatype RowRun = RowRun(row: RateRow, windows: nat, log: seq<Entry>)

  /** A check of the row, or an upsert that changes its max_calls. */
  datatype RowEvent = Check(at: int) | SetMax(at: int, max: nat)

  /** One check; the log holds those that fitted. */
  function Checked(x: RowRun, now: int): RowRun {
    var windows := if Rolls(x.row, now) then x.windows + 1 else x.windows;
    RowRun(Counted(x.row, now), windows,
           if Fits(x.row, now) then x.log + [Entry(now, windows, 1, Rolls(x.row, now))] else x.log)
  }

  function RowRunOf(row: RateRow, es: seq<RowEvent>): RowRun {
    if es == [] then RowRun(row, 0, [])
    else
      var x := RowRunOf(row, es[..|es| - 1]);
      match es[|es| - 1]
      case Check(now) => Checked(x, now)
      case SetMax(_, max) => x.(row := x.row.(maxCalls := max))
  }

  /** The run follows the row: each check counts, and the log grows by the checks that fit. */
  lemma RowRunFollows(row: RateRow, es: seq<RowEvent>, e: RowEvent)
    ensures RowRunOf(row, []) == RowRun(row, 0, [])
    ensures var x, y := RowRunOf(row, es), RowRunOf(row, es + [e]);
            if e.SetMax? then y == RowRun(x.row.(maxCalls := e.max), x.windows, x.log)
            else
              && y.row == Counted(x.row, e.at)
              && y.windows == x.windows + (if Rolls(x.row, e.at) then 1 else 0)
              && y.log == if Fits(x.row, e.at) then x.log + [Entry(e.at, y.windows, 1, Rolls(x.row, e.at))] else x.log
  {
    assert (es + [e])[..|es|] == es;
  }

  ghost predicate RowRunOk(x: RowRun, periodMs: nat, bound: nat) {
    && x.row.periodMs == periodMs && x.row.maxCalls <= bound
    && LogOk(x.log, x.windows, x.row.windowStart, periodMs)
    && SumWindow(x.log, x.windows) <= x.row.calls
    && forall w :: SumWindow(x.log, w) <= bound
  }

  /** A log that grows by one entry in window w, whose sum was below the bound. */
  lemma OneMoreFits(log: seq<Entry>, e: Entry, bound: nat)
    requires e.weight == 1 && SumWindow(log, e.window) < bound && forall w :: SumWindow(log, w) <= bound
    ensures SumWindow(log + [e], e.window) == SumWindow(log, e.window) + 1
    ensures forall w :: SumWindow(log + [e], w) <= bound
  {
    hide SumWindow;
    SumsOneMore(log, e, e.window);
    forall w: nat ensures SumWindow(log + [e], w) <= bound {
      SumsOneMore(log, e, w);
    }
  }

  lemma RollKeepsOk(x: RowRun, periodMs: nat, bound: nat, now: int)
    requires RowRunOk(x, periodMs, bound) && Rolls(x.row, now)
    ensures RowRunOk(Checked(x, now), periodMs, bound)
  {
    hide LogOk, SumWindow;
    var e := Entry(now, x.windows + 1, 1, true);
    WindowsBelow(x.log, x.windows, x.row.windowStart, periodMs);
    NothingBeyond(x.log, x.windows + 1);
    if Fits(x.row, now) {
      OneMoreFits(x.log, e, bound);
      LogOpens(x.log, x.windows, x.row.windowStart, periodMs, e);
    } else {
      LogOpensEmpty(x.log, x.windows, x.row.windowStart, periodMs, now);
    }
  }

  lemma StayKeepsOk(x: RowRun, periodMs: nat, bound: nat, now: int)
    requires RowRunOk(x, periodMs, bound) && !Rolls(x.row, now) && x.row.windowStart <= now
    ensures RowRunOk(Checked(x, now), periodMs, bound)
  {
    hide LogOk, SumWindow;
    var e := Entry(now, x.windows, 1, false);
    if Fits(x.row, now) {
      OneMoreFits(x.log, e, bound);
      LogAdds(x.log, x.windows, x.row.windowStart, periodMs, e);
    }
  }

  predicate EventsOrdered(row: RateRow, es: seq<RowEvent>) {
    && (forall i, j :: 0 <= i < j < |es| ==> es[i].at <= es[j].at)
    && (es != [] ==> row.windowStart <= es[0].at)
  }

  /** No max_calls in the run is above the bound. */
  predicate MaxWithin(row: RateRow, es: seq<RowEvent>, bound: nat) {
    row.maxCalls <= bound && forall e <- es :: e.SetMax? ==> e.max <= bound
  }

  lemma RunBefore(row: RateRow, es: seq<RowEvent>, bound: nat)
    requires EventsOrdered(row, es) && MaxWithin(row, es, bound) && es != []
    ensures EventsOrdered(row, es[..|es| - 1]) && MaxWithin(row, es[..|es| - 1], bound)
    ensures row.windowStart <= es[|es| - 1].at
    ensures |es| > 1 ==> es[|es| - 2].at <= es[|es| - 1].at
    ensures es[|es| - 1].SetMax? ==> es[|es| - 1].max <= bound
  {
    assert es[|es| - 1] in es;
  }

  lemma NewRowOk(row: RateRow, bound: nat)
    requires row.maxCalls <= bound
    ensures RowRunOk(RowRun(row, 0, []), row.periodMs, bound)
  {
    NothingLogged(row.periodMs);
  }

  lemma {:induction false} RowRunIsOk(row: RateRow, es: seq<RowEvent>, bound: nat)
    requires EventsOrdered(row, es) && MaxWithin(row, es, bound)
    ensures var x := RowRunOf(row, es);
            && RowRunOk(x, row.periodMs, bound)
            && if es == [] then x.row.windowStart == row.windowStart else x.row.windowStart <= es[|es| - 1].at
  {
    hide RowRunOk, EventsOrdered, MaxWithin, Rolls, Fits;
    if es == [] {
      NewRowOkOf(row, es, bound);
    } else {
      var init, e := es[..|es| - 1], es[|es| - 1];
      RunBefore(row, es, bound);
      RowRunIsOk(row, init, bound);
      var x := RowRunOf(row, init);
      if e.Check? {
        CheckKeepsOk(x, row.periodMs, bound, e.at);
      } else {
        SetMaxKeepsOk(x, row.periodMs, bound, e.max);
      }
    }
  }

  lemma NewRowOkOf(row: RateRow, es: seq<RowEvent>, bound: nat)
    requires es == [] && MaxWithin(row, es, bound)
    ensures RowRunOk(RowRunOf(row, es), row.periodMs, bound)
  {
    NewRowOk(row, bound);
  }

  lemma CheckKeepsOk(x: RowRun, periodMs: nat, bound: nat, now: int)
    requires RowRunOk(x, periodMs, bound) && x.row.windowStart <= now
    ensures RowRunOk(Checked(x, now), periodMs, bound) && Checked(x, now).row.windowStart <= now
  {
    hide RowRunOk, Fits;
    if Rolls(x.row, now) {
      RollKeepsOk(x, periodMs, bound, now);
    } else {
      StayKeepsOk(x, periodMs, bound, now);
    }
  }

  lemma SetMaxKeepsOk(x: RowRun, periodMs: nat, bound: nat, max: nat)
    requires RowRunOk(x, periodMs, bound) && max <= bound
    ensures RowRunOk(x.(row := x.row.(maxCalls := max)), periodMs, bound)
  {
    hide LogOk, SumWindow;
  }

  lemma LogOpensEmpty(log: seq<Entry>, current: nat, start: int, stay: nat, now: int)
    requires LogOk(log, current, start, stay) && start + stay < now
    ensures LogOk(log, current + 1, now, stay)
  {
  }

  /**
   * Although rejected calls count too, a row, whatever its counter, lets at most the largest of its max_calls through
   * per window, and twice that per period-long interval.
   */
  lemma RateRowBounds(row: RateRow, es: seq<RowEvent>, bound: nat, a: int, b: int)
    requires EventsOrdered(row, es) && MaxWithin(row, es, bound) && b <= a + row.periodMs + 1
    ensures var log := RowRunOf(row, es).log;
            (forall w :: SumWindow(log, w) <= bound) && SumBetween(log, a, b) <= 2 * bound
  {
    hide EventsOrdered, MaxWithin, LogOk, SumWindow, SumBetween;
    RowRunIsOk(row, es, bound);
    var x := RowRunOf(row, es);
    TwiceTheLimit(x.log, x.windows, x.row.windowStart, row.periodMs, bound, a, b);
  }

  function RowAfter(row: RateRow, ats: seq<int>): RateRow {
    if ats == [] then row else Counted(RowAfter(row, ats[..|ats| - 1]), ats[|ats| - 1])
  }

  /** The row after a check more than a period after its window began, and more checks in the period from then on. */
  lemma {:induction false} CountsFromRoll(row: RateRow, ats: seq<int>, i: nat)
    requires 0 < i <= |ats| && ats[0] - row.windowStart > row.periodMs
    requires forall j :: 0 <= j < |ats| ==> ats[0] <= ats[j] <= ats[0] + row.periodMs
    ensures RowAfter(row, ats[..i]) == row.(windowStart := ats[0], calls := i)
    decreases i
  {
    assert ats[..i][..i - 1] == ats[..i - 1];
    if i == 1 {
      assert ats[..0] == [] && RowAfter(row, []) == row;
    } else {
      CountsFromRoll(row, ats, i - 1);
    }
  }

  /** The first max_calls checks of a window fit, and no others. */
  lemma FirstCallsFit(row: RateRow, ats: seq<int>, i: nat)
    requires i < |ats| && ats[0] - row.windowStart > row.periodMs
    requires forall j :: 0 <= j < |ats| ==> ats[0] <= ats[j] <= ats[0] + row.periodMs
    ensures Fits(RowAfter(row, ats[..i]), ats[i]) <==> i < row.maxCalls
  {
    if i > 0 {
      CountsFromRoll(row, ats, i);
    }
  }
}
