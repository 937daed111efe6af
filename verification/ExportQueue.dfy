/**
 * audit-governance-service/src/log-operations.ts: the export queue, with
 * retries, backoff and the manual retry of routes-logs.ts. Time in milliseconds.
 */
module ExportQueue {
  datatype Status = Pending | Delivered | Failed

  datatype Item = Item(status: Status, attempts: nat, nextAt: int, createdAt: int)

  type Queue = map<nat, Item>

  // ---------------------------------------------------------------- backoff

  function Pow2(n: nat): (r: nat)
    ensures r >= 1
  {
    if n == 0 then 1 else 2 * Pow2(n - 1)
  }

  function Min(a: nat, b: nat): nat { if a < b then a else b }

  /** Seconds to wait after the given number of attempts. */
  function DelaySeconds(attempts: nat): nat {
    Min(3_600, 5 * Pow2(Min(attempts, 10)))
  }

  lemma {:induction false} Pow2Monotone(a: nat, b: nat)
    requires a <= b
    ensures Pow2(a) <= Pow2(b)
    decreases b
  {
    if a < b {
      Pow2Monotone(a, b - 1);
    }
  }

  /** The wait never shrinks with the attempts, and lies between 10 seconds and an hour, which it reaches. */
  lemma BackoffBounds(a: nat, b: nat)
    requires 1 <= a <= b
    ensures 10 <= DelaySeconds(a) <= DelaySeconds(b) <= 3_600
    ensures DelaySeconds(b) == 3_600 <==> b >= 10
  {
    assert Pow2(1) == 2 * Pow2(0);
    Pow2Monotone(1, Min(a, 10));
    Pow2Monotone(Min(a, 10), Min(b, 10));
    assert Pow2(10) == 1024 by {
      assert Pow2(5) == 32;
    }
    if b < 10 {
      Pow2Monotone(b, 9);
      assert Pow2(10) == 2 * Pow2(9);
    }
  }

  /** The first wait is 10 seconds, and each attempt in vain doubles it, up to an hour. */
  lemma BackoffDoubles(attempts: nat)
    requires 1 <= attempts
    ensures DelaySeconds(1) == 10
    ensures DelaySeconds(attempts + 1) == if attempts < 9 then 2 * DelaySeconds(attempts) else 3_600
  {
    assert Pow2(1) == 2 * Pow2(0);
    BackoffBounds(attempts, attempts + 1);
    assert attempts < 10 ==> Pow2(attempts + 1) == 2 * Pow2(attempts);
  }

  // ------------------------------------------------------------- statements

  /** What one delivery, successful or not, makes of its row. */
  function Attempted(i: Item, ok: bool, max: nat, now: int): Item {
    if ok then i.(status := Delivered, attempts := i.attempts + 1)
    else
      var attempts := i.attempts + 1;
      i.(status := if attempts >= max then Failed else Pending, attempts := attempts,
         nextAt := now + 1_000 * DelaySeconds(attempts))
  }

  predicate IsDue(i: Item, now: int) { i.status == Pending && i.nextAt <= now }

  function Due(q: Queue, now: int): set<nat> {
    set id | id in q && IsDue(q[id], now)
  }

  /** One sweep over the picked rows; `ok` are those whose POST and whose UPDATE succeeded. */
  function Swept(q: Queue, picked: set<nat>, ok: set<nat>, max: nat, now: int): Queue {
    map id | id in q :: if id in picked then Attempted(q[id], id in ok, max, now) else q[id]
  }

  /** SELECT ... ORDER BY created_at LIMIT 50. */
  ghost predicate Selection(q: Queue, now: int, picked: seq<nat>) {
    && (forall a, b :: 0 <= a < b < |picked| ==> picked[a] != picked[b])
    && (forall a :: 0 <= a < |picked| ==> picked[a] in Due(q, now))
    && |picked| == (if |Due(q, now)| < 50 then |Due(q, now)| else 50)
    && (forall a, id :: 0 <= a < |picked| && id in Due(q, now) && id !in picked[..a] ==>
        q[picked[a]].createdAt <= q[id].createdAt)
  }

  function Ids(picked: seq<nat>): set<nat> { set id | id in picked }

  function CountIn(picked: seq<nat>, ok: set<nat>): nat {
    if picked == [] then 0
    else CountIn(picked[..|picked| - 1], ok) + if picked[|picked| - 1] in ok then 1 else 0
  }

  lemma SweptNothing(q: Queue, ok: set<nat>, max: nat, now: int)
    ensures Swept(q, Ids([]), ok, max, now) == q && CountIn([], ok) == 0
  {
  }

  lemma CountOneMore(picked: seq<nat>, n: nat, ok: set<nat>)
    requires n < |picked|
    ensures CountIn(picked[..n + 1], ok) == CountIn(picked[..n], ok) + if picked[n] in ok then 1 else 0
  {
    assert picked[..n + 1][..n] == picked[..n];
  }

  lemma SelectedRows(q: Queue, now: int, picked: seq<nat>)
    requires Selection(q, now, picked)
    ensures forall a :: 0 <= a < |picked| ==> picked[a] in q && picked[a] !in picked[..a]
  {
  }

  /** One more row of the sweep. */
  lemma SweptOneMore(q: Queue, picked: seq<nat>, n: nat, ok: set<nat>, max: nat, now: int)
    requires n < |picked| && picked[n] in q && picked[n] !in picked[..n]
    ensures var id, before := picked[n], Swept(q, Ids(picked[..n]), ok, max, now);
            && id in before && before[id] == q[id]
            && Swept(q, Ids(picked[..n + 1]), ok, max, now) == before[id := Attempted(q[id], id in ok, max, now)]
  {
    hide Attempted;
    assert picked[..n + 1] == picked[..n] + [picked[n]];
  }

  /** The first n picks, all from due, oldest first. */
  ghost predicate OldestFirst(q: Queue, due: set<nat>, picked: seq<nat>, left: set<nat>)
    requires due <= q.Keys
  {
    && left <= due && |picked| + |left| == |due|
    && (forall a, b :: 0 <= a < b < |picked| ==> picked[a] != picked[b])
    && (forall id :: id in due <==> id in left || id in picked)
    && (forall id :: id in left ==> id !in picked)
    && (forall a, id :: 0 <= a < |picked| && id in due && id !in picked[..a] ==>
        q[picked[a]].createdAt <= q[id].createdAt)
  }

  lemma OldestFirstMore(q: Queue, due: set<nat>, picked: seq<nat>, left: set<nat>, next: nat)
    requires due <= q.Keys && OldestFirst(q, due, picked, left) && next in left
    requires forall b :: b in left ==> q[next].createdAt <= q[b].createdAt
    ensures OldestFirst(q, due, picked + [next], left - {next})
  {
    var more := picked + [next];
    forall a, id | 0 <= a < |more| && id in due && id !in more[..a] ensures q[more[a]].createdAt <= q[id].createdAt {
      if a < |picked| {
        assert more[..a] == picked[..a];
      } else {
        assert more[..a] == picked;
      }
    }
  }

  class ExportWorker {
    var queue: Queue
    const maxAttempts: nat

    constructor (maxAttempts: nat)
      requires 1 <= maxAttempts <= 50
      ensures queue == map[] && this.maxAttempts == maxAttempts
    {
      this.maxAttempts, queue := maxAttempts, map[];
    }

    /** The rows of one sweep, oldest first. */
    method Select(now: int) returns (picked: seq<nat>)
      ensures Selection(queue, now, picked)
    {
      var due := Due(queue, now);
      var left := due;
      picked := [];
      while left != {} && |picked| < 50
        invariant OldestFirst(queue, due, picked, left) && |picked| <= 50
        decreases |left|
      {
        var next := OldestOf(left);
        OldestFirstMore(queue, due, picked, left, next);
        picked, left := picked + [next], left - {next};
      }
    }

    method OldestOf(ids: set<nat>) returns (id: nat)
      requires ids != {} && ids <= queue.Keys
      ensures id in ids && forall b :: b in ids ==> queue[id].createdAt <= queue[b].createdAt
    {
      id :| id in ids;
      var rest := ids - {id};
      while rest != {}
        invariant id in ids && rest <= ids
        invariant forall b :: b in ids - rest ==> queue[id].createdAt <= queue[b].createdAt
      {
        var other :| other in rest;
        if queue[other].createdAt < queue[id].createdAt {
          id := other;
        }
        rest := rest - {other};
      }
    }

    /** The two UPDATE statements: delivered, or one more attempt used and a later time. */
    method Attempt(row: Item, ok: bool, now: int) returns (next: Item)
      ensures next == Attempted(row, ok, maxAttempts, now)
      ensures next.attempts == row.attempts + 1 && next.createdAt == row.createdAt
      ensures ok <==> next.status == Delivered
      ensures !ok ==> next.nextAt >= now + 10_000 && (next.status == Failed <==> next.attempts >= maxAttempts)
    {
      if ok {
        return row.(status := Delivered, attempts := row.attempts + 1);
      }
      BackoffBounds(row.attempts + 1, row.attempts + 1);
      var attempts := row.attempts + 1;
      var terminal := attempts >= maxAttempts;
      var delaySeconds := DelaySeconds(attempts);
      return row.(status := if terminal then Failed else Pending, attempts := attempts,
                  nextAt := now + 1_000 * delaySeconds);
    }

    /** processLogExportQueue: each selected row is delivered or rescheduled, once, and no other row moves. */
    method Process(now: int, ok: set<nat>) returns (picked: seq<nat>, delivered: nat, failed: nat)
      modifies this
      ensures Selection(old(queue), now, picked)
      ensures queue == Swept(old(queue), Ids(picked), ok, maxAttempts, now)
      ensures delivered == CountIn(picked, ok) && delivered + failed == |picked|
    {
      picked := Select(now);
      delivered, failed := 0, 0;
      ghost var start := queue;
      SweptNothing(start, ok, maxAttempts, now);
      SelectedRows(start, now, picked);
      hide Swept, Selection, Ids, Attempted, CountIn;
      var n := 0;
      while n < |picked|
        invariant 0 <= n <= |picked| && delivered + failed == n
        invariant queue == Swept(start, Ids(picked[..n]), ok, maxAttempts, now)
        invariant delivered == CountIn(picked[..n], ok)
      {
        var id := picked[n];
        SweptOneMore(start, picked, n, ok, maxAttempts, now);
        CountOneMore(picked, n, ok);
        var row := Attempt(queue[id], id in ok, now);
        queue := queue[id := row];
        if id in ok {
          delivered := delivered + 1;
        } else {
          failed := failed + 1;
        }
        n := n + 1;
      }
      assert picked[..n] == picked;
    }

    /** POST /logs/exports/:id/retry */
    method Retry(id: nat, now: int) returns (ok: bool)
      modifies this
      ensures ok <==> id in old(queue) && old(queue)[id].status == Failed
      ensures queue == Step(old(queue), RetryRow(id, now), maxAttempts)
      ensures !ok ==> queue == old(queue)
      ensures ok ==> id in queue && queue[id].attempts == 0 && IsDue(queue[id], now)
      ensures queue.Keys == old(queue).Keys && forall other <- queue :: other != id ==>
          queue[other] == old(queue)[other]
    {
      ok := id in queue && queue[id].status == Failed;
      if ok {
        queue := queue[id := queue[id].(status := Pending, attempts := 0, nextAt := now)];
      }
    }
  }

  // --------------------------------------------------------------- whole runs

  datatype Op =
    | Enqueue(id: nat, now: int)
    | Sweep(now: int, picked: set<nat>, ok: set<nat>)
    | RetryRow(id: nat, now: int)

  function Step(q: Queue, op: Op, max: nat): Queue {
    match op
    case Enqueue(id, now) => if id in q then q else q[id := Item(Pending, 0, now, now)]
    case Sweep(now, picked, ok) => Swept(q, picked * Due(q, now), ok, max, now)
    case RetryRow(id, now) =>
      if id in q && q[id].status == Failed then q[id := q[id].(status := Pending, attempts := 0, nextAt := now)] else q
  }

  function At(ops: seq<Op>, n: nat, max: nat): Queue
    requires n <= |ops|
  {
    if n == 0 then map[] else Step(At(ops, n - 1, max), ops[n - 1], max)
  }

  lemma {:induction false} AtPrefix(ops: seq<Op>, op: Op, n: nat, max: nat)
    requires n <= |ops|
    ensures At(ops + [op], n, max) == At(ops, n, max)
  {
    hide Step;
    if n > 0 {
      AtPrefix(ops, op, n - 1, max);
    }
  }

  /** A row enqueued at time 0 and posted every hour. */
  function Hourly(id: nat, n: nat): (ops: seq<Op>)
    ensures |ops| == n + 1
  {
    if n == 0 then [Enqueue(id, 0)] else Hourly(id, n - 1) + [Sweep(3_600_000 * n, {id}, {})]
  }

  lemma AttemptInVain(q: Queue, id: nat, now: int, max: nat)
    requires id in q && q[id].status == Pending && q[id].nextAt <= now
    ensures var t := Step(q, Sweep(now, {id}, {}), max);
            && id in t && t[id].attempts == q[id].attempts + 1
            && t[id].status == (if q[id].attempts + 1 >= max then Failed else Pending)
            && t[id].nextAt <= now + 3_600_000
  {
    BackoffBounds(q[id].attempts + 1, q[id].attempts + 1);
    hide DelaySeconds;
  }

  /** If every post is in vain, an hourly row uses one attempt a time, and fails with the last one. */
  lemma {:induction false} HourlyFails(id: nat, n: nat, max: nat)
    requires n <= max && 1 <= max
    ensures var q := At(Hourly(id, n), n + 1, max);
            && id in q && q[id].attempts == n && q[id].status == (if n == max then Failed else Pending)
            && q[id].nextAt <= 3_600_000 * (n + 1)
  {
    hide Step;
    if n == 0 {
      FirstRow(id, max);
    } else {
      var op := Sweep(3_600_000 * n, {id}, {});
      HourlyFails(id, n - 1, max);
      AtPrefix(Hourly(id, n - 1), op, n, max);
      AttemptInVain(At(Hourly(id, n), n, max), id, 3_600_000 * n, max);
    }
  }

  lemma FirstRow(id: nat, max: nat)
    ensures At([Enqueue(id, 0)], 1, max) == map[id := Item(Pending, 0, 0, 0)]
  {
    assert At([Enqueue(id, 0)], 0, max) == map[];
  }

  /** Operation n posts row id. */
  predicate Posts(ops: seq<Op>, n: nat, id: nat, max: nat)
    requires n < |ops|
  {
    ops[n].Sweep? && id in ops[n].picked && id in Due(At(ops, n, max), ops[n].now)
  }

  predicate ItemOk(i: Item, max: nat) {
    && (i.status == Pending ==> i.attempts < max)
    && (i.status == Failed ==> i.attempts == max)
    && i.attempts <= max
  }

  /** In every reachable queue: pending means attempts left, failed means none. */
  lemma {:induction false} AttemptsFitStatus(ops: seq<Op>, n: nat, max: nat, id: nat)
    requires n <= |ops| && 1 <= max && id in At(ops, n, max)
    ensures ItemOk(At(ops, n, max)[id], max)
    decreases n
  {
    hide DelaySeconds;
    if id in At(ops, n - 1, max) {
      AttemptsFitStatus(ops, n - 1, max, id);
    }
  }

  lemma {:induction false} RowsStay(ops: seq<Op>, m: nat, n: nat, max: nat, id: nat)
    requires m <= n <= |ops| && id in At(ops, m, max)
    ensures id in At(ops, n, max)
    decreases n
  {
    hide DelaySeconds;
    if m < n {
      RowsStay(ops, m, n - 1, max, id);
    }
  }

  /** Delivered is final. */
  lemma {:induction false} DeliveredIsFinal(ops: seq<Op>, m: nat, n: nat, max: nat, id: nat)
    requires m <= n <= |ops| && id in At(ops, m, max) && At(ops, m, max)[id].status == Delivered
    ensures id in At(ops, n, max) && At(ops, n, max)[id] == At(ops, m, max)[id]
    decreases n
  {
    hide DelaySeconds;
    if m < n {
      DeliveredIsFinal(ops, m, n - 1, max, id);
    }
  }

  /** Delivered means that some sweep posted the row successfully. */
  lemma {:induction false} DeliveredWasPosted(ops: seq<Op>, n: nat, max: nat, id: nat) returns (m: nat)
    requires n <= |ops| && id in At(ops, n, max) && At(ops, n, max)[id].status == Delivered
    ensures m < n && Posts(ops, m, id, max) && id in ops[m].ok
    decreases n
  {
    hide DelaySeconds;
    if id in At(ops, n - 1, max) && At(ops, n - 1, max)[id].status == Delivered {
      m := DeliveredWasPosted(ops, n - 1, max, id);
    } else {
      m := n - 1;
    }
  }

  function PostCount(ops: seq<Op>, m: nat, n: nat, id: nat, max: nat): nat
    requires m <= n <= |ops|
    decreases n
  {
    if m == n then 0 else PostCount(ops, m, n - 1, id, max) + if Posts(ops, n - 1, id, max) then 1 else 0
  }

  /** Between manual retries every post uses up one attempt, so a row is posted at most max times. */
  lemma {:induction false} PostsUseAttempts(ops: seq<Op>, m: nat, n: nat, id: nat, max: nat)
    requires m <= n <= |ops| && 1 <= max && id in At(ops, m, max)
    requires forall i, now :: m <= i < n ==> ops[i] != RetryRow(id, now)
    ensures id in At(ops, n, max)
    ensures PostCount(ops, m, n, id, max) == At(ops, n, max)[id].attempts - At(ops, m, max)[id].attempts
    ensures PostCount(ops, m, n, id, max) <= max
    decreases n
  {
    hide DelaySeconds;
    if m < n {
      PostsUseAttempts(ops, m, n - 1, id, max);
      assert ops[n - 1].RetryRow? ==> ops[n - 1].id != id;
    }
    RowsStay(ops, m, n, max, id);
    AttemptsFitStatus(ops, n, max, id);
  }

  /** A row that was posted in vain is not posted again before its delay is over, unless it is retried by hand. */
  lemma {:induction false} NoEarlyRetry(ops: seq<Op>, m: nat, n: nat, id: nat, max: nat)
    requires m < n < |ops| && Posts(ops, m, id, max) && id !in ops[m].ok && Posts(ops, n, id, max)
    requires forall i, now :: m < i < n ==> ops[i] != RetryRow(id, now)
    requires forall i :: m < i < n ==> !Posts(ops, i, id, max)
    ensures ops[n].now >= ops[m].now + 1_000 * DelaySeconds(At(ops, m, max)[id].attempts + 1)
  {
    RowUntouched(ops, m + 1, n, id, max);
  }

  lemma {:induction false} RowUntouched(ops: seq<Op>, m: nat, n: nat, id: nat, max: nat)
    requires m <= n <= |ops| && id in At(ops, m, max)
    requires forall i, now :: m <= i < n ==> ops[i] != RetryRow(id, now)
    requires forall i :: m <= i < n ==> !Posts(ops, i, id, max)
    ensures id in At(ops, n, max) && At(ops, n, max)[id] == At(ops, m, max)[id]
    decreases n
  {
    hide DelaySeconds;
    if m < n {
      RowUntouched(ops, m, n - 1, id, max);
      assert !Posts(ops, n - 1, id, max) && (ops[n - 1].RetryRow? ==> ops[n - 1].id != id);
    }
  }
}
