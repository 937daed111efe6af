/**
 * audit-governance-service/src/log-operations.ts, evaluateLogAlerts, with the
 * acknowledge route of routes-logs.ts. Times are in milliseconds.
 */
module Alerts {
  import opened Options

  const MINUTE: int := 60_000

  datatype Log = Log(ts: int, service: string, level: string)

  datatype Rule = Rule(id: nat, service: Option<string>, windowMinutes: nat, minimumEvents: nat,
                       errorRateThreshold: real, maxSilenceMinutes: Option<nat>, exportTarget: Option<string>)

  // --------------------------------------------------------------- violation

  predicate Matches(rule: Rule, l: Log, since: int) {
    since <= l.ts && (rule.service.Some? ==> l.service == rule.service.value)
  }

  datatype Stats = Stats(total: nat, errors: nat, newest: Option<int>)

  /** COUNT, COUNT FILTER and MAX over the window of the rule. */
  function StatsOf(rule: Rule, logs: seq<Log>, now: int): Stats {
    if logs == [] then Stats(0, 0, None)
    else
      var s, l := StatsOf(rule, logs[..|logs| - 1], now), logs[|logs| - 1];
      if !Matches(rule, l, now - rule.windowMinutes * MINUTE) then s
      else Stats(s.total + 1, s.errors + (if l.level == "error" || l.level == "fatal" then 1 else 0),
                 Some(if s.newest.Some? && l.ts < s.newest.value then s.newest.value else l.ts))
  }

  predicate RateFires(rule: Rule, s: Stats) {
    s.total >= rule.minimumEvents &&
        (if s.total > 0 then s.errors as real / s.total as real else 0.0) > rule.errorRateThreshold
  }

  /** An empty window counts as silent for ever. */
  predicate SilenceFires(rule: Rule, s: Stats, now: int) {
    rule.maxSilenceMinutes.Some? && rule.maxSilenceMinutes.value != 0 &&
    (s.newest.None? || now - s.newest.value > rule.maxSilenceMinutes.value * MINUTE)
  }

  predicate Violated(rule: Rule, logs: seq<Log>, now: int) {
    var s := StatsOf(rule, logs, now);
    RateFires(rule, s) || SilenceFires(rule, s, now)
  }

  // What the two rules say of the logs themselves.

  /** A log of the rule's service, not older than some minutes. */
  predicate Concerns(rule: Rule, l: Log, now: int, minutes: nat) {
    && l.ts >= now - minutes * 60_000
    && match rule.service
       case None => true
       case Some(service) => l.service == service
  }

  /** No log of the rule in the last m minutes. */
  predicate QuietFor(rule: Rule, logs: seq<Log>, now: int, m: nat) {
    forall l <- logs :: !Concerns(rule, l, now, m)
  }

  /** The places of the logs in the window of the rule. */
  function InWindow(rule: Rule, logs: seq<Log>, now: int): set<nat> {
    set i: nat | i < |logs| && Concerns(rule, logs[i], now, rule.windowMinutes)
  }

  function ErrorsInWindow(rule: Rule, logs: seq<Log>, now: int): set<nat> {
    set i: nat | i < |logs| && Concerns(rule, logs[i], now, rule.windowMinutes) && logs[i].level in {"error", "fatal"}
  }

  lemma MatchesIff(rule: Rule, l: Log, now: int, m: nat)
    ensures Matches(rule, l, now - m * MINUTE) <==> Concerns(rule, l, now, m)
  {
  }

  lemma OneMoreLog(rule: Rule, logs: seq<Log>, now: int)
    requires logs != []
    ensures var n := |logs| - 1;
            var front, here := logs[..n], Concerns(rule, logs[n], now, rule.windowMinutes);
            && InWindow(rule, logs, now) == InWindow(rule, front, now) + (if here then {n} else {})
            && ErrorsInWindow(rule, logs, now)
               == ErrorsInWindow(rule, front, now) + (if here && logs[n].level in {"error", "fatal"} then {n} else {})
            && n !in InWindow(rule, front, now) && n !in ErrorsInWindow(rule, front, now)
  {
    hide Concerns;
  }

  /** The query counts the logs in the window, and the errors among them. */
  lemma {:induction false} StatsCount(rule: Rule, logs: seq<Log>, now: int)
    ensures var s := StatsOf(rule, logs, now);
            s.total == |InWindow(rule, logs, now)| && s.errors == |ErrorsInWindow(rule, logs, now)|
  {
    if logs == [] {
      assert InWindow(rule, logs, now) == {} == ErrorsInWindow(rule, logs, now);
    } else {
      var n := |logs| - 1;
      StatsCount(rule, logs[..n], now);
      OneMoreLog(rule, logs, now);
      MatchesIff(rule, logs[n], now, rule.windowMinutes);
      hide InWindow, ErrorsInWindow, Concerns, Matches;
    }
  }

  lemma {:induction false} NewestOf(rule: Rule, logs: seq<Log>, now: int)
    ensures var s := StatsOf(rule, logs, now);
            && (s.newest.None? <==> QuietFor(rule, logs, now, rule.windowMinutes))
            && (forall l <- logs :: Concerns(rule, l, now, rule.windowMinutes) ==>
                s.newest.Some? && l.ts <= s.newest.value)
            && (s.newest.Some? ==>
                exists l <- logs :: Concerns(rule, l, now, rule.windowMinutes) && l.ts == s.newest.value)
  {
    if logs != [] {
      var n := |logs| - 1;
      var rest, l := logs[..n], logs[n];
      NewestOf(rule, rest, now);
      MatchesIff(rule, l, now, rule.windowMinutes);
      hide Concerns, Matches;
      assert forall k <- logs :: k == l || k in rest;
      assert l in logs && forall k <- rest :: k in logs;
    }
  }

  function Least(a: nat, b: nat): nat { if a < b then a else b }

  /** The silence that raises an incident is the smaller of the rule's silence, if not 0, and its window. */
  lemma SilenceMeans(rule: Rule, logs: seq<Log>, now: int)
    requires rule.maxSilenceMinutes.Some?
    ensures SilenceFires(rule, StatsOf(rule, logs, now), now)
       <==> rule.maxSilenceMinutes.value != 0 &&
            QuietFor(rule, logs, now, Least(rule.windowMinutes, rule.maxSilenceMinutes.value))
  {
    NewestOf(rule, logs, now);
    hide StatsOf;
    var s, w, m := StatsOf(rule, logs, now), rule.windowMinutes, rule.maxSilenceMinutes.value;
    if s.newest.Some? {
      var l :| l in logs && Concerns(rule, l, now, w) && l.ts == s.newest.value;
      if now - l.ts <= m * MINUTE {
        assert Concerns(rule, l, now, Least(w, m));
      }
    }
  }

  /** So it is the configured silence, for all logs, exactly when that is not longer than the window, and not 0. */
  lemma SilenceAsConfiguredIff(rule: Rule, now: int)
    requires rule.maxSilenceMinutes.Some?
    ensures 0 < rule.maxSilenceMinutes.value <= rule.windowMinutes <==>
              forall logs :: SilenceFires(rule, StatsOf(rule, logs, now), now)
                        <==> QuietFor(rule, logs, now, rule.maxSilenceMinutes.value)
  {
    var w, m := rule.windowMinutes, rule.maxSilenceMinutes.value;
    forall logs
      ensures SilenceFires(rule, StatsOf(rule, logs, now), now) <==> m != 0 && QuietFor(rule, logs, now, Least(w, m))
    {
      SilenceMeans(rule, logs, now);
    }
    hide StatsOf, SilenceFires;
    if m == 0 {
      assert QuietFor(rule, [], now, m);
    } else if w < m {
      var l := Log(now - w * 60_000 - 1, if rule.service.Some? then rule.service.value else "", "info");
      assert QuietFor(rule, [l], now, Least(w, m));
      assert l in [l] && Concerns(rule, l, now, m);
      assert !QuietFor(rule, [l], now, m);
    }
  }

  /**
   * What a rule asks for: enough logs in its window, with too large a share of errors, or no log of its service for
   * the smaller of the configured silence and the window.
   */
  predicate Unhealthy(rule: Rule, logs: seq<Log>, now: int) {
    var n, errors := |InWindow(rule, logs, now)|, |ErrorsInWindow(rule, logs, now)|;
    || (n >= rule.minimumEvents &&
        (if n == 0 then 0.0 > rule.errorRateThreshold else errors as real / n as real > rule.errorRateThreshold))
    || (rule.maxSilenceMinutes.Some? && rule.maxSilenceMinutes.value != 0 &&
        QuietFor(rule, logs, now, Least(rule.windowMinutes, rule.maxSilenceMinutes.value)))
  }

  /** The verdict computed from the query says just that of the logs. */
  lemma ViolatedMeans(rule: Rule, logs: seq<Log>, now: int)
    ensures Violated(rule, logs, now) <==> Unhealthy(rule, logs, now)
  {
    StatsCount(rule, logs, now);
    if rule.maxSilenceMinutes.Some? {
      SilenceMeans(rule, logs, now);
    }
    hide StatsOf, InWindow, ErrorsInWindow, QuietFor;
  }

  // ----------------------------------------------- incidents, step by step

  datatype Status = Open | Acknowledged | Resolved

  datatype Incident = Incident(rule: nat, status: Status)

  predicate Active(i: Incident) { i.status != Resolved }

  type Incidents = map<nat, Incident>

  predicate IsActiveOf(table: Incidents, rule: nat,
                       id: nat) { id in table && table[id].rule == rule && Active(table[id]) }

  predicate HasActive(table: Incidents, rule: nat) { exists id <- table :: IsActiveOf(table, rule, id) }

  /** The local variables of the one running evaluation, between two statements. */
  datatype Sweep =
    | Idle
    | Measured(rule: Rule, violated: bool)
    | Selected(rule: Rule, violated: bool, found: Option<nat>)
    | Opened(incident: nat)

  /**
   * `queued` holds, for each incident, how many export rows were inserted for it; `deleted` the rules that are gone.
   */
  datatype State = State(logs: seq<Log>, incidents: Incidents, nextId: nat, queued: map<nat, nat>, deleted: set<nat>,
                         sweep: Sweep)

  /** The statements of an evaluation of one rule, in order, and those of other requests. */
  datatype Action =
    | Measure(rule: Rule, now: int)
    | Find(found: Option<nat>)
    | Act
    | QueueExport(targets: nat)
    | ChangeLogs(logs: seq<Log>)
    | Acknowledge(id: nat)
    | DeleteRule(ruleId: nat)
    | Stop

  /** A query may find any active incident of its rule, and None only if there is none. */
  predicate Finds(table: Incidents, rule: nat, found: Option<nat>) {
    if found.Some? then IsActiveOf(table, rule, found.value) else !HasActive(table, rule)
  }

  predicate Enabled(s: State, a: Action) {
    match a
    case Measure(_, _) => s.sweep == Idle
    case Find(found) => s.sweep.Measured? && Finds(s.incidents, s.sweep.rule.id, found)
    case Act => s.sweep.Selected?
    case QueueExport(_) => s.sweep.Opened?
    case _ => true
  }

  function Next(s: State, a: Action): State {
    match a
    case Measure(rule, now) => s.(sweep := Measured(rule, Violated(rule, s.logs, now)))
    case Find(found) => if s.sweep.Measured? then s.(sweep := Selected(s.sweep.rule, s.sweep.violated, found)) else s
    case Act => if s.sweep.Selected? then Write(s, s.sweep.rule, s.sweep.violated, s.sweep.found) else s
    case QueueExport(n) =>
      if s.sweep.Opened?
      then s.(queued := s.queued[s.sweep.incident := Queued(s, s.sweep.incident) + n], sweep := Idle) else s
    case ChangeLogs(logs) => s.(logs := logs)
    case Acknowledge(id) =>
      if id in s.incidents && s.incidents[id].status == Open
      then s.(incidents := s.incidents[id := s.incidents[id].(status := Acknowledged)]) else s
    case DeleteRule(rule) =>
      s.(incidents := map id | id in s.incidents && s.incidents[id].rule != rule :: s.incidents[id],
         deleted := s.deleted + {rule})
    case Stop => s.(sweep := Idle)
  }

  predicate WantsExport(rule: Rule) { rule.exportTarget.Some? && rule.exportTarget.value != "" }

  /** The UPDATE or INSERT a verdict leads to. */
  function Write(s: State, rule: Rule, violated: bool, found: Option<nat>): State {
    if violated then
      if found.Some? then s.(sweep := Idle)    // only columns that are not modelled
      else if rule.id in s.deleted then s.(sweep := Idle)    // the foreign key refuses the row
      else s.(incidents := s.incidents[s.nextId := Incident(rule.id, Open)], nextId := s.nextId + 1,
              sweep := if WantsExport(rule) then Opened(s.nextId) else Idle)
    else if found.Some? && found.value in s.incidents then
      s.(incidents := s.incidents[found.value := s.incidents[found.value].(status := Resolved)], sweep := Idle)
    else s.(sweep := Idle)
  }

  function Queued(s: State, id: nat): nat { if id in s.queued then s.queued[id] else 0 }

  predicate AtMostOneActive(table: Incidents) {
    forall a <- table, b <- table :: table[a].rule == table[b].rule && Active(table[a]) && Active(table[b]) ==> a == b
  }

  predicate TableOk(s: State) {
    && AtMostOneActive(s.incidents)
    && (forall id <- s.incidents :: id < s.nextId && s.incidents[id].rule !in s.deleted)
    && (forall id <- s.queued :: id < s.nextId)
  }

  /** What the evaluation found still holds, except for the incidents of a rule deleted since. */
  predicate SweepOk(s: State) {
    match s.sweep
    case Idle => true
    case Measured(_, _) => true
    case Selected(rule, _, found) =>
      (match found
       case Some(id) =>
         id < s.nextId && if id in s.incidents then IsActiveOf(s.incidents, rule.id, id) else rule.id in s.deleted
       case None => !HasActive(s.incidents, rule.id))
    case Opened(id) => id < s.nextId && id !in s.queued
  }

  predicate Inv(s: State) { TableOk(s) && SweepOk(s) }

  lemma WriteKeepsInv(s: State)
    requires Inv(s) && s.sweep.Selected?
    ensures Inv(Next(s, Act))
  {
    var rule, found := s.sweep.rule, s.sweep.found;
    if s.sweep.violated && found.None? {
      assert forall id <- s.incidents :: !IsActiveOf(s.incidents, rule.id, id);
    }
  }

  lemma DeleteKeepsInv(s: State, rule: nat)
    requires Inv(s)
    ensures Inv(Next(s, DeleteRule(rule)))
  {
    var t := Next(s, DeleteRule(rule));
    if s.sweep.Selected? && HasActive(t.incidents, s.sweep.rule.id) {
      var id :| id in t.incidents && IsActiveOf(t.incidents, s.sweep.rule.id, id);
      assert IsActiveOf(s.incidents, s.sweep.rule.id, id);
    }
  }

  lemma AcknowledgeKeepsInv(s: State, id: nat)
    requires Inv(s)
    ensures Inv(Next(s, Acknowledge(id)))
  {
    var t := Next(s, Acknowledge(id));
    if s.sweep.Selected? && HasActive(t.incidents, s.sweep.rule.id) {
      var i :| i in t.incidents && IsActiveOf(t.incidents, s.sweep.rule.id, i);
      assert IsActiveOf(s.incidents, s.sweep.rule.id, i);
    }
  }

  /** Every statement keeps at most one active incident per rule, whatever interleaves. */
  lemma NextKeepsInv(s: State, a: Action)
    requires Inv(s) && Enabled(s, a)
    ensures Inv(Next(s, a))
  {
    hide Violated;
    match a
    case Act => WriteKeepsInv(s);
    case DeleteRule(rule) => DeleteKeepsInv(s, rule);
    case Acknowledge(id) => AcknowledgeKeepsInv(s, id);
    case _ => hide AtMostOneActive, HasActive;
  }

  const START := State([], map[], 0, map[], {}, Idle)

  function At(steps: seq<Action>, n: nat): State
    requires n <= |steps|
  {
    if n == 0 then START else Next(At(steps, n - 1), steps[n - 1])
  }

  predicate Run(steps: seq<Action>) {
    forall n :: 0 <= n < |steps| ==> Enabled(At(steps, n), steps[n])
  }

  lemma {:induction false} AlwaysOneActive(steps: seq<Action>, n: nat)
    requires Run(steps) && n <= |steps|
    ensures Inv(At(steps, n))
    decreases n
  {
    hide Inv, Next;
    if n > 0 {
      AlwaysOneActive(steps, n - 1);
      NextKeepsInv(At(steps, n - 1), steps[n - 1]);
    } else {
      StartOk();
    }
  }

  lemma StartOk()
    ensures Inv(START)
  {
  }

  function Rank(s: Status): nat { match s case Open => 0 case Acknowledged => 1 case Resolved => 2 }

  /** What one statement can do to one incident. */
  lemma OneStep(s: State, a: Action, id: nat)
    requires Inv(s) && Enabled(s, a)
    ensures var t := Next(s, a);
            && s.nextId <= t.nextId
            && (id in t.incidents && id !in s.incidents ==> id == s.nextId)
            && (id in s.incidents && id in t.incidents ==>
                  t.incidents[id].rule == s.incidents[id].rule &&
                      Rank(s.incidents[id].status) <= Rank(t.incidents[id].status))
            && (id in s.queued ==> id in t.queued && t.queued[id] == s.queued[id])
            && (a.QueueExport? && s.sweep == Opened(id) ==>
                  id !in s.queued && id in t.queued && t.queued[id] == a.targets)
  {
    hide Violated, AtMostOneActive, HasActive;
  }

  lemma IdsBelowNext(s: State, id: nat)
    requires Inv(s) && id in s.incidents
    ensures id < s.nextId
  {
  }

  /** The same, at step n of a run. */
  lemma StepOfRun(steps: seq<Action>, n: nat, id: nat)
    requires Run(steps) && n < |steps|
    ensures var s, t := At(steps, n), At(steps, n + 1);
            && (id in s.incidents ==> id < s.nextId) && s.nextId <= t.nextId
            && (id in t.incidents && id !in s.incidents ==> id == s.nextId)
            && (id in s.incidents && id in t.incidents ==>
                  t.incidents[id].rule == s.incidents[id].rule &&
                      Rank(s.incidents[id].status) <= Rank(t.incidents[id].status))
            && (id in s.queued ==> id in t.queued && t.queued[id] == s.queued[id])
            && (Exports(steps, n, id) ==> id !in s.queued && id in t.queued && t.queued[id] == steps[n].targets)
  {
    hide Next, Inv, Rank;
    AlwaysOneActive(steps, n);
    OneStep(At(steps, n), steps[n], id);
    if id in At(steps, n).incidents {
      IdsBelowNext(At(steps, n), id);
    }
  }

  lemma {:induction false} IdsGrow(steps: seq<Action>, m: nat, n: nat)
    requires Run(steps) && m <= n <= |steps|
    ensures At(steps, m).nextId <= At(steps, n).nextId
    decreases n
  {
    hide *;
    if m < n {
      StepOfRun(steps, n - 1, 0);
      IdsGrow(steps, m, n - 1);
    }
  }

  /**
   * Resolved is terminal, and an acknowledgement is never undone, by violations or otherwise: an
   * incident seen twice was there all the time (ids are not reused), and its status only moved on.
   */
  lemma {:induction false} IncidentsGoForward(steps: seq<Action>, m: nat, n: nat, id: nat)
    requires Run(steps) && m <= n <= |steps| && id in At(steps, m).incidents && id in At(steps, n).incidents
    ensures At(steps, n).incidents[id].rule == At(steps, m).incidents[id].rule
    ensures Rank(At(steps, m).incidents[id].status) <= Rank(At(steps, n).incidents[id].status)
    decreases n
  {
    hide *;
    if m < n {
      StepOfRun(steps, m, id);
      IdsGrow(steps, m, n - 1);
      StepOfRun(steps, n - 1, id);
      IncidentsGoForward(steps, m, n - 1, id);
    }
  }

  // -------------------------------------------- what a pass leaves behind

  /** The write on a rule leaves it with an active incident exactly when it was found violated and still exists. */
  lemma ActMeans(s: State)
    requires Inv(s) && s.sweep.Selected?
    ensures HasActive(Next(s, Act).incidents, s.sweep.rule.id) <==> s.sweep.violated && s.sweep.rule.id !in s.deleted
  {
    var rule, found, t := s.sweep.rule.id, s.sweep.found, Next(s, Act);
    if s.sweep.violated && rule !in s.deleted {
      assert IsActiveOf(t.incidents, rule, if found.Some? then found.value else s.nextId);
    } else if found.Some? && found.value in s.incidents {
      assert forall id <- s.incidents :: IsActiveOf(s.incidents, rule, id) ==> id == found.value;
    } else {
      assert t.incidents == s.incidents;
      assert forall id <- s.incidents :: !IsActiveOf(s.incidents, rule, id);
    }
  }

  predicate ActsOn(s: State, a: Action, rule: nat) { a == Act && s.sweep.Selected? && s.sweep.rule.id == rule }

  /** No other statement gives a rule an active incident or takes it away, except by deleting the rule. */
  lemma OthersKeepActive(s: State, a: Action, rule: nat)
    requires Inv(s) && Enabled(s, a) && !ActsOn(s, a, rule)
    ensures var t := Next(s, a);
            HasActive(t.incidents, rule) <==> HasActive(s.incidents, rule) && rule !in t.deleted
  {
    hide Violated, AtMostOneActive;
    var t := Next(s, a);
    if rule !in t.deleted && HasActive(s.incidents, rule) {
      var id :| id in s.incidents && IsActiveOf(s.incidents, rule, id);
      assert IsActiveOf(t.incidents, rule, id);
    }
    if HasActive(t.incidents, rule) {
      var id :| id in t.incidents && IsActiveOf(t.incidents, rule, id);
      assert IsActiveOf(s.incidents, rule, id);
    }
  }

  /** Step n is a write of a pass on the rule, and the last one before m. */
  predicate LastWrite(steps: seq<Action>, n: nat, m: nat, rule: nat) {
    && n < m <= |steps| && ActsOn(At(steps, n), steps[n], rule)
    && forall i :: n < i < m ==> !ActsOn(At(steps, i), steps[i], rule)
  }

  lemma DeletedStays(s: State, a: Action)
    ensures s.deleted <= Next(s, a).deleted
    ensures a == Act ==> Next(s, a).deleted == s.deleted
  {
    hide Violated;
  }

  /** From the last write on, the rule has an active incident while it exists, if it was found violated. */
  lemma {:induction false} ActiveStays(steps: seq<Action>, n: nat, m: nat, rule: nat)
    requires Run(steps) && LastWrite(steps, n, m, rule)
    ensures HasActive(At(steps, m).incidents, rule) <==>
              At(steps, n).sweep.violated && rule !in At(steps, m).deleted
    decreases m
  {
    hide Inv, Next, HasActive, Enabled;
    AlwaysOneActive(steps, m - 1);
    DeletedStays(At(steps, m - 1), steps[m - 1]);
    if n + 1 < m {
      ActiveStays(steps, n, m - 1, rule);
      OthersKeepActive(At(steps, m - 1), steps[m - 1], rule);
    } else {
      ActMeans(At(steps, n));
    }
  }

  /** Step k is the last measurement before n, and one of the rule. */
  predicate LastMeasure(steps: seq<Action>, k: nat, n: nat, rule: nat) {
    && k < n <= |steps| && steps[k].Measure? && steps[k].rule.id == rule
    && forall i :: k < i < n ==> !steps[i].Measure?
  }

  /** What the rule measured at step k asks of the logs as they were then. */
  predicate VerdictAt(steps: seq<Action>, k: nat)
    requires k < |steps| && steps[k].Measure?
  {
    Unhealthy(steps[k].rule, At(steps, k).logs, steps[k].now)
  }

  predicate Underway(s: State) { s.sweep.Measured? || s.sweep.Selected? }

  lemma SweepComesFrom(s: State, a: Action)
    requires Enabled(s, a) && Underway(Next(s, a))
    ensures a.Measure? ==> Next(s, a).sweep == Measured(a.rule, Unhealthy(a.rule, s.logs, a.now))
    ensures !a.Measure? ==> Underway(s) && Next(s, a).sweep.rule == s.sweep.rule &&
                            Next(s, a).sweep.violated == s.sweep.violated
  {
    if a.Measure? {
      ViolatedMeans(a.rule, s.logs, a.now);
    }
    hide Violated, Unhealthy;
  }

  /** The verdict a pass holds, whatever happened since, is the one of its last measurement. */
  lemma {:induction false} VerdictIsMeasured(steps: seq<Action>, n: nat) returns (k: nat)
    requires Run(steps) && n <= |steps| && Underway(At(steps, n))
    ensures LastMeasure(steps, k, n, At(steps, n).sweep.rule.id)
    ensures At(steps, n).sweep.violated <==> VerdictAt(steps, k)
    decreases n
  {
    hide Next, Enabled, Violated, Unhealthy;
    SweepComesFrom(At(steps, n - 1), steps[n - 1]);
    if steps[n - 1].Measure? {
      k := n - 1;
    } else {
      k := VerdictIsMeasured(steps, n - 1);
    }
  }

  /** At m the rule has an active incident exactly when the logs at step k violated it and it still exists. */
  predicate StandsAsMeasured(steps: seq<Action>, k: nat, m: nat, rule: nat)
    requires k < m <= |steps| && steps[k].Measure?
  {
    HasActive(At(steps, m).incidents, rule) <==> VerdictAt(steps, k) && rule !in At(steps, m).deleted
  }

  /**
   * In every run, with acknowledgements, deletions, new logs and other rules in between: from the
   * write of a pass on a rule up to the next one, the rule stands as the pass measured it.
   */
  lemma PassMeans(steps: seq<Action>, n: nat, m: nat, rule: nat) returns (k: nat)
    requires Run(steps) && LastWrite(steps, n, m, rule)
    ensures LastMeasure(steps, k, n, rule) && StandsAsMeasured(steps, k, m, rule)
  {
    hide Inv, Next, HasActive, Violated, Unhealthy;
    k := VerdictIsMeasured(steps, n);
    ActiveStays(steps, n, m, rule);
  }

  lemma {:induction false} LastWriteAfter(steps: seq<Action>, i: nat, m: nat, rule: nat) returns (n: nat)
    requires i < m <= |steps| && ActsOn(At(steps, i), steps[i], rule)
    ensures i <= n && LastWrite(steps, n, m, rule)
    decreases m - i
  {
    hide ActsOn;
    if j :| i < j < m && ActsOn(At(steps, j), steps[j], rule) {
      n := LastWriteAfter(steps, j, m, rule);
    } else {
      n := i;
    }
  }

  /** Between a and m, a pass that starts at a writes on the rule. */
  predicate Covers(steps: seq<Action>, a: nat, m: nat, rule: nat)
    requires m <= |steps|
  {
    exists i :: a <= i < m && ActsOn(At(steps, i), steps[i], rule)
  }

  /**
   * After a complete pass every rule it covered stands as measured in that pass, at its last
   * measurement before its last write, whatever other statements came in between.
   */
  lemma CompletePass(steps: seq<Action>, a: nat, m: nat, rules: set<nat>)
    requires Run(steps) && a <= m <= |steps| && At(steps, a).sweep == Idle
    requires forall r <- rules :: Covers(steps, a, m, r)
    ensures forall r <- rules :: exists k, n ::
              a <= k && LastMeasure(steps, k, n, r) && LastWrite(steps, n, m, r) && StandsAsMeasured(steps, k, m, r)
  {
    hide Inv, Next, StandsAsMeasured, Run;
    forall r | r in rules
      ensures exists k, n ::
                a <= k && LastMeasure(steps, k, n, r) && LastWrite(steps, n, m, r) && StandsAsMeasured(steps, k, m, r)
    {
      var i :| a <= i < m && ActsOn(At(steps, i), steps[i], r);
      var n := LastWriteAfter(steps, i, m, r);
      var k := PassMeans(steps, n, m, r);
      MeasuredInPass(steps, a, k, n, r);
    }
  }

  /** A pass that is idle at a and writes at n has measured after a. */
  lemma {:induction false} MeasuredInPass(steps: seq<Action>, a: nat, k: nat, n: nat, rule: nat)
    requires Run(steps) && a <= n < |steps| && At(steps, a).sweep == Idle && Underway(At(steps, n))
    requires LastMeasure(steps, k, n, rule)
    ensures a <= k
    decreases n
  {
    hide Next, Enabled, Violated, Unhealthy;
    SweepComesFrom(At(steps, n - 1), steps[n - 1]);
    if k < n - 1 {
      MeasuredInPass(steps, a, k, n - 1, rule);
    }
  }

  // ------------------------------------------------------------------ exports

  /** Step n inserts export rows for the incident. */
  predicate Exports(steps: seq<Action>, n: nat, id: nat)
    requires n < |steps|
  {
    steps[n].QueueExport? && At(steps, n).sweep == Opened(id)
  }

  lemma {:induction false} QueuedStays(steps: seq<Action>, m: nat, n: nat, id: nat)
    requires Run(steps) && m <= n <= |steps| && id in At(steps, m).queued
    ensures id in At(steps, n).queued && At(steps, n).queued[id] == At(steps, m).queued[id]
    decreases n
  {
    hide *;
    if m < n {
      StepOfRun(steps, n - 1, id);
      QueuedStays(steps, m, n - 1, id);
    }
  }

  /** Exports are queued at most once per incident. */
  lemma ExportedAtMostOnce(steps: seq<Action>, m: nat, n: nat, id: nat)
    requires Run(steps) && m < |steps| && n < |steps| && Exports(steps, m, id) && Exports(steps, n, id)
    ensures m == n
  {
    hide *;
    StepOfRun(steps, m, id);
    StepOfRun(steps, n, id);
    if m < n {
      QueuedStays(steps, m + 1, n, id);
    } else if n < m {
      QueuedStays(steps, n + 1, m, id);
    }
  }

  /** And the rows inserted then are all there ever are. */
  lemma ExportedOnceForAll(steps: seq<Action>, m: nat, n: nat, id: nat)
    requires Run(steps) && m < n <= |steps| && Exports(steps, m, id)
    ensures id in At(steps, n).queued && At(steps, n).queued[id] == steps[m].targets
  {
    hide *;
    ExportsIs(steps, m, id);
    StepOfRun(steps, m, id);
    QueuedStays(steps, m + 1, n, id);
  }

  lemma ExportsIs(steps: seq<Action>, n: nat, id: nat)
    requires n < |steps| && Exports(steps, n, id)
    ensures steps[n].QueueExport?
  {
  }

  /** A run in which a silent rule opens an incident, exports it, is acknowledged, recovers and is resolved. */
  function Lifecycle(rule: Rule, now: int, targets: nat, l: Log): seq<Action> {
    [Measure(rule, now), Find(None), Act, QueueExport(targets), Acknowledge(0), ChangeLogs([l]), Measure(rule, now),
     Find(Some(0)), Act]
  }

  lemma SilentWithoutLogs(rule: Rule, now: int)
    requires rule.maxSilenceMinutes.Some? && rule.maxSilenceMinutes.value != 0
    ensures Unhealthy(rule, [], now)
  {
    assert QuietFor(rule, [], now, Least(rule.windowMinutes, rule.maxSilenceMinutes.value));
  }

  /** The states of that run. */
  function LifecycleStates(rule: Rule, targets: nat, l: Log): seq<State> {
    var open, acknowledged := map[0 := Incident(rule.id, Open)], map[0 := Incident(rule.id, Acknowledged)];
    var queued := map[0 := targets];
    [START, START.(sweep := Measured(rule, true)), START.(sweep := Selected(rule, true, None)),
     State([], open, 1, map[], {}, Opened(0)), State([], open, 1, queued, {}, Idle),
     State([], acknowledged, 1, queued, {}, Idle), State([l], acknowledged, 1, queued, {}, Idle),
     State([l], acknowledged, 1, queued, {}, Measured(rule, false)),
     State([l], acknowledged, 1, queued, {}, Selected(rule, false, Some(0))),
     State([l], map[0 := Incident(rule.id, Resolved)], 1, queued, {}, Idle)]
  }

  lemma LifecycleStep(rule: Rule, now: int, targets: nat, l: Log, n: nat)
    requires rule.exportTarget == Some("audit") && Violated(rule, [], now) && !Violated(rule, [l], now) && n < 9
    ensures var steps, states := Lifecycle(rule, now, targets, l), LifecycleStates(rule, targets, l);
            Enabled(states[n], steps[n]) && Next(states[n], steps[n]) == states[n + 1]
  {
    hide Violated;
  }

  lemma {:induction false} LifecycleAt(rule: Rule, now: int, targets: nat, l: Log, n: nat)
    requires rule.exportTarget == Some("audit") && Violated(rule, [], now) && !Violated(rule, [l], now) && n <= 9
    ensures At(Lifecycle(rule, now, targets, l), n) == LifecycleStates(rule, targets, l)[n]
  {
    hide Violated, Next, Enabled;
    if n > 0 {
      LifecycleAt(rule, now, targets, l, n - 1);
      LifecycleStep(rule, now, targets, l, n - 1);
    }
  }

  lemma IncidentLifecycle(rule: Rule, now: int, targets: nat, l: Log)
    requires rule.maxSilenceMinutes.Some? && rule.maxSilenceMinutes.value != 0 && rule.exportTarget == Some("audit")
    requires !Unhealthy(rule, [l], now)
    ensures var steps := Lifecycle(rule, now, targets, l);
            && Run(steps) && At(steps, 3).incidents == map[0 := Incident(rule.id, Open)]
            && At(steps, 5).incidents == map[0 := Incident(rule.id, Acknowledged)]
            && At(steps, 9).incidents == map[0 := Incident(rule.id, Resolved)]
            && At(steps, 9).queued == map[0 := targets]
  {
    SilentWithoutLogs(rule, now);
    ViolatedMeans(rule, [], now);
    ViolatedMeans(rule, [l], now);
    hide Violated, Unhealthy, At, Next, Enabled;
    var steps := Lifecycle(rule, now, targets, l);
    forall n | 0 <= n < 9 ensures Enabled(At(steps, n), steps[n]) {
      LifecycleAt(rule, now, targets, l, n);
      LifecycleStep(rule, now, targets, l, n);
    }
    LifecycleAt(rule, now, targets, l, 3);
    LifecycleAt(rule, now, targets, l, 5);
    LifecycleAt(rule, now, targets, l, 9);
  }

  // ------------------------------------------------------------ export targets

  datatype Target = Target(id: string, ready: bool)

  function ReadyCount(ts: seq<Target>, id: string): nat {
    if ts == [] then 0 else ReadyCount(ts[1..], id) + if ts[0].ready && ts[0].id == id then 1 else 0
  }

  predicate ReadyFor(t: Target, id: string) { t.ready && t.id == id }

  predicate ReadyTwice(ts: seq<Target>, id: string) {
    exists i, j :: 0 <= i < j < |ts| && ReadyFor(ts[i], id) && ReadyFor(ts[j], id)
  }

  predicate HasReady(ts: seq<Target>, id: string) { exists t <- ts :: ReadyFor(t, id) }

  lemma {:induction false} HasReadyIff(ts: seq<Target>, id: string)
    ensures HasReady(ts, id) <==> ReadyCount(ts, id) >= 1
  {
    if ts != [] {
      HasReadyIff(ts[1..], id);
      HasReadyCons(ts[0], ts[1..], id);
      assert ts == [ts[0]] + ts[1..];
    }
  }

  lemma HasReadyCons(t: Target, rest: seq<Target>, id: string)
    ensures HasReady([t] + rest, id) <==> ReadyFor(t, id) || HasReady(rest, id)
  {
    hide ReadyFor;
    assert ([t] + rest)[0] == t;
    assert forall x <- rest :: x in [t] + rest;
  }

  lemma ReadyTwiceCons(t: Target, rest: seq<Target>, id: string)
    ensures ReadyTwice([t] + rest, id) <==> ReadyTwice(rest, id) || (ReadyFor(t, id) && HasReady(rest, id))
  {
    hide ReadyFor;
    var ts := [t] + rest;
    if ReadyTwice(rest, id) {
      var i, j :| 0 <= i < j < |rest| && ReadyFor(rest[i], id) && ReadyFor(rest[j], id);
      assert ts[i + 1] == rest[i] && ts[j + 1] == rest[j];
    }
    if ReadyFor(t, id) && HasReady(rest, id) {
      var i :| 0 <= i < |rest| && ReadyFor(rest[i], id);
      assert ts[0] == t && ts[i + 1] == rest[i];
    }
    if ReadyTwice(ts, id) {
      var i, j :| 0 <= i < j < |ts| && ReadyFor(ts[i], id) && ReadyFor(ts[j], id);
      assert ts[j] == rest[j - 1] && (i > 0 ==> ts[i] == rest[i - 1]);
    }
  }

  /** One incident queues more than one export row exactly when two ready targets share the rule's target id. */
  lemma {:induction false} MoreThanOneExportIff(ts: seq<Target>, id: string)
    ensures ReadyCount(ts, id) > 1 <==> ReadyTwice(ts, id)
  {
    if ts != [] {
      var rest := ts[1..];
      MoreThanOneExportIff(rest, id);
      HasReadyIff(rest, id);
      assert ts == [ts[0]] + rest;
      hide ReadyTwice, HasReady;
      ReadyTwiceCons(ts[0], rest, id);
    }
  }

  // ------------------------------------------------------ a whole evaluation

  function Copies<T>(n: nat, x: T): seq<T> { seq(n, _ => x) }

  /** The state after some statements. */
  function After(s: State, steps: seq<Action>): State {
    if steps == [] then s else Next(After(s, steps[..|steps| - 1]), steps[|steps| - 1])
  }

  lemma AfterMore(s: State, steps: seq<Action>, a: Action)
    ensures After(s, steps + [a]) == Next(After(s, steps), a)
  {
    hide Next;
    assert (steps + [a])[..|steps|] == steps;
  }

  /** The three statements every rule gets. */
  function Verdict(s: State, rule: Rule, now: int, found: Option<nat>): State {
    Next(Next(Next(s, Measure(rule, now)), Find(found)), Act)
  }

  lemma ThreeSteps(s: State, rule: Rule, now: int, found: Option<nat>)
    ensures After(s, [Measure(rule, now), Find(found), Act]) == Verdict(s, rule, now, found)
  {
    hide Next;
    AfterMore(s, [], Measure(rule, now));
    AfterMore(s, [Measure(rule, now)], Find(found));
    AfterMore(s, [Measure(rule, now), Find(found)], Act);
    assert [Measure(rule, now), Find(found)] + [Act] == [Measure(rule, now), Find(found), Act];
    assert [Measure(rule, now)] + [Find(found)] == [Measure(rule, now), Find(found)];
    assert [] + [Measure(rule, now)] == [Measure(rule, now)];
  }

  /** Two queries, the write they lead to, and the INSERT of export rows for a new incident whose rule has a target. */
  predicate StepsOf(rule: Rule, now: int, targets: seq<Target>, s: State, found: Option<nat>, steps: seq<Action>) {
    && Finds(s.incidents, rule.id, found)
    && steps == [Measure(rule, now), Find(found), Act] +
                if Violated(rule, s.logs, now) && found.None? && WantsExport(rule)
                then [QueueExport(ReadyCount(targets, rule.exportTarget.value))] else []
  }

  /** One row per ready target of the rule's id, for a new incident, if the rule names a target at all. */
  function ExportRows(rule: Rule, isNew: bool, targets: seq<Target>, incident: nat): seq<(nat, string)> {
    match rule.exportTarget
    case Some(id) => if isNew && |id| > 0 then Copies(ReadyCount(targets, id), (incident, id)) else []
    case None => []
  }

  /** What the statements on one rule change among the incidents. */
  predicate Evaluated(s: State, t: State, rule: nat, violated: bool) {
    && (HasActive(t.incidents, rule) <==> violated)
    && (forall id <- t.incidents :: t.incidents[id].rule != rule ==>
        id in s.incidents && t.incidents[id] == s.incidents[id])
    && (forall id <- s.incidents :: id in t.incidents && t.incidents[id].rule == s.incidents[id].rule)
    && (forall id <- s.incidents :: t.incidents[id] == s.incidents[id] ||
          (IsActiveOf(s.incidents, rule, id) && !violated && t.incidents[id].status == Resolved))
  }

  lemma WriteEvaluates(s: State)
    requires Inv(s) && s.sweep.Selected? && s.sweep.rule.id !in s.deleted
    ensures Evaluated(s, Next(s, Act), s.sweep.rule.id, s.sweep.violated)
  {
    ActMeans(s);
    hide HasActive, AtMostOneActive;
  }

  lemma QueriesOnly(s: State, rule: Rule, now: int, found: Option<nat>)
    requires Inv(s) && s.sweep == Idle && Finds(s.incidents, rule.id, found)
    ensures Next(Next(s, Measure(rule, now)), Find(found))
         == s.(sweep := Selected(rule, Violated(rule, s.logs, now), found))
    ensures Inv(s.(sweep := Selected(rule, Violated(rule, s.logs, now), found)))
  {
    hide Violated, AtMostOneActive, HasActive;
  }

  lemma AfterWrite(s: State)
    requires Inv(s) && s.sweep.Selected? && s.sweep.rule.id !in s.deleted
    ensures var t := Next(s, Act);
            if s.sweep.violated && s.sweep.found.None? && WantsExport(s.sweep.rule)
            then t.sweep == Opened(s.nextId) else t.sweep == Idle
  {
    hide AtMostOneActive, HasActive;
  }

  lemma QueueOnly(s: State, n: nat)
    requires s.sweep.Opened?
    ensures Next(s, QueueExport(n)).sweep == Idle && Next(s, QueueExport(n)).incidents == s.incidents
  {
  }

  /**
   * The statements on one rule leave it with an active incident exactly when it is violated, and touch no other rule.
   */
  lemma EvaluationMeans(rule: Rule, now: int, targets: seq<Target>, s: State, found: Option<nat>, steps: seq<Action>)
    requires Inv(s) && s.sweep == Idle && rule.id !in s.deleted && StepsOf(rule, now, targets, s, found, steps)
    ensures var t := After(s, steps);
            Inv(t) && t.sweep == Idle && Evaluated(s, t, rule.id, Unhealthy(rule, s.logs, now))
  {
    hide After, Inv, Next, Evaluated, Violated, Unhealthy, Finds, HasActive;
    ViolatedMeans(rule, s.logs, now);
    QueriesOnly(s, rule, now, found);
    var s2 := s.(sweep := Selected(rule, Violated(rule, s.logs, now), found));
    NextKeepsInv(s2, Act);
    WriteEvaluates(s2);
    AfterWrite(s2);
    ThreeSteps(s, rule, now, found);
    var three := [Measure(rule, now), Find(found), Act];
    var s3 := Next(s2, Act);
    SameIncidents(s, s2, s3, s3, rule.id, Violated(rule, s.logs, now));
    if s3.sweep.Opened? {
      var n := ReadyCount(targets, rule.exportTarget.value);
      AfterMore(s, three, QueueExport(n));
      NextKeepsInv(s3, QueueExport(n));
      QueueOnly(s3, n);
      SameIncidents(s, s2, s3, Next(s3, QueueExport(n)), rule.id, Violated(rule, s.logs, now));
    } else {
      assert three + [] == three;
    }
  }

  lemma SameIncidents(s: State, s2: State, t: State, t2: State, rule: nat, violated: bool)
    requires Evaluated(s2, t, rule, violated) && s.incidents == s2.incidents && t.incidents == t2.incidents
    ensures Evaluated(s, t2, rule, violated)
  {
    hide HasActive, IsActiveOf;
  }

  class AlertService {
    var incidents: Incidents
    var nextId: nat
    var exportRows: seq<(nat, string)>

    predicate Valid()
      reads this
    {
      AtMostOneActive(incidents) && forall id <- incidents :: id < nextId
    }

    constructor ()
      ensures Valid() && incidents == map[] && exportRows == []
    {
      incidents, nextId, exportRows := map[], 0, [];
    }

    /** The query for an active incident of the rule; it may find any. */
    method FindActive(rule: nat) returns (found: Option<nat>)
      ensures Finds(incidents, rule, found)
    {
      var ids := incidents.Keys;
      while ids != {}
        invariant ids <= incidents.Keys
        invariant forall id <- incidents :: id !in ids ==> !IsActiveOf(incidents, rule, id)
      {
        var id :| id in ids;
        if IsActiveOf(incidents, rule, id) {
          return Some(id);
        }
        ids := ids - {id};
      }
      return None;
    }

    /** The rows as the state machine has them, between two rules. */
    function Rows(logs: seq<Log>): State
      reads this
    {
      State(logs, incidents, nextId, map[], {}, Idle)
    }

    /** The body of the loop over rules: the statements it runs are `steps` of the state machine. */
    method EvaluateRule(rule: Rule, logs: seq<Log>, now: int, targets: seq<Target>)
      returns (ghost found: Option<nat>, ghost steps: seq<Action>)
      requires Valid()
      modifies this
      ensures Valid()
      ensures StepsOf(rule, now, targets, old(Rows(logs)), found, steps)
      ensures After(old(Rows(logs)), steps) == Rows(logs).(queued := After(old(Rows(logs)), steps).queued)
      ensures var isNew := Unhealthy(rule, logs, now) && !HasActive(old(incidents), rule.id);
              exportRows == old(exportRows) + ExportRows(rule, isNew, targets, old(nextId))
    {
      ViolatedMeans(rule, logs, now);
      hide Violated, Unhealthy, After, Finds, HasActive;
      var violated := Violated(rule, logs, now);
      ghost var before := Rows(logs);
      var open := FindActive(rule.id);
      found, steps := open, [Measure(rule, now), Find(open), Act];
      ThreeSteps(before, rule, now, open);
      FoundOk(incidents, nextId, rule.id, open);
      ghost var three := steps;
      assert three + [] == three;
      if violated {
        if open.None? {
          var id := nextId;
          incidents := incidents[id := Incident(rule.id, Open)];
          nextId := nextId + 1;
          if WantsExport(rule) {
            QueueLogExports(id, rule.exportTarget.value, targets);
            steps := steps + [QueueExport(ReadyCount(targets, rule.exportTarget.value))];
            AfterMore(before, three, QueueExport(ReadyCount(targets, rule.exportTarget.value)));
          }
        }
      } else if open.Some? {
        incidents := incidents[open.value := incidents[open.value].(status := Resolved)];
      }
    }

    /** POST /logs/alerts/:id/acknowledge: only an open incident is acknowledged, otherwise the answer is 409. */
    method AcknowledgeIncident(id: nat) returns (status: int)
      requires Valid()
      modifies this`incidents
      ensures Valid()
      ensures forall logs :: Rows(logs) == Next(old(Rows(logs)), Acknowledge(id))
      ensures status == 200 <==> id in old(incidents) && old(incidents)[id].status == Open
      ensures status == 200 ==> id in incidents && incidents[id] == Incident(old(incidents)[id].rule, Acknowledged)
      ensures status != 200 ==> status == 409 && incidents == old(incidents)
    {
      if id in incidents && incidents[id].status == Open {
        incidents := incidents[id := incidents[id].(status := Acknowledged)];
        return 200;
      }
      return 409;
    }

    /** queueLogExports with onlyTargetId: one row per ready target of that id. */
    method QueueLogExports(incident: nat, target: string, targets: seq<Target>)
      modifies this`exportRows
      ensures exportRows == old(exportRows) + Copies(ReadyCount(targets, target), (incident, target))
    {
      var i := 0;
      assert targets[0..] == targets;
      while i < |targets|
        invariant 0 <= i <= |targets|
        invariant |exportRows| + ReadyCount(targets[i..], target) == |old(exportRows)| + ReadyCount(targets, target)
        invariant |old(exportRows)| <= |exportRows|
        invariant exportRows == old(exportRows) + Copies(|exportRows| - |old(exportRows)|, (incident, target))
      {
        assert targets[i..][1..] == targets[i + 1..];
        if targets[i].ready && targets[i].id == target {
          exportRows := exportRows + [(incident, target)];
        }
        i := i + 1;
      }
    }

    lemma RowsOk(logs: seq<Log>)
      requires Valid()
      ensures var s := Rows(logs);
              Inv(s) && s.sweep == Idle && s.deleted == {} && s.logs == logs && s.incidents == incidents
    {
    }

    /** evaluateLogAlerts: after a complete pass an enabled rule has an active incident exactly when it is violated. */
    method Evaluate(rules: seq<Rule>, logs: seq<Log>, now: int, targets: seq<Target>)
      requires Valid() && DistinctIds(rules)
      modifies this
      ensures Valid()
      ensures forall r <- rules :: HasActive(incidents, r.id) <==> Unhealthy(r, logs, now)
      ensures OnlyResolved(old(incidents), incidents)
    {
      hide *;
      var i := 0;
      NothingDone(rules, incidents, logs, now);
      while i < |rules|
        invariant 0 <= i <= |rules| && Valid()
        invariant Settled(rules[..i], incidents, logs, now)
        invariant OnlyResolved(old(incidents), incidents)
      {
        ghost var rows := Rows(logs);
        RowsOk(logs);
        ghost var found, steps := EvaluateRule(rules[i], logs, now, targets);
        RowsOk(logs);
        OneRuleMore(rules, i, old(incidents), rows, incidents, found, steps, now, targets);
        i := i + 1;
      }
      AllSettled(rules, incidents, logs, now);
    }
  }

  predicate DistinctIds(rules: seq<Rule>) {
    forall i, j :: 0 <= i < j < |rules| ==> rules[i].id != rules[j].id
  }

  /** No incident is lost, and the only change to one is that an active one is resolved. */
  predicate OnlyResolved(before: Incidents, after: Incidents) {
    forall id <- before :: id in after && after[id].rule == before[id].rule &&
      (after[id] == before[id] || (Active(before[id]) && after[id].status == Resolved))
  }

  predicate Settled(rules: seq<Rule>, table: Incidents, logs: seq<Log>, now: int) {
    forall r <- rules :: HasActive(table, r.id) <==> Unhealthy(r, logs, now)
  }

  lemma FoundOk(table: Incidents, nextId: nat, rule: nat, found: Option<nat>)
    requires AtMostOneActive(table) && Finds(table, rule, found)
    ensures found.Some? ==> found.value in table
    ensures found.None? <==> !HasActive(table, rule)
    ensures found.None? ==> AtMostOneActive(table[nextId := Incident(rule, Open)])
  {
    if found.None? {
      assert forall id <- table :: !IsActiveOf(table, rule, id);
    }
  }

  lemma NothingDone(rules: seq<Rule>, table: Incidents, logs: seq<Log>, now: int)
    ensures Settled(rules[..0], table, logs, now) && OnlyResolved(table, table)
  {
  }

  lemma AllSettled(rules: seq<Rule>, table: Incidents, logs: seq<Log>, now: int)
    requires Settled(rules[..|rules|], table, logs, now)
    ensures forall r <- rules :: HasActive(table, r.id) <==> Unhealthy(r, logs, now)
  {
    hide HasActive, Unhealthy;
    assert rules[..|rules|] == rules;
  }

  lemma OneRuleMore(rules: seq<Rule>, i: nat, start: Incidents, s: State, after: Incidents, found: Option<nat>,
                    steps: seq<Action>, now: int, targets: seq<Target>)
    requires i < |rules| && DistinctIds(rules) && Inv(s) && s.sweep == Idle && s.deleted == {}
    requires StepsOf(rules[i], now, targets, s, found, steps) && After(s, steps).incidents == after
    requires Settled(rules[..i], s.incidents, s.logs, now) && OnlyResolved(start, s.incidents)
    ensures Settled(rules[..i + 1], after, s.logs, now) && OnlyResolved(start, after)
  {
    hide After, HasActive, Unhealthy, Inv, StepsOf, Evaluated, OnlyResolved;
    EvaluationMeans(rules[i], now, targets, s, found, steps);
    var t, rule := After(s, steps), rules[i].id;
    forall r | r in rules[..i + 1] ensures HasActive(after, r.id) <==> Unhealthy(r, s.logs, now) {
      var j :| 0 <= j <= i && rules[j] == r;
      if j < i {
        assert rules[..i][j] == r;
        OtherRuleSame(s, t, rule, r.id, Unhealthy(rules[i], s.logs, now));
      } else {
        OwnRule(s, t, rule, Unhealthy(rules[i], s.logs, now));
      }
    }
    StillOnlyResolved(start, s, t, rule, Unhealthy(rules[i], s.logs, now));
  }

  lemma OwnRule(s: State, t: State, rule: nat, violated: bool)
    requires Evaluated(s, t, rule, violated)
    ensures HasActive(t.incidents, rule) <==> violated
  {
  }

  lemma OtherRuleSame(s: State, t: State, rule: nat, other: nat, violated: bool)
    requires rule != other && Evaluated(s, t, rule, violated)
    ensures HasActive(t.incidents, other) <==> HasActive(s.incidents, other)
  {
    if id :| id in t.incidents && IsActiveOf(t.incidents, other, id) {
      assert IsActiveOf(s.incidents, other, id);
    }
    if id :| id in s.incidents && IsActiveOf(s.incidents, other, id) {
      assert IsActiveOf(t.incidents, other, id);
    }
  }

  lemma StillOnlyResolved(start: Incidents, s: State, t: State, rule: nat, violated: bool)
    requires OnlyResolved(start, s.incidents) && Evaluated(s, t, rule, violated)
    ensures OnlyResolved(start, t.incidents)
  {
    hide HasActive;
  }
}
