/**
 * audit-governance-service/src/routes-governance.ts: approvals that are
 * created, decided and consumed. Each SQL statement is one atomic step.
 */
module Approvals {
  import opened Options

  datatype Decision = Approved | Refused

  /** 'approved' and 'rejected' are the two decided states. */
  datatype Status = Pending | Decided(decision: Decision) | Consumed

  datatype Approval = Approval(status: Status, payload: Option<string>, expiresAt: Option<int>,
                               decidedBy: Option<string>)

  type Table = map<string, Approval>

  datatype Request =
    | Create(id: string, payload: Option<string>, expiresAt: Option<int>)
    | Decide(id: string, decision: Decision, decider: Option<string>)
    | Consume(id: string)

  datatype Response =
    | Created                                         // 201, the row
    | Exists                                          // 201, { id, status: "exists" }
    | DecidedNow                                      // 200, the row
    | NotPending                                      // 409
    | Granted(decision: Decision, payload: Option<string>, decider: Option<string>)  // 200
    | NotFound                                        // 404
    | Expired                                         // 410
    | Conflict(status: Status)                        // 409

  predicate Alive(a: Approval, now: int) { a.expiresAt.Some? ==> now < a.expiresAt.value }

  /** Whether the claiming UPDATE finds its row. */
  predicate Claimable(t: Table, id: string, now: int) {
    id in t && t[id].status.Decided? && Alive(t[id], now)
  }

  function Reply(t: Table, r: Request, now: int): Response {
    match r
    case Create(id, _, _) => if id in t then Exists else Created
    case Decide(id, _, _) => if id in t && t[id].status == Pending then DecidedNow else NotPending
    case Consume(id) =>
      if Claimable(t, id, now) then Granted(t[id].status.decision, t[id].payload, t[id].decidedBy)
      else if id !in t then NotFound
      else if !Alive(t[id], now) then Expired
      else Conflict(t[id].status)
  }

  function Step(t: Table, r: Request, now: int): Table {
    match r
    case Create(id, payload, expiresAt) => if id in t then t else t[id := Approval(Pending, payload, expiresAt, None)]
    case Decide(id, decision, decider) =>
      if id in t && t[id].status == Pending then t[id := t[id].(status := Decided(decision), decidedBy := decider)]
          else t
    case Consume(id) => if Claimable(t, id, now) then t[id := t[id].(status := Consumed)] else t
  }

  /** The table as the handlers update it. */
  class ApprovalStore {
    var rows: Table

    constructor ()
      ensures rows == map[]
    {
      rows := map[];
    }

    method CreateApproval(id: string, payload: Option<string>, expiresAt: Option<int>) returns (r: Response)
      modifies this
      ensures rows == Step(old(rows), Create(id, payload, expiresAt), 0)
      ensures r == Reply(old(rows), Create(id, payload, expiresAt), 0)
      ensures id in old(rows) ==> rows == old(rows) && r == Exists
      ensures id in rows && forall other :: other != id ==> (other in rows <==> other in old(rows))
      ensures forall other <- old(rows) :: rows[other] == old(rows)[other]
    {
      if id in rows {
        return Exists;
      }
      rows := rows[id := Approval(Pending, payload, expiresAt, None)];
      return Created;
    }

    method DecideApproval(id: string, decision: Decision, decider: Option<string>) returns (r: Response)
      modifies this
      ensures rows == Step(old(rows), Decide(id, decision, decider), 0)
      ensures r == Reply(old(rows), Decide(id, decision, decider), 0)
      ensures r == NotPending ==> rows == old(rows)
      ensures r == DecidedNow ==> id in rows && rows[id].status == Decided(decision) && rows[id].decidedBy == decider
      ensures rows.Keys == old(rows).Keys && forall other <- rows :: other != id ==> rows[other] == old(rows)[other]
    {
      if id in rows && rows[id].status == Pending {
        rows := rows[id := rows[id].(status := Decided(decision), decidedBy := decider)];
        return DecidedNow;
      }
      return NotPending;
    }

    /** The claim and, when it finds no row, the SELECT that explains why. */
    method ConsumeApproval(id: string, now: int) returns (r: Response)
      modifies this
      ensures rows == Step(old(rows), Consume(id), now)
      ensures r == Reply(old(rows), Consume(id), now)
      ensures !r.Granted? ==> rows == old(rows)
      ensures r.Granted? ==> id in rows && rows[id].status == Consumed && old(rows)[id].status == Decided(r.decision)
      ensures rows.Keys == old(rows).Keys && forall other <- rows :: other != id ==> rows[other] == old(rows)[other]
    {
      if Claimable(rows, id, now) {
        var pre := rows[id];
        rows := rows[id := pre.(status := Consumed)];
        return Granted(pre.status.decision, pre.payload, pre.decidedBy);
      }
      if id !in rows {
        return NotFound;
      }
      if !Alive(rows[id], now) {
        return Expired;
      }
      return Conflict(rows[id].status);
    }
  }

  // --------------------------------------------------------------- whole runs

  datatype Call = Call(request: Request, now: int)

  /** The table before call n of a run that starts empty. */
  function At(cs: seq<Call>, n: nat): Table
    requires n <= |cs|
  {
    if n == 0 then map[] else Step(At(cs, n - 1), cs[n - 1].request, cs[n - 1].now)
  }

  function Answer(cs: seq<Call>, n: nat): Response
    requires n < |cs|
  {
    Reply(At(cs, n), cs[n].request, cs[n].now)
  }

  predicate Won(cs: seq<Call>, n: nat, id: string)
    requires n < |cs|
  {
    cs[n].request == Consume(id) && Answer(cs, n).Granted?
  }

  predicate Settled(cs: seq<Call>, n: nat, id: string)
    requires n < |cs|
  {
    cs[n].request.Decide? && cs[n].request.id == id && Answer(cs, n) == DecidedNow
  }

  predicate Born(cs: seq<Call>, n: nat, id: string)
    requires n < |cs|
  {
    cs[n].request.Create? && cs[n].request.id == id && Answer(cs, n) == Created
  }

  /** Later statuses, in the order an approval can go through them. */
  function Rank(t: Table, id: string): nat {
    if id !in t then 0 else match t[id].status case Pending => 1 case Decided(_) => 2 case Consumed => 3
  }

  /** A row never goes back, and keeps payload and expiry; once decided, also who decided and what, until consumed. */
  predicate Forward(t: Table, u: Table, id: string) {
    && Rank(t, id) <= Rank(u, id)
    && (id in t ==> id in u && u[id].payload == t[id].payload && u[id].expiresAt == t[id].expiresAt)
    && (Rank(t, id) >= 2 ==> u[id].decidedBy == t[id].decidedBy)
    && (Rank(t, id) == 2 && Rank(u, id) == 2 ==> u[id].status == t[id].status)
  }

  lemma {:induction false} RowsGoForward(cs: seq<Call>, m: nat, n: nat, id: string)
    requires m <= n <= |cs|
    ensures Forward(At(cs, m), At(cs, n), id)
    decreases n
  {
    if m < n {
      RowsGoForward(cs, m, n - 1, id);
    }
  }

  /** Single use: no id is granted twice, whatever happens in between, re-creation included. */
  lemma ConsumedAtMostOnce(cs: seq<Call>, m: nat, n: nat, id: string)
    requires m < |cs| && n < |cs| && Won(cs, m, id) && Won(cs, n, id)
    ensures m == n
  {
    if m < n {
      RowsGoForward(cs, m + 1, n, id);
    } else if n < m {
      RowsGoForward(cs, n + 1, m, id);
    }
  }

  lemma DecidedAtMostOnce(cs: seq<Call>, m: nat, n: nat, id: string)
    requires m < |cs| && n < |cs| && Settled(cs, m, id) && Settled(cs, n, id)
    ensures m == n
  {
    if m < n {
      RowsGoForward(cs, m + 1, n, id);
    } else if n < m {
      RowsGoForward(cs, n + 1, m, id);
    }
  }

  lemma BornAtMostOnce(cs: seq<Call>, m: nat, n: nat, id: string)
    requires m < |cs| && n < |cs| && Born(cs, m, id) && Born(cs, n, id)
    ensures m == n
  {
    if m < n {
      RowsGoForward(cs, m + 1, n, id);
    } else if n < m {
      RowsGoForward(cs, n + 1, m, id);
    }
  }

  /** Where a row comes from: one create, with its payload and expiry. */
  lemma {:induction false} RowHasCreate(cs: seq<Call>, n: nat, id: string) returns (b: nat)
    requires n <= |cs| && id in At(cs, n)
    ensures b < n && Born(cs, b, id)
    ensures At(cs, n)[id].payload == cs[b].request.payload && At(cs, n)[id].expiresAt == cs[b].request.expiresAt
    decreases n
  {
    if id in At(cs, n - 1) {
      b := RowHasCreate(cs, n - 1, id);
    } else {
      b := n - 1;
    }
  }

  /** Where a decided row comes from: one decide, after its create. */
  lemma {:induction false} DecidedHasDecide(cs: seq<Call>, n: nat, id: string) returns (d: nat)
    requires n <= |cs| && id in At(cs, n) && At(cs, n)[id].status.Decided?
    ensures d < n && Settled(cs, d, id) && id in At(cs, d)
    ensures At(cs, n)[id].status.decision == cs[d].request.decision && At(cs, n)[id].decidedBy == cs[d].request.decider
    decreases n
  {
    if id in At(cs, n - 1) && At(cs, n - 1)[id].status.Decided? {
      d := DecidedHasDecide(cs, n - 1, id);
    } else {
      d := n - 1;
    }
  }

  /**
   * A grant hands back the one decision that was made for this id and the payload it was first
   * created with, in that order, and never at or after the expiry of that first creation.
   */
  lemma GrantIsAuthentic(cs: seq<Call>, n: nat, id: string) returns (b: nat, d: nat)
    requires n < |cs| && Won(cs, n, id)
    ensures b < d < n && Born(cs, b, id) && Settled(cs, d, id)
    ensures Answer(cs, n) == Granted(cs[d].request.decision, cs[b].request.payload, cs[d].request.decider)
    ensures cs[b].request.expiresAt.Some? ==> cs[n].now < cs[b].request.expiresAt.value
  {
    b := RowHasCreate(cs, n, id);
    d := DecidedHasDecide(cs, n, id);
    var b' := RowHasCreate(cs, d, id);
    BornAtMostOnce(cs, b, b', id);
  }

  /**
   * Exactly when a consume succeeds, in terms of what was asked before: created, decided, not yet granted, not
   * expired.
   */
  lemma ConsumeSucceedsIff(cs: seq<Call>, n: nat, id: string)
    requires n < |cs| && cs[n].request == Consume(id)
    ensures Won(cs, n, id) <==>
              && (exists d :: 0 <= d < n && Settled(cs, d, id))
              && (forall w :: 0 <= w < n ==> !Won(cs, w, id))
              && id in At(cs, n) && Alive(At(cs, n)[id], cs[n].now)
  {
    if Won(cs, n, id) {
      var d := DecidedHasDecide(cs, n, id);
      forall w | 0 <= w < n ensures !Won(cs, w, id) {
        if Won(cs, w, id) {
          ConsumedAtMostOnce(cs, w, n, id);
        }
      }
    } else if exists d :: 0 <= d < n && Settled(cs, d, id) {
      var d :| 0 <= d < n && Settled(cs, d, id);
      RowsGoForward(cs, d + 1, n, id);
      if At(cs, n)[id].status == Consumed {
        var w := ConsumedHasGrant(cs, n, id);
      }
    }
  }

  lemma {:induction false} ConsumedHasGrant(cs: seq<Call>, n: nat, id: string) returns (w: nat)
    requires n <= |cs| && id in At(cs, n) && At(cs, n)[id].status == Consumed
    ensures w < n && Won(cs, w, id)
    decreases n
  {
    if id in At(cs, n - 1) && At(cs, n - 1)[id].status == Consumed {
      w := ConsumedHasGrant(cs, n - 1, id);
    } else {
      w := n - 1;
    }
  }

  /** A decide asks for a pending row only: it succeeds at any time, also after the expiry. */
  lemma DecideIgnoresExpiry(t: Table, id: string, decision: Decision, decider: Option<string>, now: int)
    ensures Reply(t, Decide(id, decision, decider), now) == DecidedNow <==> Rank(t, id) == 1
    ensures Rank(t, id) == 1 && !Alive(t[id], now) ==>
              Reply(Step(t, Decide(id, decision, decider), now), Consume(id), now) == Expired
  {
  }

  /** The documented 409 for a consumed approval is a 410 once its expiry has passed. */
  lemma ConsumedReplyIff(t: Table, id: string, now: int)
    requires id in t && t[id].status == Consumed
    ensures Reply(t, Consume(id), now) == Conflict(Consumed) <==> Alive(t[id], now)
  {
  }
}
