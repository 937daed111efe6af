/**
 * audit-governance-service/src/cost-worker.ts and the budget rows of
 * routes-governance.ts: llm_calls, token_savings_runs and budgets, one SQL
 * statement at a time. Statements of different events may interleave, and an
 * event may stop for ever after any of them.
 */
module CostLedger {
  import opened Options
  import opened Periods
  import Calendar
  import opened Pricing

  datatype ScopeType = CapabilityScope | TenantScope

  /** The moment of a bump: its now(), and its place among all statements. */
  datatype Stamp = Stamp(at: int, tick: nat)

  /** How far the event of a call has come. */
  datatype Progress = Inserted | SavingsDone | CapabilityDone | Complete

  /** A row of llm_calls, with what is still to be done for its event. */
  datatype Call = Call(payload: Payload, price: Price, capability: Option<string>, tenant: Option<string>,
                       createdAt: int, progress: Progress, capCharge: Option<Stamp>, tenantCharge: Option<Stamp>)

  datatype BudgetKey = BudgetKey(scope: ScopeType, id: string, period: Period, start: int)

  /** `since` is the place of the INSERT of the row among all statements. */
  datatype Budget = Budget(end: int, tokens: int, cost: real, since: nat)

  datatype Saving = Saving(call: nat, row: SavingsRow)

  datatype Ledger = Ledger(calls: seq<Call>, savings: seq<Saving>, budgets: map<BudgetKey, Budget>, tick: nat)

  // -------------------------------------------------------------- statements

  predicate Known(calls: seq<Call>, id: Option<string>) {
    id.Some? && exists i :: 0 <= i < |calls| && calls[i].payload.gatewayId == id
  }

  datatype Event = Event(payload: Payload, capability: Option<string>, tenant: Option<string>)

  /** INSERT INTO llm_calls ... ON CONFLICT (gateway_call_id) DO NOTHING. */
  function InsertCall(l: Ledger, e: Event, cards: seq<RateCard>, now: int): Ledger {
    if Known(l.calls, e.payload.gatewayId) then l
    else l.(calls := l.calls + [Call(e.payload, PriceOf(e.payload, cards, now), e.capability, e.tenant, now,
        Inserted, None, None)])
  }

  /** INSERT INTO token_savings_runs, if the payload has something to measure. */
  function RecordSavings(l: Ledger, i: nat): Ledger
    requires i < |l.calls|
  {
    var c := l.calls[i];
    if c.progress != Inserted then l
    else
      var row := SavingsOf(c.payload, c.price);
      l.(calls := l.calls[i := c.(progress := SavingsDone)],
         savings := if row.Some? then l.savings + [Saving(i, row.value)] else l.savings)
  }

  function ScopeId(c: Call, s: ScopeType): Option<string> {
    if s == CapabilityScope then c.capability else c.tenant
  }

  /** bumpBudgets runs for a priced call, and only for a scope id that is present and not empty. */
  predicate Chargeable(c: Call, s: ScopeType) {
    c.price.cost.Some? && ScopeId(c, s).Some? && ScopeId(c, s).value != ""
  }

  predicate Covers(k: BudgetKey, b: Budget, s: ScopeType, id: string, now: int) {
    k.scope == s && k.id == id && k.start <= now < b.end
  }

  /** UPDATE budgets SET current_tokens = ..., current_cost = ... of every row that covers now. */
  function Bump(budgets: map<BudgetKey, Budget>, s: ScopeType, id: string, now: int, tokens: int,
                cost: real): map<BudgetKey, Budget> {
    map k | k in budgets ::
      if Covers(k, budgets[k], s, id, now)
      then budgets[k].(tokens := budgets[k].tokens + tokens, cost := budgets[k].cost + cost)
      else budgets[k]
  }

  function Charged(c: Call, s: ScopeType, st: Stamp): Call {
    if s == CapabilityScope then c.(progress := CapabilityDone, capCharge := Some(st))
    else c.(progress := Complete, tenantCharge := Some(st))
  }

  function Skipped(c: Call, s: ScopeType): Call {
    c.(progress := if s == CapabilityScope then CapabilityDone else Complete)
  }

  function Due(s: ScopeType): Progress { if s == CapabilityScope then SavingsDone else CapabilityDone }

  /** One of the two UPDATE statements of bumpBudgets, or the decision to skip it. */
  function Charge(l: Ledger, i: nat, s: ScopeType, now: int): Ledger
    requires i < |l.calls|
  {
    var c := l.calls[i];
    if c.progress != Due(s) then l
    else if !Chargeable(c, s) then l.(calls := l.calls[i := Skipped(c, s)])
    else
      Ledger(l.calls[i := Charged(c, s, Stamp(now, l.tick))], l.savings,
             Bump(l.budgets, s, ScopeId(c, s).value, now, c.payload.Total(), c.price.cost.value), l.tick + 1)
  }

  /** POST /budgets: a new row starts at 0; an existing row keeps its counters. */
  function UpsertBudget(l: Ledger, s: ScopeType, id: string, p: Period, now: int): Ledger {
    var w := WindowOf(p, now);
    var k := BudgetKey(s, id, p, w.start);
    if k in l.budgets then l
    else l.(budgets := l.budgets[k := Budget(w.end, 0, 0.0, l.tick)], tick := l.tick + 1)
  }

  datatype Statement =
    | Insert(event: Event, now: int)
    | Savings(call: nat)
    | ChargeScope(call: nat, scope: ScopeType, now: int)
    | Upsert(scope: ScopeType, id: string, period: Period, now: int)

  /** One statement of some event, or a budget upsert. An event that died simply never moves again. */
  function Apply(l: Ledger, st: Statement, cards: seq<RateCard>): Ledger {
    match st
    case Insert(e, now) => InsertCall(l, e, cards, now)
    case Savings(i) => if i < |l.calls| then RecordSavings(l, i) else l
    case ChargeScope(i, s, now) => if i < |l.calls| then Charge(l, i, s, now) else l
    case Upsert(s, id, p, now) => UpsertBudget(l, s, id, p, now)
  }

  function ApplyAll(l: Ledger, sts: seq<Statement>, cards: seq<RateCard>): Ledger {
    if sts == [] then l else Apply(ApplyAll(l, sts[..|sts| - 1], cards), sts[|sts| - 1], cards)
  }

  const EMPTY := Ledger([], [], map[], 0)

  // ------------------------------------------------------------------- sums

  datatype Amount = Amount(tokens: int, cost: real) {
    function Plus(b: Amount): Amount { Amount(tokens + b.tokens, cost + b.cost) }
    predicate AtMost(b: Amount) { tokens <= b.tokens && cost <= b.cost }
  }

  const ZERO := Amount(0, 0.0)

  function AmountOf(c: Call): Amount { Amount(c.payload.Total(),
                    if c.price.cost.Some? then c.price.cost.value else 0.0) }

  function AmountIf(counts: bool, c: Call): Amount { if counts then AmountOf(c) else ZERO }

  function StampOf(c: Call, s: ScopeType): Option<Stamp> {
    if s == CapabilityScope then c.capCharge else c.tenantCharge
  }

  /** The call was charged to its scope, after the budget row was made, at a time inside its window. */
  predicate Counted(k: BudgetKey, b: Budget, c: Call) {
    var st := StampOf(c, k.scope);
    st.Some? && b.since <= st.value.tick && ScopeId(c, k.scope) == Some(k.id) && k.start <= st.value.at < b.end
  }

  function SumCounted(k: BudgetKey, b: Budget, calls: seq<Call>): Amount {
    if calls == [] then ZERO
    else SumCounted(k, b, calls[..|calls| - 1]).Plus(AmountIf(Counted(k, b, calls[|calls| - 1]), calls[|calls| - 1]))
  }

  /** The call is a priced call of the scope, made inside the window. */
  predicate InWindow(k: BudgetKey, b: Budget, c: Call) {
    Chargeable(c, k.scope) && ScopeId(c, k.scope) == Some(k.id) && k.start <= c.createdAt < b.end
  }

  function SumInWindow(k: BudgetKey, b: Budget, calls: seq<Call>): Amount {
    if calls == [] then ZERO
    else SumInWindow(k, b, calls[..|calls| - 1]).Plus(AmountIf(InWindow(k, b, calls[|calls| - 1]), calls[|calls| - 1]))
  }

  /** Counted, but made outside the window. */
  predicate Stray(k: BudgetKey, b: Budget, c: Call) { Counted(k, b, c) && !(k.start <= c.createdAt < b.end) }

  /** Made inside the window, but not counted: not charged yet, charged elsewhere, or before the row was made. */
  predicate Missing(k: BudgetKey, b: Budget, c: Call) { InWindow(k, b, c) && !Counted(k, b, c) }

  function SumStray(k: BudgetKey, b: Budget, calls: seq<Call>): Amount {
    if calls == [] then ZERO
    else SumStray(k, b, calls[..|calls| - 1]).Plus(AmountIf(Stray(k, b, calls[|calls| - 1]), calls[|calls| - 1]))
  }

  function SumMissing(k: BudgetKey, b: Budget, calls: seq<Call>): Amount {
    if calls == [] then ZERO
    else SumMissing(k, b, calls[..|calls| - 1]).Plus(AmountIf(Missing(k, b, calls[|calls| - 1]), calls[|calls| - 1]))
  }

  // --------------------------------------------------------------- invariant

  predicate CallOk(c: Call, tick: nat) {
    && c.payload.Valid() && (c.price.cost.Some? ==> c.price.cost.value >= 0.0)
    && (c.capCharge.Some? ==> Chargeable(c, CapabilityScope) && c.capCharge.value.tick < tick)
    && (c.tenantCharge.Some? ==> Chargeable(c, TenantScope) && c.tenantCharge.value.tick < tick)
    && (c.progress == Inserted || c.progress == SavingsDone ==> c.capCharge.None?)
    && (c.progress != Complete ==> c.tenantCharge.None?)
    && (c.progress == CapabilityDone || c.progress == Complete ==> (Chargeable(c, CapabilityScope) ==>
        c.capCharge.Some?))
    && (c.progress == Complete ==> (Chargeable(c, TenantScope) ==> c.tenantCharge.Some?))
  }

  /** The row is the one its call implies, and the call has got that far. */
  predicate SavingOk(calls: seq<Call>, s: Saving) {
    && s.call < |calls| && calls[s.call].progress != Inserted
    && SavingsOf(calls[s.call].payload, calls[s.call].price) == Some(s.row)
  }

  predicate SavingsOk(l: Ledger) {
    && (forall s :: 0 <= s < |l.savings| ==> SavingOk(l.calls, l.savings[s]))
    && (forall s, t :: 0 <= s < t < |l.savings| ==> l.savings[s].call != l.savings[t].call)
  }

  predicate UniqueIds(calls: seq<Call>) {
    forall i, j :: 0 <= i < j < |calls| && calls[i].payload.gatewayId.Some? ==>
      calls[i].payload.gatewayId != calls[j].payload.gatewayId
  }

  ghost predicate BudgetOk(l: Ledger, k: BudgetKey)
    requires k in l.budgets
  {
    var b := l.budgets[k];
    && Amount(b.tokens, b.cost) == SumCounted(k, b, l.calls) && b.since < l.tick
    && exists t :: WindowOf(k.period, t) == Window(k.start, b.end)
  }

  ghost predicate Inv(l: Ledger) {
    && (forall i :: 0 <= i < |l.calls| ==> CallOk(l.calls[i], l.tick))
    && SavingsOk(l) && UniqueIds(l.calls)
    && (forall k :: k in l.budgets ==> BudgetOk(l, k))
  }

  // ------------------------------------------------------ sums under updates

  lemma SumLast(k: BudgetKey, b: Budget, calls: seq<Call>, front: seq<Call>, last: Call)
    requires calls == front + [last]
    ensures SumCounted(k, b, calls) == SumCounted(k, b, front).Plus(AmountIf(Counted(k, b, last), last))
  {
    assert calls[..|calls| - 1] == front;
  }

  lemma {:induction false} SumUpdated(k: BudgetKey, b: Budget, calls: seq<Call>, i: nat, c: Call)
    requires i < |calls| && AmountOf(c) == AmountOf(calls[i]) && !Counted(k, b, calls[i])
    ensures SumCounted(k, b, calls[i := c])
         == if Counted(k, b, c) then SumCounted(k, b, calls).Plus(AmountOf(c)) else SumCounted(k, b, calls)
  {
    hide Counted, AmountOf, SumCounted;
    var n := |calls| - 1;
    var front, last, calls' := calls[..n], calls[n], calls[i := c];
    SumLast(k, b, calls, front, last);
    if i == n {
      SumLast(k, b, calls', front, c);
    } else {
      SumUpdated(k, b, front, i, c);
      assert calls' == front[i := c] + [last];
      SumLast(k, b, calls', front[i := c], last);
    }
  }

  lemma {:induction false} SumUnchanged(k: BudgetKey, b: Budget, calls: seq<Call>, i: nat, c: Call)
    requires i < |calls| && AmountOf(c) == AmountOf(calls[i]) && Counted(k, b, calls[i]) == Counted(k, b, c)
    ensures SumCounted(k, b, calls[i := c]) == SumCounted(k, b, calls)
  {
    hide Counted, AmountOf;
    var n := |calls| - 1;
    var calls' := calls[i := c];
    if i == n {
      assert calls'[..n] == calls[..n];
    } else {
      SumUnchanged(k, b, calls[..n], i, c);
      assert calls'[..n] == calls[..n][i := c];
    }
  }

  /** The counters do not depend on the counters. */
  lemma {:induction false} SumSameRow(k: BudgetKey, b: Budget, b': Budget, calls: seq<Call>)
    requires b'.end == b.end && b'.since == b.since
    ensures SumCounted(k, b', calls) == SumCounted(k, b, calls)
  {
    if calls != [] {
      SumSameRow(k, b, b', calls[..|calls| - 1]);
    }
  }

  lemma {:induction false} SumOfNewRow(k: BudgetKey, b: Budget, calls: seq<Call>)
    requires forall i :: 0 <= i < |calls| ==> CallOk(calls[i], b.since)
    ensures SumCounted(k, b, calls) == ZERO
  {
    hide *;
    if calls != [] {
      var n := |calls| - 1;
      NotCounted(k, b, calls[n]);
      SumOfNewRow(k, b, calls[..n]);
      SumOfLast(k, b, calls);
    } else {
      SumOfNone(k, b);
    }
  }

  lemma NotCounted(k: BudgetKey, b: Budget, c: Call)
    requires CallOk(c, b.since)
    ensures !Counted(k, b, c)
  {
    hide Chargeable;
  }

  lemma SumOfNone(k: BudgetKey, b: Budget)
    ensures SumCounted(k, b, []) == Amount(0, 0.0) == ZERO
  {
  }

  lemma SumOfLast(k: BudgetKey, b: Budget, calls: seq<Call>)
    requires calls != [] && !Counted(k, b, calls[|calls| - 1])
    ensures SumCounted(k, b, calls) == SumCounted(k, b, calls[..|calls| - 1])
  {
    hide Counted;
  }

  lemma {:induction false} SumWithNewCall(k: BudgetKey, b: Budget, calls: seq<Call>, c: Call)
    requires c.capCharge.None? && c.tenantCharge.None?
    ensures SumCounted(k, b, calls + [c]) == SumCounted(k, b, calls)
  {
    assert (calls + [c])[..|calls|] == calls;
  }

  // ------------------------------------------------------ every statement keeps it

  lemma SavingsStay(l: Ledger, calls: seq<Call>, i: nat)
    requires SavingsOk(l) && i < |l.calls| == |calls|
    requires forall j :: 0 <= j < |calls| && j != i ==> calls[j] == l.calls[j]
    requires calls[i].payload == l.calls[i].payload && calls[i].price == l.calls[i].price &&
        calls[i].progress != Inserted
    ensures forall s :: 0 <= s < |l.savings| ==> SavingOk(calls, l.savings[s])
  {
    hide SavingsOf;
    forall s | 0 <= s < |l.savings| ensures SavingOk(calls, l.savings[s]) {
      assert SavingOk(l.calls, l.savings[s]);
    }
  }

  lemma IdsStay(calls: seq<Call>, i: nat, c: Call)
    requires UniqueIds(calls) && i < |calls| && c.payload == calls[i].payload
    ensures UniqueIds(calls[i := c])
  {
    var later := calls[i := c];
    assert forall a :: 0 <= a < |calls| ==> later[a].payload == calls[a].payload;
  }

  lemma InsertKeepsInv(l: Ledger, e: Event, cards: seq<RateCard>, now: int)
    requires Inv(l) && e.payload.Valid() && NonNegative(cards)
    ensures Inv(InsertCall(l, e, cards, now))
  {
    if !Known(l.calls, e.payload.gatewayId) {
      var c := Call(e.payload, PriceOf(e.payload, cards, now), e.capability, e.tenant, now, Inserted, None, None);
      var l' := InsertCall(l, e, cards, now);
      CostNonNegative(e.payload, cards, now);
      hide PriceOf, SumCounted, SavingsOf;
      assert CallOk(c, l.tick);
      forall k | k in l.budgets ensures BudgetOk(l', k) {
        assert BudgetOk(l, k);
        SumWithNewCall(k, l.budgets[k], l.calls, c);
      }
      forall s | 0 <= s < |l.savings| ensures SavingOk(l'.calls, l.savings[s]) {
        assert SavingOk(l.calls, l.savings[s]);
      }
    }
  }

  lemma SavingsKeepsInv(l: Ledger, i: nat)
    requires Inv(l) && i < |l.calls|
    ensures Inv(RecordSavings(l, i))
  {
    var l', c := RecordSavings(l, i), l.calls[i];
    if c.progress == Inserted {
      var c' := c.(progress := SavingsDone);
      hide SumCounted, SavingsOf, Chargeable;
      assert l'.calls == l.calls[i := c'] && CallOk(c, l.tick);
      SavingsStay(l, l'.calls, i);
      IdsStay(l.calls, i, c');
      forall s | 0 <= s < |l.savings| ensures l.savings[s].call != i {
        assert SavingOk(l.calls, l.savings[s]);
      }
      forall k | k in l.budgets ensures BudgetOk(l', k) {
        assert BudgetOk(l, k);
        SumUnchanged(k, l.budgets[k], l.calls, i, c');
      }
    }
  }

  lemma CallOkLater(c: Call, t: nat, u: nat)
    requires CallOk(c, t) && t <= u
    ensures CallOk(c, u)
  {
    hide Chargeable;
  }

  lemma ChargeKeepsInv(l: Ledger, i: nat, s: ScopeType, now: int)
    requires Inv(l) && i < |l.calls|
    ensures Inv(Charge(l, i, s, now))
  {
    var l', c := Charge(l, i, s, now), l.calls[i];
    if c.progress == Due(s) {
      var c' := l'.calls[i];
      assert CallOk(c, l.tick);
      assert CallOk(c', l'.tick) && c'.payload == c.payload && c'.price == c.price && c'.progress != Inserted;
      hide SumCounted, SavingsOf, Chargeable, Bump, Known;
      assert l'.calls == l.calls[i := c'] && l.tick <= l'.tick;
      SavingsStay(l, l'.calls, i);
      IdsStay(l.calls, i, c');
      forall j | 0 <= j < |l'.calls| ensures CallOk(l'.calls[j], l'.tick) {
        if j != i {
          CallOkLater(l.calls[j], l.tick, l'.tick);
        }
      }
      forall k | k in l'.budgets ensures BudgetOk(l', k) {
        ChargeKeepsBudget(l, i, s, now, k);
      }
    }
  }

  lemma ChargeKeepsBudget(l: Ledger, i: nat, s: ScopeType, now: int, k: BudgetKey)
    requires Inv(l) && i < |l.calls| && l.calls[i].progress == Due(s) && k in Charge(l, i, s, now).budgets
    ensures BudgetOk(Charge(l, i, s, now), k)
  {
    var l', c := Charge(l, i, s, now), l.calls[i];
    var c', b, b' := l'.calls[i], l.budgets[k], l'.budgets[k];
    assert BudgetOk(l, k) && CallOk(c, l.tick);
    ChargeCounts(l, i, s, now, k);
    hide Inv, Counted, CallOk, Chargeable, Covers, Bump, AmountOf, SumCounted, WindowOf;
    SumSameRow(k, b, b', l'.calls);
    if Counted(k, b, c') == Counted(k, b, c) {
      SumUnchanged(k, b, l.calls, i, c');
    } else {
      SumUpdated(k, b, l.calls, i, c');
    }
    ChargeBumps(l, i, s, now, k);
  }

  lemma ChargeCounts(l: Ledger, i: nat, s: ScopeType, now: int, k: BudgetKey)
    requires i < |l.calls| && l.calls[i].progress == Due(s) && k in l.budgets && CallOk(l.calls[i], l.tick)
    requires l.budgets[k].since < l.tick && k in Charge(l, i, s, now).budgets
    ensures var c, c', b := l.calls[i], Charge(l, i, s, now).calls[i], l.budgets[k];
            && AmountOf(c') == AmountOf(c)
            && (Counted(k, b, c') <==>
                Counted(k, b, c) || (Chargeable(c, s) && Covers(k, b, s, ScopeId(c, s).value, now)))
            && (Chargeable(c, s) && Covers(k, b, s, ScopeId(c, s).value, now) ==> !Counted(k, b, c))
  {
  }

  /** What one bump does to one row. */
  lemma ChargeBumps(l: Ledger, i: nat, s: ScopeType, now: int, k: BudgetKey)
    requires i < |l.calls| && l.calls[i].progress == Due(s) && k in l.budgets && k in Charge(l, i, s, now).budgets
    ensures var c, b, b' := l.calls[i], l.budgets[k], Charge(l, i, s, now).budgets[k];
            && b'.end == b.end && b'.since == b.since && l.tick <= Charge(l, i, s, now).tick
            && Amount(b'.tokens, b'.cost)
               == if Chargeable(c, s) && Covers(k, b, s, ScopeId(c, s).value, now)
                  then Amount(b.tokens, b.cost).Plus(AmountOf(c)) else Amount(b.tokens, b.cost)
  {
  }

  lemma UpsertKeepsInv(l: Ledger, s: ScopeType, id: string, p: Period, now: int)
    requires Inv(l)
    ensures Inv(UpsertBudget(l, s, id, p, now))
  {
    hide WindowOf, SumCounted, SavingsOf, CallOk;
    var l' := UpsertBudget(l, s, id, p, now);
    forall i | 0 <= i < |l'.calls| ensures CallOk(l'.calls[i], l'.tick) {
      CallOkLater(l.calls[i], l.tick, l'.tick);
    }
    forall k | k in l'.budgets ensures BudgetOk(l', k) {
      if k in l.budgets {
        assert BudgetOk(l, k);
      } else {
        SumOfNewRow(k, l'.budgets[k], l.calls);
      }
    }
  }

  predicate ValidStatement(st: Statement) {
    st.Insert? ==> st.event.payload.Valid()
  }

  lemma ApplyKeepsInv(l: Ledger, st: Statement, cards: seq<RateCard>)
    requires Inv(l) && ValidStatement(st) && NonNegative(cards)
    ensures Inv(Apply(l, st, cards))
  {
    hide Inv, InsertCall, RecordSavings, Charge, UpsertBudget;
    match st
    case Insert(e, now) => InsertKeepsInv(l, e, cards, now);
    case Savings(i) => if i < |l.calls| { SavingsKeepsInv(l, i); }
    case ChargeScope(i, s, now) => if i < |l.calls| { ChargeKeepsInv(l, i, s, now); }
    case Upsert(s, id, p, now) => UpsertKeepsInv(l, s, id, p, now);
  }

  /** Conservation holds after every interleaving of statements, whatever events stopped half way. */
  lemma {:induction false} AlwaysInv(sts: seq<Statement>, cards: seq<RateCard>)
    requires NonNegative(cards) && forall i :: 0 <= i < |sts| ==> ValidStatement(sts[i])
    ensures Inv(ApplyAll(EMPTY, sts, cards))
  {
    hide Apply;
    if sts != [] {
      AlwaysInv(sts[..|sts| - 1], cards);
      ApplyKeepsInv(ApplyAll(EMPTY, sts[..|sts| - 1], cards), sts[|sts| - 1], cards);
    }
  }

  // ------------------------------------------------------------ conservation

  lemma AmountNonNegative(c: Call, tick: nat)
    requires CallOk(c, tick)
    ensures ZERO.AtMost(AmountOf(c))
  {
    hide Chargeable;
  }

  /** One call, on both sides of the account. */
  lemma CallBalances(k: BudgetKey, b: Budget, c: Call, tick: nat)
    requires CallOk(c, tick)
    ensures AmountIf(Counted(k, b, c), c).Plus(AmountIf(Missing(k, b, c), c))
         == AmountIf(InWindow(k, b, c), c).Plus(AmountIf(Stray(k, b, c), c))
  {
    hide AmountOf, Chargeable;
  }

  lemma PlusSwaps(a: Amount, b: Amount, c: Amount, d: Amount)
    ensures a.Plus(b).Plus(c.Plus(d)) == a.Plus(c).Plus(b.Plus(d))
  {
  }

  predicate CallsOk(calls: seq<Call>, tick: nat) { forall c <- calls :: CallOk(c, tick) }

  /** What is counted and what is missing is what is due and what strayed in. */
  lemma {:induction false} Balance(k: BudgetKey, b: Budget, calls: seq<Call>, tick: nat)
    requires CallsOk(calls, tick)
    ensures SumCounted(k, b, calls).Plus(SumMissing(k, b, calls)) == SumInWindow(k, b, calls).Plus(SumStray(k, b,
        calls))
  {
    hide CallOk, Counted, Missing, InWindow, Stray, AmountIf;
    if calls != [] {
      var front, c := calls[..|calls| - 1], calls[|calls| - 1];
      Balance(k, b, front, tick);
      CallBalances(k, b, c, tick);
      PlusSwaps(SumCounted(k, b, front), SumMissing(k, b, front), AmountIf(Counted(k, b, c), c), AmountIf(Missing(k,
          b, c), c));
      PlusSwaps(SumInWindow(k, b, front), SumStray(k, b, front), AmountIf(InWindow(k, b, c), c), AmountIf(Stray(k, b,
          c), c));
    }
  }

  /** Every call made inside the window is counted, or worth nothing. */
  predicate NothingMissing(k: BudgetKey, b: Budget, calls: seq<Call>) {
    forall c <- calls :: Missing(k, b, c) ==> AmountOf(c) == ZERO
  }

  /** No call made outside the window is counted, unless it is worth nothing. */
  predicate NothingStrays(k: BudgetKey, b: Budget, calls: seq<Call>) {
    forall c <- calls :: Stray(k, b, c) ==> AmountOf(c) == ZERO
  }

  lemma SumIsZeroIff(a: Amount, b: Amount)
    requires ZERO.AtMost(a) && ZERO.AtMost(b)
    ensures ZERO.AtMost(a.Plus(b)) && (a.Plus(b) == ZERO <==> a == ZERO && b == ZERO)
  {
  }

  /** One more call, for the predicates on all calls. */
  lemma OneMoreCall(k: BudgetKey, b: Budget, front: seq<Call>, c: Call, tick: nat)
    ensures CallsOk(front + [c], tick) ==> CallsOk(front, tick) && CallOk(c, tick)
    ensures NothingMissing(k, b, front + [c]) <==>
              NothingMissing(k, b, front) && AmountIf(Missing(k, b, c), c) == ZERO
    ensures NothingStrays(k, b, front + [c]) <==>
              NothingStrays(k, b, front) && AmountIf(Stray(k, b, c), c) == ZERO
  {
    hide CallOk, Missing, Stray, AmountOf;
    var calls := front + [c];
    assert c in calls && (forall d <- front :: d in calls) && (forall d <- calls :: d in front || d == c);
  }

  lemma {:induction false} SumMissingIff(k: BudgetKey, b: Budget, calls: seq<Call>, tick: nat)
    requires CallsOk(calls, tick)
    ensures ZERO.AtMost(SumMissing(k, b, calls))
    ensures SumMissing(k, b, calls) == ZERO <==> NothingMissing(k, b, calls)
  {
    hide CallsOk, CallOk, Missing, NothingMissing, AmountOf;
    if calls == [] {
      NothingAtAll(k, b);
    } else {
      var front, c := calls[..|calls| - 1], calls[|calls| - 1];
      assert calls == front + [c];
      OneMoreCall(k, b, front, c, tick);
      SumMissingIff(k, b, front, tick);
      AmountNonNegative(c, tick);
      SumIsZeroIff(SumMissing(k, b, front), AmountIf(Missing(k, b, c), c));
    }
  }

  lemma NothingAtAll(k: BudgetKey, b: Budget)
    ensures NothingMissing(k, b, []) && NothingStrays(k, b, [])
  {
  }

  lemma {:induction false} SumStrayIff(k: BudgetKey, b: Budget, calls: seq<Call>, tick: nat)
    requires CallsOk(calls, tick)
    ensures ZERO.AtMost(SumStray(k, b, calls))
    ensures SumStray(k, b, calls) == ZERO <==> NothingStrays(k, b, calls)
  {
    hide CallsOk, CallOk, Stray, NothingStrays, AmountOf;
    if calls == [] {
      NothingAtAll(k, b);
    } else {
      var front, c := calls[..|calls| - 1], calls[|calls| - 1];
      assert calls == front + [c];
      OneMoreCall(k, b, front, c, tick);
      SumStrayIff(k, b, front, tick);
      AmountNonNegative(c, tick);
      SumIsZeroIff(SumStray(k, b, front), AmountIf(Stray(k, b, c), c));
    }
  }

  /**
   * Budget conservation, after every interleaving, for every row. The counters and the calls they
   * miss balance the calls due and the calls that strayed in over a border of the window. So the
   * row exceeds what is due exactly when more strayed in than is missing; with nothing missing it
   * stays within what is due exactly when nothing strayed in; and with nothing strayed in it never
   * exceeds what is due and is exact exactly when nothing is missing.
   */
  lemma BudgetConservation(sts: seq<Statement>, cards: seq<RateCard>, k: BudgetKey)
    requires NonNegative(cards) && forall i :: 0 <= i < |sts| ==> ValidStatement(sts[i])
    requires k in ApplyAll(EMPTY, sts, cards).budgets
    ensures var l := ApplyAll(EMPTY, sts, cards);
            var b := l.budgets[k];
            var now, due := Amount(b.tokens, b.cost), SumInWindow(k, b, l.calls);
            && now.Plus(SumMissing(k, b, l.calls)) == due.Plus(SumStray(k, b, l.calls))
            && (now.AtMost(due) <==> SumStray(k, b, l.calls).AtMost(SumMissing(k, b, l.calls)))
            && (NothingMissing(k, b, l.calls) ==> (now.AtMost(due) <==> NothingStrays(k, b, l.calls)))
            && (NothingStrays(k, b, l.calls) ==> now.AtMost(due) && (now == due <==> NothingMissing(k, b, l.calls)))
  {
    AlwaysInv(sts, cards);
    var l := ApplyAll(EMPTY, sts, cards);
    InvFacts(l, k);
    hide ApplyAll, Inv, CallsOk, SumCounted, SumInWindow, SumMissing, SumStray, NothingMissing, NothingStrays;
    var b := l.budgets[k];
    Balance(k, b, l.calls, l.tick);
    SumMissingIff(k, b, l.calls, l.tick);
    SumStrayIff(k, b, l.calls, l.tick);
  }

  lemma InvFacts(l: Ledger, k: BudgetKey)
    requires Inv(l) && k in l.budgets
    ensures CallsOk(l.calls, l.tick)
    ensures Amount(l.budgets[k].tokens, l.budgets[k].cost) == SumCounted(k, l.budgets[k], l.calls)
  {
    hide CallOk, SumCounted, WindowOf;
    assert BudgetOk(l, k);
  }

  // ------------------------------------------------------ finished runs are exact

  predicate SameFacts(c: Call, d: Call) {
    && c.payload == d.payload && c.price == d.price && c.createdAt == d.createdAt
    && c.capability == d.capability && c.tenant == d.tenant
  }

  /** The charges of c were made at or after the given place. */
  predicate ChargedFrom(c: Call, tick: nat) {
    (c.capCharge.Some? ==> tick <= c.capCharge.value.tick) && (c.tenantCharge.Some? ==>
        tick <= c.tenantCharge.value.tick)
  }

  predicate SameRow(b: Budget, d: Budget) { b.end == d.end && b.since == d.since }

  /** What a later ledger keeps of an earlier one, and when its newer calls were charged. */
  predicate Later(l: Ledger, m: Ledger) {
    && l.tick <= m.tick && |l.calls| <= |m.calls|
    && (forall i :: 0 <= i < |l.calls| ==> SameFacts(l.calls[i], m.calls[i]))
    && (forall i :: |l.calls| <= i < |m.calls| ==> ChargedFrom(m.calls[i], l.tick))
    && (forall k <- l.budgets :: k in m.budgets && SameRow(l.budgets[k], m.budgets[k]))
  }

  lemma StatementIsLater(l: Ledger, m: Ledger, st: Statement, cards: seq<RateCard>)
    requires Later(l, m)
    ensures Later(l, Apply(m, st, cards))
  {
    hide PriceOf, SavingsOf, Chargeable, WindowOf, Known;
  }

  lemma {:induction false} PrefixIsEarlier(sts: seq<Statement>, m: nat, n: nat, cards: seq<RateCard>)
    requires m <= n <= |sts|
    ensures Later(ApplyAll(EMPTY, sts[..m], cards), ApplyAll(EMPTY, sts[..n], cards))
    decreases n
  {
    hide Apply;
    if m < n {
      PrefixIsEarlier(sts, m, n - 1, cards);
      assert sts[..n][..n - 1] == sts[..n - 1];
      StatementIsLater(ApplyAll(EMPTY, sts[..m], cards), ApplyAll(EMPTY, sts[..n - 1], cards), sts[n - 1], cards);
    }
  }

  /** The INSERT of the call and its charge fall on the same side of the borders of the window. */
  predicate OneSide(k: BudgetKey, b: Budget, c: Call) {
    var st := StampOf(c, k.scope);
    st.Some? ==> (k.start <= st.value.at < b.end <==> k.start <= c.createdAt < b.end)
  }

  /**
   * A finished call on one side of the borders is counted exactly when it is due, if it was charged after the row was
   * made.
   */
  lemma FinishedCall(k: BudgetKey, b: Budget, c: Call, tick: nat)
    requires CallOk(c, tick) && c.progress == Complete && OneSide(k, b, c)
    ensures !Stray(k, b, c)
    ensures ChargedFrom(c, b.since) ==> !Missing(k, b, c)
  {
    hide Chargeable;
  }

  /**
   * A run that ends with every event finished, with a row that was there before any call of its
   * window and no clock that crossed a border between an INSERT and its charge: the counters are
   * exactly the tokens and the cost of the priced calls of its scope inside its window.
   */
  lemma FinishedRunIsExact(sts: seq<Statement>, m: nat, cards: seq<RateCard>, k: BudgetKey)
    requires NonNegative(cards) && m <= |sts| && forall i :: 0 <= i < |sts| ==> ValidStatement(sts[i])
    requires var l := ApplyAll(EMPTY, sts[..m], cards);
             k in l.budgets && forall c <- l.calls :: !InWindow(k, l.budgets[k], c)
    requires var l := ApplyAll(EMPTY, sts, cards);
             k in l.budgets ==> forall c <- l.calls :: c.progress == Complete && OneSide(k, l.budgets[k], c)
    ensures var l := ApplyAll(EMPTY, sts, cards);
            && k in l.budgets
            && Amount(l.budgets[k].tokens, l.budgets[k].cost) == SumInWindow(k, l.budgets[k], l.calls)
  {
    hide *;
    var l, z := ApplyAll(EMPTY, sts[..m], cards), ApplyAll(EMPTY, sts, cards);
    assert sts[..|sts|] == sts;
    PrefixIsEarlier(sts, m, |sts|, cards);
    AlwaysInv(sts[..m], cards);
    AlwaysInv(sts, cards);
    RowIsOld(l, k);
    LaterRow(l, z, k);
    InvFacts(z, k);
    CallsAreExact(l, z, k);
    BudgetConservation(sts, cards, k);
  }

  /** Tokens read and tokens written by the priced calls of the scope inside the window. */
  function InputTokens(k: BudgetKey, b: Budget, calls: seq<Call>): int {
    if calls == [] then 0
    else
      var c := calls[|calls| - 1];
      InputTokens(k, b, calls[..|calls| - 1]) + if InWindow(k, b, c) then c.payload.input else 0
  }

  function OutputTokens(k: BudgetKey, b: Budget, calls: seq<Call>): int {
    if calls == [] then 0
    else
      var c := calls[|calls| - 1];
      OutputTokens(k, b, calls[..|calls| - 1]) + if InWindow(k, b, c) then c.payload.output else 0
  }

  lemma {:induction false} UndeclaredTotals(k: BudgetKey, b: Budget, calls: seq<Call>)
    requires forall i :: 0 <= i < |calls| ==> calls[i].payload.total.None?
    ensures SumInWindow(k, b, calls).tokens == InputTokens(k, b, calls) + OutputTokens(k, b, calls)
  {
    hide InWindow;
    if calls != [] {
      UndeclaredTotals(k, b, calls[..|calls| - 1]);
    }
  }

  /** So, when no call declares a total, such a row holds all tokens read and all tokens written. */
  lemma FinishedRunCountsTokens(sts: seq<Statement>, m: nat, cards: seq<RateCard>, k: BudgetKey)
    requires NonNegative(cards) && m <= |sts| && forall i :: 0 <= i < |sts| ==> ValidStatement(sts[i])
    requires var l := ApplyAll(EMPTY, sts[..m], cards);
             k in l.budgets && forall c <- l.calls :: !InWindow(k, l.budgets[k], c)
    requires var l := ApplyAll(EMPTY, sts, cards);
             k in l.budgets ==> forall c <- l.calls :: c.progress == Complete && OneSide(k, l.budgets[k], c)
    requires forall c <- ApplyAll(EMPTY, sts, cards).calls :: c.payload.total.None?
    ensures var l := ApplyAll(EMPTY, sts, cards);
            && k in l.budgets
            && l.budgets[k].tokens
               == InputTokens(k, l.budgets[k], l.calls) + OutputTokens(k, l.budgets[k], l.calls)
  {
    hide *;
    var l := ApplyAll(EMPTY, sts, cards);
    FinishedRunIsExact(sts, m, cards, k);
    UndeclaredTotals(k, l.budgets[k], l.calls);
  }

  lemma LaterRow(l: Ledger, z: Ledger, k: BudgetKey)
    requires Later(l, z) && k in l.budgets
    ensures k in z.budgets && SameRow(l.budgets[k], z.budgets[k])
  {
    hide SameRow;
  }

  /** Nothing strays into a row that was there before its calls, and nothing is missing, once all calls are finished. */
  lemma CallsAreExact(l: Ledger, z: Ledger, k: BudgetKey)
    requires Later(l, z) && k in l.budgets && k in z.budgets && SameRow(l.budgets[k], z.budgets[k])
    requires l.budgets[k].since < l.tick && CallsOk(z.calls, z.tick)
    requires forall c <- l.calls :: !InWindow(k, l.budgets[k], c)
    requires forall c <- z.calls :: c.progress == Complete && OneSide(k, z.budgets[k], c)
    ensures NothingStrays(k, z.budgets[k], z.calls) && NothingMissing(k, z.budgets[k], z.calls)
  {
    hide OneSide, InWindow, Stray, Missing, CallOk, ChargedFrom, SameFacts, AmountOf;
    var b := z.budgets[k];
    forall c | c in z.calls ensures !Stray(k, b, c) && !Missing(k, b, c) {
      var i :| 0 <= i < |z.calls| && z.calls[i] == c;
      FinishedCall(k, b, c, z.tick);
      if i < |l.calls| {
        SameWindow(k, l.budgets[k], b, l.calls[i], c);
      } else {
        ChargedLater(c, l.tick, b.since);
      }
    }
  }

  lemma RowIsOld(l: Ledger, k: BudgetKey)
    requires Inv(l) && k in l.budgets
    ensures l.budgets[k].since < l.tick
  {
    hide WindowOf, SumCounted;
    assert BudgetOk(l, k);
  }

  lemma ChargedLater(c: Call, t: nat, u: nat)
    requires ChargedFrom(c, t) && u <= t
    ensures ChargedFrom(c, u)
  {
  }

  lemma SameWindow(k: BudgetKey, b: Budget, b': Budget, c: Call, c': Call)
    requires SameFacts(c, c') && b.end == b'.end && !InWindow(k, b, c)
    ensures !InWindow(k, b', c') && !Missing(k, b', c')
  {
  }

  /**
   * A call inserted in the last millisecond of a day and charged after midnight, by a clock that
   * never goes back and with a row for either day: the day it was made on counts nothing, and the
   * next day counts it.
   */
  lemma MidnightStraddle(p: Payload, id: string)
    requires p.Valid() && p.cost.Some? && id != ""
    ensures var sts := MidnightRun(p, id);
            var l := ApplyAll(EMPTY, sts, []);
            var day, next := BudgetKey(CapabilityScope, id, DayPeriod, -Calendar.MS_PER_DAY),
                BudgetKey(CapabilityScope, id, DayPeriod, 0);
            && day in l.budgets && next in l.budgets && |l.calls| == 1
            && InWindow(day, l.budgets[day], l.calls[0]) && l.budgets[day].tokens == 0 && l.budgets[day].cost == 0.0
            && Stray(next, l.budgets[next], l.calls[0])
            && l.budgets[next].tokens == p.Total() && l.budgets[next].cost == p.cost.value
  {
    hide WindowOf, SavingsOf, ApplyAll;
    var sts := MidnightRun(p, id);
    BeforeTheCharge(p, id);
    OneStatement(sts, 4);
    assert sts[..5] == sts;
  }

  /** The ledger when the charge comes: two empty rows and the call. */
  lemma BeforeTheCharge(p: Payload, id: string)
    requires p.Valid() && p.cost.Some? && id != ""
    ensures var l := ApplyAll(EMPTY, MidnightRun(p, id)[..4], []);
            var day, next := BudgetKey(CapabilityScope, id, DayPeriod, -Calendar.MS_PER_DAY),
                BudgetKey(CapabilityScope, id, DayPeriod, 0);
            && l.calls == [Call(p, Price(p.cost, None), Some(id), None, -1, SavingsDone, None, None)] && l.tick == 2
            && l.budgets == map[day := Budget(0, 0, 0.0, 0), next := Budget(Calendar.MS_PER_DAY, 0, 0.0, 1)]
  {
    var sts := MidnightRun(p, id);
    assert ApplyAll(EMPTY, sts[..0], []) == EMPTY;
    hide ApplyAll, MidnightRun;
    OneStatement(sts, 0);
    OneStatement(sts, 1);
    FirstTwo(p, id);
    hide Apply;
    OneStatement(sts, 2);
    OneStatement(sts, 3);
    NextTwo(p, id);
  }

  /** A row for the first day, and the call at its last millisecond. */
  function MadeOnFirstDay(p: Payload, id: string): Ledger {
    var day := BudgetKey(CapabilityScope, id, DayPeriod, -Calendar.MS_PER_DAY);
    Ledger([Call(p, Price(p.cost, None), Some(id), None, -1, Inserted, None, None)], [],
           map[day := Budget(0, 0, 0.0, 0)], 1)
  }

  lemma FirstTwo(p: Payload, id: string)
    requires p.cost.Some?
    ensures var sts := MidnightRun(p, id);
            Apply(Apply(EMPTY, sts[0], []), sts[1], []) == MadeOnFirstDay(p, id)
  {
    DayWindows();
    hide WindowOf, SavingsOf;
  }

  lemma NextTwo(p: Payload, id: string)
    requires p.cost.Some?
    ensures var sts := MidnightRun(p, id);
            var l := Apply(Apply(MadeOnFirstDay(p, id), sts[2], []), sts[3], []);
            var day, next := BudgetKey(CapabilityScope, id, DayPeriod, -Calendar.MS_PER_DAY),
                BudgetKey(CapabilityScope, id, DayPeriod, 0);
            && l.calls == [Call(p, Price(p.cost, None), Some(id), None, -1, SavingsDone, None, None)] && l.tick == 2
            && l.budgets == map[day := Budget(0, 0, 0.0, 0), next := Budget(Calendar.MS_PER_DAY, 0, 0.0, 1)]
  {
    DayWindows();
    hide WindowOf, SavingsOf;
  }

  lemma OneStatement(sts: seq<Statement>, n: nat)
    requires n < |sts|
    ensures ApplyAll(EMPTY, sts[..n + 1], []) == Apply(ApplyAll(EMPTY, sts[..n], []), sts[n], [])
  {
    hide Apply;
    assert sts[..n + 1][..n] == sts[..n];
  }

  /** A row for the first day, the call at its last millisecond, a row for the next day, the charge. */
  function MidnightRun(p: Payload, id: string): seq<Statement> {
    [Upsert(CapabilityScope, id, DayPeriod, -1), Insert(Event(p, Some(id), None), -1), Savings(0),
     Upsert(CapabilityScope, id, DayPeriod, 0), ChargeScope(0, CapabilityScope, 0)]
  }

  lemma DayWindows()
    ensures WindowOf(DayPeriod, -1) == Window(-Calendar.MS_PER_DAY, 0) &&
        WindowOf(DayPeriod, 0) == Window(0, Calendar.MS_PER_DAY)
  {
  }

  /** At any time at most one row of a scope and period is active, so one bump changes at most one of them. */
  lemma OneActiveRowPerPeriod(l: Ledger, a: BudgetKey, b: BudgetKey, now: int)
    requires Inv(l) && a in l.budgets && b in l.budgets
    requires a.scope == b.scope && a.id == b.id && a.period == b.period
    requires a.start <= now < l.budgets[a].end && b.start <= now < l.budgets[b].end
    ensures a == b
  {
    hide Inv, WindowOf;
    var t := RowWindow(l, a);
    var u := RowWindow(l, b);
    WindowsPartitionTime(a.period, t, u);
    assert WindowOf(a.period, t).Has(now) && WindowOf(b.period, u).Has(now);
  }

  lemma RowWindow(l: Ledger, k: BudgetKey) returns (t: int)
    requires Inv(l) && k in l.budgets
    ensures WindowOf(k.period, t) == Window(k.start, l.budgets[k].end)
  {
    hide WindowOf;
    assert BudgetOk(l, k);
    t :| WindowOf(k.period, t) == Window(k.start, l.budgets[k].end);
  }

  // ------------------------------------------------------------------ replay

  /** The clock readings of the statements of one event. */
  datatype Clock = Clock(insert: int, capability: int, tenant: int)

  /** denormaliseLlmCall, without a stop: nothing at all when the gateway call is already known. */
  function Process(l: Ledger, e: Event, cards: seq<RateCard>, t: Clock): Ledger {
    if Known(l.calls, e.payload.gatewayId) then l
    else
      var i := |l.calls|;
      var l1 := RecordSavings(InsertCall(l, e, cards, t.insert), i);
      Charge(Charge(l1, i, CapabilityScope, t.capability), i, TenantScope, t.tenant)
  }

  datatype Arrival = Arrival(event: Event, clock: Clock)

  function ProcessAll(l: Ledger, xs: seq<Arrival>, cards: seq<RateCard>): Ledger
    decreases |xs|
  {
    if xs == [] then l else ProcessAll(Process(l, xs[0].event, cards, xs[0].clock), xs[1..], cards)
  }

  /** Whole events are runs of statements, so they keep the invariant. */
  lemma ProcessKeepsInv(l: Ledger, e: Event, cards: seq<RateCard>, t: Clock)
    requires Inv(l) && e.payload.Valid() && NonNegative(cards)
    ensures Inv(Process(l, e, cards, t))
  {
    hide Inv, RecordSavings, Charge;
    if !Known(l.calls, e.payload.gatewayId) {
      var i := |l.calls|;
      var l1 := InsertCall(l, e, cards, t.insert);
      InsertKeepsInv(l, e, cards, t.insert);
      SameLength(l1, i);
      SavingsKeepsInv(l1, i);
      var l2 := RecordSavings(l1, i);
      SameLength(l2, i);
      ChargeKeepsInv(l2, i, CapabilityScope, t.capability);
      ChargeKeepsInv(Charge(l2, i, CapabilityScope, t.capability), i, TenantScope, t.tenant);
    }
  }

  lemma SameLength(l: Ledger, i: nat)
    requires i < |l.calls|
    ensures |RecordSavings(l, i).calls| == |l.calls|
    ensures forall s, now :: |Charge(l, i, s, now).calls| == |l.calls|
  {
  }

  /** Exactly when processing an event leaves no trace in calls, savings and budgets. */
  lemma ProcessIsNoopIff(l: Ledger, e: Event, cards: seq<RateCard>, t: Clock)
    ensures Process(l, e, cards, t) == l <==> Known(l.calls, e.payload.gatewayId)
  {
    hide RecordSavings, Charge, PriceOf;
    if !Known(l.calls, e.payload.gatewayId) {
      ProcessAppends(l, e, cards, t);
    }
  }

  lemma ProcessAppends(l: Ledger, e: Event, cards: seq<RateCard>, t: Clock)
    requires !Known(l.calls, e.payload.gatewayId)
    ensures var l' := Process(l, e, cards, t);
            |l'.calls| == |l.calls| + 1 && l'.calls[..|l.calls|] == l.calls && l'.calls[|l.calls|].payload == e.payload
  {
    hide PriceOf, SavingsOf, Chargeable, Bump;
  }

  /** By the fields of the call: it is priced, and the row is one of its scope id and covers the moment. */
  predicate BumpedBy(c: Call, s: ScopeType, now: int, k: BudgetKey, b: Budget) {
    && c.price.cost.Some? && k.scope == s && k.id != "" && k.start <= now < b.end
    && Some(k.id) == match s case CapabilityScope => c.capability case TenantScope => c.tenant
  }

  /** The row gains the price and the declared total, or else the tokens read and written. */
  function Bumped(b: Budget, c: Call): Budget
    requires c.price.cost.Some?
  {
    var p := c.payload;
    b.(cost := b.cost + c.price.cost.value,
       tokens := b.tokens + match p.total case Some(n) => n case None => p.input + p.output)
  }

  /** One half of bumpBudgets, by the fields of the call. */
  lemma ChargeRow(l: Ledger, i: nat, s: ScopeType, now: int, k: BudgetKey)
    requires i < |l.calls| && l.calls[i].progress == Due(s) && k in l.budgets
    ensures var l', c, b := Charge(l, i, s, now), l.calls[i], l.budgets[k];
            && l'.budgets.Keys == l.budgets.Keys && |l'.calls| == |l.calls|
            && l'.calls[i].(progress := c.progress, capCharge := c.capCharge, tenantCharge := c.tenantCharge) == c
            && l'.calls[i].progress == (if s == CapabilityScope then CapabilityDone else Complete)
            && l'.budgets[k] == if BumpedBy(c, s, now, k, b) then Bumped(b, c) else b
  {
  }

  /** The row is one of a scope id the event carries, and covers the moment at which that scope is charged. */
  predicate ChargesRow(e: Event, t: Clock, k: BudgetKey, b: Budget) {
    && k.id != ""
    && match k.scope
       case CapabilityScope => e.capability == Some(k.id) && k.start <= t.capability < b.end
       case TenantScope => e.tenant == Some(k.id) && k.start <= t.tenant < b.end
  }

  /**
   * What one event does to the budgets: if its call is new and priced, every row it charges gains the price and the
   * declared total, or else the tokens read and written; and nothing else changes.
   */
  lemma EventCharges(l: Ledger, e: Event, cards: seq<RateCard>, t: Clock, k: BudgetKey)
    requires k in l.budgets
    ensures var l', price, b := Process(l, e, cards, t), PriceOf(e.payload, cards, t.insert).cost, l.budgets[k];
            && l'.budgets.Keys == l.budgets.Keys
            && l'.budgets[k]
               == if !Known(l.calls, e.payload.gatewayId) && price.Some? && ChargesRow(e, t, k, b)
                  then b.(cost := b.cost + price.value,
                          tokens := b.tokens + (match e.payload.total
                                                case Some(n) => n
                                                case None => e.payload.input + e.payload.output))
                  else b
  {
    if !Known(l.calls, e.payload.gatewayId) {
      var i := |l.calls|;
      var c := Call(e.payload, PriceOf(e.payload, cards, t.insert), e.capability, e.tenant, t.insert, Inserted, None,
                    None);
      var l1 := InsertCall(l, e, cards, t.insert);
      assert l1.calls[i] == c;
      hide PriceOf, SavingsOf, InsertCall;
      var l2 := RecordSavings(l1, i);
      assert l2.calls[i] == c.(progress := SavingsDone) && l2.budgets == l.budgets;
      ChargeRow(l2, i, CapabilityScope, t.capability, k);
      var l3 := Charge(l2, i, CapabilityScope, t.capability);
      hide RecordSavings;
      ChargeRow(l3, i, TenantScope, t.tenant, k);
    }
  }

  /** An id known before stays known; the id of a processed event is known. */
  lemma KnownAfter(l: Ledger, e: Event, cards: seq<RateCard>, t: Clock, id: Option<string>)
    ensures Known(Process(l, e, cards, t).calls, id) <==> Known(l.calls, id) || (id.Some? && id == e.payload.gatewayId)
  {
    if !Known(l.calls, e.payload.gatewayId) {
      ProcessAppends(l, e, cards, t);
      var calls := Process(l, e, cards, t).calls;
      hide Process;
      if Known(l.calls, id) {
        var i :| 0 <= i < |l.calls| && l.calls[i].payload.gatewayId == id;
        assert calls[i] == calls[..|l.calls|][i];
      }
      if Known(calls, id) {
        var i :| 0 <= i < |calls| && calls[i].payload.gatewayId == id;
        if i < |l.calls| {
          assert calls[i] == calls[..|l.calls|][i];
        }
      }
    }
  }

  /** The arrivals without those whose gateway call was seen before. */
  function WithoutDuplicates(xs: seq<Arrival>, seen: set<string>): seq<Arrival> {
    if xs == [] then []
    else
      var id := xs[0].event.payload.gatewayId;
      if id.Some? && id.value in seen then WithoutDuplicates(xs[1..], seen)
      else [xs[0]] + WithoutDuplicates(xs[1..], if id.Some? then seen + {id.value} else seen)
  }

  /** What is left of a sequence without duplicates holds no id seen before, and none twice. */
  lemma {:induction false} NoDuplicatesLeft(xs: seq<Arrival>, seen: set<string>, i: nat, j: nat)
    requires i < j < |WithoutDuplicates(xs, seen)|
    ensures var ys := WithoutDuplicates(xs, seen);
            ys[j].event.payload.gatewayId.Some? ==>
              ys[j].event.payload.gatewayId != ys[i].event.payload.gatewayId &&
              ys[j].event.payload.gatewayId.value !in seen
  {
    var id := xs[0].event.payload.gatewayId;
    if id.Some? && id.value in seen {
      NoDuplicatesLeft(xs[1..], seen, i, j);
    } else {
      var now := if id.Some? then seen + {id.value} else seen;
      var rest := WithoutDuplicates(xs[1..], now);
      NoneSeen(xs[1..], now, j - 1);
      if i > 0 {
        NoDuplicatesLeft(xs[1..], now, i - 1, j - 1);
      }
    }
  }

  lemma {:induction false} NoneSeen(xs: seq<Arrival>, seen: set<string>, j: nat)
    requires j < |WithoutDuplicates(xs, seen)|
    ensures var id := WithoutDuplicates(xs, seen)[j].event.payload.gatewayId; id.Some? ==> id.value !in seen
  {
    var id := xs[0].event.payload.gatewayId;
    if id.Some? && id.value in seen {
      NoneSeen(xs[1..], seen, j);
    } else if j > 0 {
      NoneSeen(xs[1..], if id.Some? then seen + {id.value} else seen, j - 1);
    }
  }

  lemma {:induction false} ProcessAllConcat(l: Ledger, xs: seq<Arrival>, ys: seq<Arrival>, cards: seq<RateCard>)
    ensures ProcessAll(l, xs + ys, cards) == ProcessAll(ProcessAll(l, xs, cards), ys, cards)
    decreases |xs|
  {
    hide Process;
    if xs == [] {
      assert xs + ys == ys;
    } else {
      assert (xs + ys)[0] == xs[0] && (xs + ys)[1..] == xs[1..] + ys;
      ProcessAllConcat(Process(l, xs[0].event, cards, xs[0].clock), xs[1..], ys, cards);
    }
  }

  /** A single replay, anywhere after the call it repeats, can be left out. */
  lemma ReplayIsNothing(l: Ledger, before: seq<Arrival>, i: nat, again: Arrival, rest: seq<Arrival>,
                        cards: seq<RateCard>)
    requires i < |before| && before[i].event.payload.gatewayId.Some?
    requires again.event.payload.gatewayId == before[i].event.payload.gatewayId
    ensures ProcessAll(l, before + [again] + rest, cards) == ProcessAll(l, before + rest, cards)
  {
    var l' := ProcessAll(l, before, cards);
    KnownAfterAll(l, before, cards, i);
    ProcessIsNoopIff(l', again.event, cards, again.clock);
    ProcessAllConcat(l, before, [again] + rest, cards);
    ProcessAllConcat(l, before, rest, cards);
    hide Process, Known;
    assert before + [again] + rest == before + ([again] + rest);
    assert ([again] + rest)[0] == again && ([again] + rest)[1..] == rest;
  }

  /** Replay invariance: duplicates change nothing, wherever they arrive and whatever the clock says. */
  lemma {:induction false} ReplayInvariance(l: Ledger, xs: seq<Arrival>, cards: seq<RateCard>, seen: set<string>)
    requires forall id :: id in seen <==> Known(l.calls, Some(id))
    ensures ProcessAll(l, xs, cards) == ProcessAll(l, WithoutDuplicates(xs, seen), cards)
    decreases |xs|
  {
    if xs != [] {
      var e, t := xs[0].event, xs[0].clock;
      var id, l' := e.payload.gatewayId, Process(l, e, cards, t);
      var seen' := if id.Some? then seen + {id.value} else seen;
      forall j ensures j in seen' <==> Known(l'.calls, Some(j)) {
        KnownAfter(l, e, cards, t, Some(j));
      }
      ProcessIsNoopIff(l, e, cards, t);
      ReplayInvariance(l', xs[1..], cards, seen');
      hide Process, Known;
      if id.Some? && id.value in seen {
        assert seen' == seen;
      } else {
        var rest := WithoutDuplicates(xs[1..], seen');
        assert ([xs[0]] + rest)[1..] == rest;
      }
    }
  }

  /** Re-sending a whole batch after a stop between two of its events is as good as sending the rest. */
  lemma {:induction false} ResendIsRest(l: Ledger, done: seq<Arrival>, again: seq<Arrival>, rest: seq<Arrival>,
                                        cards: seq<RateCard>)
    requires |again| == |done|
    requires forall i :: 0 <= i < |done| ==> done[i].event.payload.gatewayId.Some?
    requires forall i :: 0 <= i < |done| ==> again[i].event.payload.gatewayId == done[i].event.payload.gatewayId
    ensures ProcessAll(ProcessAll(l, done, cards), again + rest, cards) == ProcessAll(ProcessAll(l, done, cards),
        rest, cards)
  {
    hide Process;
    var l' := ProcessAll(l, done, cards);
    forall i | 0 <= i < |again| ensures Known(l'.calls, again[i].event.payload.gatewayId) {
      KnownAfterAll(l, done, cards, i);
    }
    KnownPrefixIsNoop(l', again, rest, cards);
  }

  lemma {:induction false} KnownStays(l: Ledger, xs: seq<Arrival>, cards: seq<RateCard>, id: Option<string>)
    requires Known(l.calls, id)
    ensures Known(ProcessAll(l, xs, cards).calls, id)
    decreases |xs|
  {
    hide Process, Known;
    if xs != [] {
      KnownAfter(l, xs[0].event, cards, xs[0].clock, id);
      KnownStays(Process(l, xs[0].event, cards, xs[0].clock), xs[1..], cards, id);
    }
  }

  lemma {:induction false} KnownAfterAll(l: Ledger, xs: seq<Arrival>, cards: seq<RateCard>, i: nat)
    requires i < |xs| && xs[i].event.payload.gatewayId.Some?
    ensures Known(ProcessAll(l, xs, cards).calls, xs[i].event.payload.gatewayId)
    decreases |xs|
  {
    hide Process, Known;
    var l' := Process(l, xs[0].event, cards, xs[0].clock);
    if i == 0 {
      KnownAfter(l, xs[0].event, cards, xs[0].clock, xs[0].event.payload.gatewayId);
      KnownStays(l', xs[1..], cards, xs[0].event.payload.gatewayId);
    } else {
      assert xs[1..][i - 1] == xs[i];
      KnownAfterAll(l', xs[1..], cards, i - 1);
    }
  }

  lemma {:induction false} KnownPrefixIsNoop(l: Ledger, again: seq<Arrival>, rest: seq<Arrival>, cards: seq<RateCard>)
    requires forall i :: 0 <= i < |again| ==> Known(l.calls, again[i].event.payload.gatewayId)
    ensures ProcessAll(l, again + rest, cards) == ProcessAll(l, rest, cards)
  {
    if again == [] {
      assert again + rest == rest;
    } else {
      ProcessIsNoopIff(l, again[0].event, cards, again[0].clock);
      hide Process, Known;
      KnownPrefixIsNoop(l, again[1..], rest, cards);
      assert (again + rest)[0] == again[0] && (again + rest)[1..] == again[1..] + rest;
    }
  }

  /** A replay does not repair a half-processed call: no later event ever touches the row of another. */
  lemma {:induction false} HalfProcessedStays(l: Ledger, xs: seq<Arrival>, cards: seq<RateCard>)
    ensures |l.calls| <= |ProcessAll(l, xs, cards).calls| && ProcessAll(l, xs, cards).calls[..|l.calls|] == l.calls
    decreases |xs|
  {
    if xs != [] {
      var e, t := xs[0].event, xs[0].clock;
      var l' := Process(l, e, cards, t);
      if !Known(l.calls, e.payload.gatewayId) {
        ProcessAppends(l, e, cards, t);
      }
      hide Process, Known;
      HalfProcessedStays(l', xs[1..], cards);
      var z := ProcessAll(l', xs[1..], cards).calls;
      assert z[..|l.calls|] == z[..|l'.calls|][..|l.calls|];
    }
  }
}
