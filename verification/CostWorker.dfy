/** cost-worker.ts and routes-events.ts: the statements of CostLedger as the handlers run them. */
module CostWorker {
  import opened Options
  import opened Pricing
  import opened CostLedger

  /** What arrives at ingestOne. */
  datatype Incoming =
    | Rejected                              // eventSchema or the source allowlist throws
    | OtherEvent                            // another kind, no payload, or a payload that safeParse refuses
    | LlmCall(event: Event, clock: Clock)

  /** What safeParse guarantees of a payload it accepts. */
  predicate Parsed(x: Incoming) { x.LlmCall? ==> x.event.payload.Valid() }

  /** The calls among the events, in order of arrival. */
  function Calls(xs: seq<Incoming>): seq<Arrival> {
    if xs == [] then []
    else Calls(xs[..|xs| - 1]) +
         (if xs[|xs| - 1].LlmCall? then [Arrival(xs[|xs| - 1].event, xs[|xs| - 1].clock)] else [])
  }

  lemma {:induction false} ProcessAllOneMore(l: Ledger, xs: seq<Arrival>, x: Arrival, cards: seq<RateCard>)
    ensures ProcessAll(l, xs + [x], cards) == Process(ProcessAll(l, xs, cards), x.event, cards, x.clock)
    decreases |xs|
  {
    hide Process;
    if xs == [] {
      assert ([] + [x])[1..] == [];
    } else {
      assert (xs + [x])[0] == xs[0] && (xs + [x])[1..] == xs[1..] + [x];
      ProcessAllOneMore(Process(l, xs[0].event, cards, xs[0].clock), xs[1..], x, cards);
    }
  }

  predicate AllParsed(xs: seq<Incoming>) { forall x <- xs :: Parsed(x) }

  lemma NothingProcessed(l: Ledger, xs: seq<Incoming>, cards: seq<RateCard>)
    ensures ProcessAll(l, Calls(xs[..0]), cards) == l
  {
  }

  /** One more event of the batch. */
  lemma OneMoreEvent(l: Ledger, xs: seq<Incoming>, i: nat, cards: seq<RateCard>)
    requires i < |xs|
    ensures var before, x := ProcessAll(l, Calls(xs[..i]), cards), xs[i];
            ProcessAll(l, Calls(xs[..i + 1]), cards)
              == if x.LlmCall? then Process(before, x.event, cards, x.clock) else before
    ensures AllParsed(xs) ==> Parsed(xs[i])
  {
    hide Process, ProcessAll;
    var x := xs[i];
    assert xs[..i + 1][..i] == xs[..i];
    if x.LlmCall? {
      ProcessAllOneMore(l, Calls(xs[..i]), Arrival(x.event, x.clock), cards);
    } else {
      assert Calls(xs[..i]) + [] == Calls(xs[..i]);
    }
  }

  class EventService {
    var calls: seq<Call>
    var savings: seq<Saving>
    var budgets: map<BudgetKey, Budget>
    var auditEvents: nat
    var tick: nat  // the place of the next statement that touches budgets
    const cards: seq<RateCard>

    function Rows(): Ledger
      reads this
    {
      Ledger(calls, savings, budgets, tick)
    }

    /** The counters of every budget row are the calls charged to it, with one savings row per call at most. */
    ghost predicate Valid()
      reads this
    {
      Inv(Rows()) && NonNegative(cards)
    }

    constructor (cards: seq<RateCard>)
      ensures Rows() == EMPTY && auditEvents == 0 && this.cards == cards
      ensures NonNegative(cards) ==> Valid()
    {
      this.cards := cards;
      calls, savings, budgets, auditEvents, tick := [], [], map[], 0, 0;
      new;
      hide Inv;
      if NonNegative(cards) {
        AlwaysInv([], cards);
      }
    }

    /** denormaliseLlmCall */
    method Denormalise(e: Event, t: Clock)
      modifies this`calls, this`savings, this`budgets, this`tick
      ensures Rows() == Process(old(Rows()), e, cards, t)
      ensures old(Valid()) && e.payload.Valid() ==> Valid()
      ensures Known(old(calls), e.payload.gatewayId) ==> Rows() == old(Rows())
      ensures !Known(old(calls), e.payload.gatewayId) ==>
          |calls| == |old(calls)| + 1 && calls[..|old(calls)|] == old(calls)
    {
      ghost var start := Rows();
      if Valid() && e.payload.Valid() {
        ProcessKeepsInv(start, e, cards, t);
      }
      if !Known(calls, e.payload.gatewayId) {
        ProcessAppends(start, e, cards, t);
      }
      hide Inv, Process;
      DenormaliseSteps(e, t);
    }

    /** The steps of denormaliseLlmCall, one statement after the other. */
    method DenormaliseSteps(e: Event, t: Clock)
      modifies this`calls, this`savings, this`budgets, this`tick
      ensures Rows() == Process(old(Rows()), e, cards, t)
    {
      var p := e.payload;
      var costUsd: Option<real> := None;
      var rate: Option<RateCard> := None;
      if p.cost.Some? {
        costUsd := p.cost;
      } else {
        rate := Lookup(cards, p.provider, p.model, t.insert);
        if rate.Some? {
          costUsd := Some(CostAt(p, rate.value.inputPer1k, rate.value.outputPer1k));
        }
      }
      hide SavingsOf, CostAt, Lookup;
      if Known(calls, p.gatewayId) {
        return;
      }
      var i := |calls|;
      var call := Call(p, Price(costUsd, rate), e.capability, e.tenant, t.insert, Inserted, None, None);
      ghost var before := Rows();
      calls := calls + [call];
      assert Rows() == InsertCall(before, e, cards, t.insert);
      var row := SavingsOf(p, Price(costUsd, rate));
      if row.Some? {
        savings := savings + [Saving(i, row.value)];
      }
      calls := calls[i := call.(progress := SavingsDone)];
      BumpBudgets(i, CapabilityScope, t.capability);
      BumpBudgets(i, TenantScope, t.tenant);
    }

    /** One half of bumpBudgets: skipped for an unpriced call, and for a missing or empty scope id. */
    method BumpBudgets(i: nat, s: ScopeType, now: int)
      requires i < |calls| && calls[i].progress == Due(s)
      modifies this`calls, this`budgets, this`tick
      ensures Rows() == Charge(old(Rows()), i, s, now)
      ensures budgets.Keys == old(budgets).Keys && |calls| == |old(calls)|
      ensures forall j :: 0 <= j < |calls| && j != i ==> calls[j] == old(calls)[j]
      ensures forall k <- old(budgets) ::
                budgets[k] == if BumpedBy(old(calls)[i], s, now, k, old(budgets)[k])
                              then Bumped(old(budgets)[k], old(calls)[i]) else old(budgets)[k]
    {
      var c := calls[i];
      var id := if s == CapabilityScope then c.capability else c.tenant;
      if c.price.cost.Some? && id.Some? && id.value != "" {
        budgets := Bump(budgets, s, id.value, now, c.payload.Total(), c.price.cost.value);
        calls := calls[i := Charged(c, s, Stamp(now, tick))];
        tick := tick + 1;
      } else {
        calls := calls[i := Skipped(c, s)];
      }
    }

    /** ingestOne: the audit row first, then the denormalisation. */
    method IngestOne(x: Incoming) returns (ok: bool)
      modifies this`calls, this`savings, this`budgets, this`tick, this`auditEvents
      ensures ok <==> !x.Rejected?
      ensures auditEvents == old(auditEvents) + (if ok then 1 else 0)
      ensures Rows() == if x.LlmCall? then Process(old(Rows()), x.event, cards, x.clock) else old(Rows())
      ensures old(Valid()) && Parsed(x) ==> Valid()
    {
      hide Inv, Process;
      if x.Rejected? {
        return false;
      }
      auditEvents := auditEvents + 1;
      if x.LlmCall? {
        Denormalise(x.event, x.clock);
      }
      return true;
    }

    /**
     * POST /events/batch: one event after the other; the first one that throws ends the request, and nothing is
     * undone.
     */
    method IngestBatch(xs: seq<Incoming>, maxBatch: nat) returns (status: int, ingested: nat)
      modifies this`calls, this`savings, this`budgets, this`tick, this`auditEvents
      ensures status == 400 <==> xs == [] || |xs| > maxBatch
      ensures status == 400 ==> ingested == 0
      ensures ingested <= |xs| && Rows() == ProcessAll(old(Rows()), Calls(xs[..ingested]), cards)
      ensures auditEvents == old(auditEvents) + ingested
      ensures forall i :: 0 <= i < ingested ==> !xs[i].Rejected?
      ensures status == 201 ==> ingested == |xs| > 0
      ensures status == 500 ==> ingested < |xs| && xs[ingested].Rejected?
      ensures status == 201 || status == 400 || status == 500
      ensures old(Valid()) && AllParsed(xs) ==> Valid()
    {
      hide Process, ProcessAll, Calls, Parsed, AllParsed, Inv, NonNegative;
      ingested := 0;
      NothingProcessed(Rows(), xs, cards);
      if |xs| == 0 || |xs| > maxBatch {
        return 400, 0;
      }
      ghost var start, valid := Rows(), Valid() && AllParsed(xs);
      while ingested < |xs|
        invariant valid ==> Valid()
        invariant ingested <= |xs| && Rows() == ProcessAll(start, Calls(xs[..ingested]), cards)
        invariant auditEvents == old(auditEvents) + ingested
        invariant forall i :: 0 <= i < ingested ==> !xs[i].Rejected?
      {
        var x := xs[ingested];
        OneMoreEvent(start, xs, ingested, cards);
        var ok := IngestOne(x);
        if !ok {
          return 500, ingested;
        }
        ingested := ingested + 1;
      }
      status := 201;
    }
  }
}
