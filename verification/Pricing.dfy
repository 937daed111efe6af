/**
 * audit-governance-service/src/cost-worker.ts: what a call costs, and what
 * its cache or compression metrics claim to have saved. Money is real.
 */
module Pricing {
  import opened Options

  datatype RateCard = RateCard(id: int, provider: string, model: string, inputPer1k: real, outputPer1k: real,
                               effectiveFrom: int, effectiveTo: Option<int>)

  predicate Active(c: RateCard, provider: string, model: string, now: int) {
    && c.provider == provider && c.model == model && c.effectiveFrom <= now
    && (c.effectiveTo.Some? ==> now < c.effectiveTo.value)
  }

  /** ORDER BY effective_from DESC LIMIT 1 among the active cards. */
  function Lookup(cards: seq<RateCard>, provider: string, model: string, now: int): (r: Option<RateCard>)
    ensures r.Some? ==> r.value in cards && Active(r.value, provider, model, now)
    ensures forall c :: c in cards && Active(c, provider, model, now) ==>
        r.Some? && c.effectiveFrom <= r.value.effectiveFrom
  {
    if cards == [] then None
    else
      var rest := Lookup(cards[1..], provider, model, now);
      if Active(cards[0], provider, model, now) && (rest.None? || rest.value.effectiveFrom <= cards[0].effectiveFrom)
      then Some(cards[0]) else rest
  }

  /** A JSON value in a payload: a number, or anything else that is not null. */
  datatype Value = Num(n: real) | Other

  datatype Metrics = Metrics(cacheRead: Option<Value>, cacheWrite: Option<Value>, cachedInput: Option<Value>,
                             compOriginal: Option<Value>, compCompressed: Option<Value>)

  /** A payload that passed llmCallPayload.safeParse, with the metrics of maybeRecordSavings beside it. */
  datatype Payload = Payload(provider: string, model: string, input: nat, output: nat, total: Option<nat>,
                             cost: Option<real>, gatewayId: Option<string>,
                             flat: Metrics, optimization: Option<Metrics>)
  {
    /** z.number().nonnegative() on cost_usd. */
    predicate Valid() { cost.Some? ==> cost.value >= 0.0 }

    function Total(): nat { if total.Some? then total.value else input + output }
  }

  function NumberOrZero(v: Option<Value>): real {
    if v.Some? && v.value.Num? && v.value.n > 0.0 then v.value.n else 0.0
  }

  function OrElse(a: Option<Value>, b: Option<Value>): Option<Value> { if a.Some? then a else b }

  /** The price of a call: the one it carries, else that of the active rate card, else none. */
  datatype Price = Price(cost: Option<real>, card: Option<RateCard>)

  function CostAt(p: Payload, inRate: real, outRate: real): real {
    (p.input as real / 1000.0) * inRate + (p.output as real / 1000.0) * outRate
  }

  function PriceOf(p: Payload, cards: seq<RateCard>, now: int): (r: Price)
    ensures r.card.Some? ==>
        p.cost.None? && r.cost == Some(CostAt(p, r.card.value.inputPer1k, r.card.value.outputPer1k))
  {
    if p.cost.Some? then Price(p.cost, None)
    else match Lookup(cards, p.provider, p.model, now)
      case None => Price(None, None)
      case Some(c) => Price(Some(CostAt(p, c.inputPer1k, c.outputPer1k)), Some(c))
  }

  /** A card that prices calls of a provider and model at a time: its own, in force, and none began later. */
  predicate IsLatestFor(c: RateCard, cards: seq<RateCard>, provider: string, model: string, now: int) {
    && c in cards && c.provider == provider && c.model == model
    && c.effectiveFrom <= now && c.effectiveTo != Some(now) && (c.effectiveTo.Some? ==> c.effectiveTo.value > now)
    && forall other <- cards ::
         other.provider == provider && other.model == model && c.effectiveFrom < other.effectiveFrom <= now ==>
           other.effectiveTo.Some? && other.effectiveTo.value <= now
  }

  /** A thousandth of the rate for each token read, and of the other rate for each token written. */
  lemma CostOfCall(p: Payload, cards: seq<RateCard>, now: int)
    requires p.cost.None? && PriceOf(p, cards, now).cost.Some?
    ensures exists c <- cards ::
              && IsLatestFor(c, cards, p.provider, p.model, now) && PriceOf(p, cards, now).card == Some(c)
              && 1000.0 * PriceOf(p, cards, now).cost.value
                 == p.input as real * c.inputPer1k + p.output as real * c.outputPer1k
  {
    var c := PriceOf(p, cards, now).card.value;
    LookupIsLatest(p, cards, now);
    Thousandth(p.input as real, c.inputPer1k);
    Thousandth(p.output as real, c.outputPer1k);
    hide Lookup;
  }

  lemma LookupIsLatest(p: Payload, cards: seq<RateCard>, now: int)
    requires Lookup(cards, p.provider, p.model, now).Some?
    ensures IsLatestFor(Lookup(cards, p.provider, p.model, now).value, cards, p.provider, p.model, now)
  {
    var r := Lookup(cards, p.provider, p.model, now);
    forall other <- cards | other.provider == p.provider && other.model == p.model &&
        r.value.effectiveFrom < other.effectiveFrom <= now
      ensures other.effectiveTo.Some? && other.effectiveTo.value <= now
    {
      assert !Active(other, p.provider, p.model, now);
    }
    hide Lookup;
  }

  lemma Thousandth(tokens: real, rate: real)
    ensures 1000.0 * (tokens / 1000.0 * rate) == tokens * rate
  {
  }

  /** A call is priced if it carries a price, whatever the cards say, or if some card is active; otherwise it is not. */
  lemma PricedIff(p: Payload, cards: seq<RateCard>, now: int)
    ensures PriceOf(p, cards, now).cost.Some? <==>
        p.cost.Some? || exists c <- cards :: Active(c, p.provider, p.model, now)
    ensures p.cost.Some? ==> PriceOf(p, cards, now) == PriceOf(p, [], now) && PriceOf(p, cards, now).cost == p.cost
  {
  }

  predicate NonNegative(cards: seq<RateCard>) {
    forall c :: c in cards ==> c.inputPer1k >= 0.0 && c.outputPer1k >= 0.0
  }

  lemma CostNonNegative(p: Payload, cards: seq<RateCard>, now: int)
    requires p.Valid() && NonNegative(cards)
    ensures var r := PriceOf(p, cards, now); r.cost.Some? ==> r.cost.value >= 0.0
  {
    var r := PriceOf(p, cards, now);
    if r.card.Some? {
      var i, o := p.input as real / 1000.0, p.output as real / 1000.0;
      assert i >= 0.0 && o >= 0.0;
      ProductNonNegative(i, r.card.value.inputPer1k);
      ProductNonNegative(o, r.card.value.outputPer1k);
    }
  }

  lemma ProductNonNegative(a: real, b: real)
    requires a >= 0.0 && b >= 0.0
    ensures a * b >= 0.0
  {
  }

  // ---------------------------------------------------------------- savings

  datatype Mode = Cache | Compression

  datatype SavingsRow = SavingsRow(mode: Mode, raw: real, optimized: real, output: nat, saved: real, percent: real,
                                   rawCost: real, optimizedCost: real, costSaved: real)

  function Max(a: real, b: real): real { if a < b then b else a }

  predicate HasCompression(p: Payload) {
    var opt := if p.optimization.Some? then p.optimization.value else p.flat;
    var original, compressed := NumberOrZero(opt.compOriginal), NumberOrZero(opt.compCompressed);
    original > 0.0 && compressed > 0.0 && compressed < original
  }

  function CacheRead(p: Payload): (r: real)
    ensures r >= 0.0
  {
    var opt := if p.optimization.Some? then p.optimization.value else p.flat;
    NumberOrZero(OrElse(opt.cacheRead, p.flat.cacheRead))
  }

  predicate HasCache(p: Payload) {
    var opt := if p.optimization.Some? then p.optimization.value else p.flat;
    || CacheRead(p) > 0.0
    || NumberOrZero(OrElse(opt.cacheWrite, p.flat.cacheWrite)) > 0.0
    || NumberOrZero(OrElse(opt.cachedInput, p.flat.cachedInput)) > 0.0
  }

  /** The row that maybeRecordSavings inserts, if any. */
  function SavingsOf(p: Payload, price: Price): Option<SavingsRow> {
    if !HasCache(p) && !HasCompression(p) then None
    else
      var opt := if p.optimization.Some? then p.optimization.value else p.flat;
      var mode := if HasCompression(p) then Compression else Cache;
      var raw := if HasCompression(p) then NumberOrZero(opt.compOriginal) else p.input as real + CacheRead(p);
      var optimized := if HasCompression(p) then NumberOrZero(opt.compCompressed) else p.input as real;
      var saved := Max(0.0, raw - optimized);
      var percent := if raw > 0.0 then saved / raw else 0.0;
      var rawCost := if price.card.Some?
                     then (raw / 1000.0) * price.card.value.inputPer1k +
                          (p.output as real / 1000.0) * price.card.value.outputPer1k
                     else 0.0;
      var optimizedCost := if price.cost.Some? then price.cost.value else 0.0;
      Some(SavingsRow(mode, raw, optimized, p.output, saved, percent, rawCost, optimizedCost,
                      Max(0.0, rawCost - optimizedCost)))
  }

  /** A positive number; any other value, or none, counts as nothing. */
  predicate Positive(v: Option<Value>) {
    match v
    case Some(Num(n)) => n > 0.0
    case _ => false
  }

  /** The metrics of a call: those of its `optimization`, or else its own. */
  function MetricsOf(p: Payload): Metrics {
    match p.optimization
    case Some(m) => m
    case None => p.flat
  }

  function Quantity(v: Option<Value>): real {
    if Positive(v) then v.value.n else 0.0
  }

  /** A metric of the optimization that is missing is taken from the call itself. */
  function MetricOr(v: Option<Value>, own: Option<Value>): Option<Value> {
    match v
    case Some(_) => v
    case None => own
  }

  predicate Compresses(m: Metrics) {
    Positive(m.compOriginal) && Positive(m.compCompressed) && m.compCompressed.value.n < m.compOriginal.value.n
  }

  /**
   * Exactly which calls get a savings row, and what it says: compressed text if the compressed length is positive and
   * below the original one, else a cache if one of its three counts is positive.
   */
  lemma SavingsIff(p: Payload, price: Price)
    ensures var m, own := MetricsOf(p), p.flat;
            var read := MetricOr(m.cacheRead, own.cacheRead);
            && (SavingsOf(p, price).Some? <==>
                  Compresses(m) || Positive(read) || Positive(MetricOr(m.cacheWrite, own.cacheWrite)) ||
                  Positive(MetricOr(m.cachedInput, own.cachedInput)))
            && (SavingsOf(p, price).Some? ==>
                  var r := SavingsOf(p, price).value;
                  && r.output == p.output
                  && if Compresses(m)
                     then r.mode == Compression && r.raw == Quantity(m.compOriginal) &&
                          r.optimized == Quantity(m.compCompressed)
                     else r.mode == Cache && r.optimized == p.input as real && r.raw - r.optimized == Quantity(read))
  {
  }

  /** The costs beside them: the rates on raw input and output, what was charged, and their difference if positive. */
  lemma SavingsCosts(p: Payload, price: Price)
    requires SavingsOf(p, price).Some?
    ensures var r := SavingsOf(p, price).value;
            && (match price.card
                case None => r.rawCost == 0.0
                case Some(c) => 1000.0 * r.rawCost == r.raw * c.inputPer1k + p.output as real * c.outputPer1k)
            && r.optimizedCost == (match price.cost case Some(n) => n case None => 0.0)
            && r.costSaved == if r.rawCost > r.optimizedCost then r.rawCost - r.optimizedCost else 0.0
  {
    if price.card.Some? {
      Thousandth(SavingsOf(p, price).value.raw, price.card.value.inputPer1k);
      Thousandth(p.output as real, price.card.value.outputPer1k);
    }
    hide HasCache, HasCompression, CacheRead;
  }

  /** Tokens are conserved, and the share saved is a share. */
  lemma SavingsConserveTokens(p: Payload, price: Price)
    requires SavingsOf(p, price).Some?
    ensures var r := SavingsOf(p, price).value;
            r.raw == r.optimized + r.saved && 0.0 <= r.percent <= 1.0 && r.percent * r.raw == r.saved
  {
    var r := SavingsOf(p, price).value;
    assert r.raw == r.optimized + r.saved && 0.0 <= r.optimized;
    if r.raw > 0.0 {
      ShareOf(r.saved, r.raw);
    }
  }

  lemma ShareOf(part: real, whole: real)
    requires 0.0 <= part <= whole && whole > 0.0
    ensures 0.0 <= part / whole <= 1.0 && part / whole * whole == part
  {
  }

  /** A positive cost saving is claimed only when a rate card priced the call. */
  lemma CostSavingNeedsRateCard(p: Payload, cards: seq<RateCard>, now: int)
    requires p.Valid() && NonNegative(cards) && SavingsOf(p, PriceOf(p, cards, now)).Some?
    requires SavingsOf(p, PriceOf(p, cards, now)).value.costSaved > 0.0
    ensures p.cost.None? && Lookup(cards, p.provider, p.model, now).Some?
  {
    CostNonNegative(p, cards, now);
  }

  /** What a rate-card row claims: the rate on the tokens by which raw exceeds the input that was billed. */
  lemma CostSavedIs(p: Payload, cards: seq<RateCard>, now: int)
    requires PriceOf(p, cards, now).card.Some? && SavingsOf(p, PriceOf(p, cards, now)).Some?
    ensures var price := PriceOf(p, cards, now);
            var r := SavingsOf(p, price).value;
            r.costSaved == Max(0.0, ((r.raw - p.input as real) / 1000.0) * price.card.value.inputPer1k)
  {
    var price := PriceOf(p, cards, now);
    var r := SavingsOf(p, price).value;
    var rate := price.card.value.inputPer1k;
    Distribute(r.raw / 1000.0, p.input as real / 1000.0, rate);
    assert (r.raw - p.input as real) / 1000.0 == r.raw / 1000.0 - p.input as real / 1000.0;
  }

  lemma Distribute(a: real, b: real, c: real)
    ensures (a - b) * c == a * c - b * c
  {
  }

  /** In cache mode that is exactly the rate on the tokens read from the cache. */
  lemma CacheSavingIsExact(p: Payload, cards: seq<RateCard>, now: int)
    requires p.Valid() && NonNegative(cards) && !HasCompression(p)
    requires PriceOf(p, cards, now).card.Some? && SavingsOf(p, PriceOf(p, cards, now)).Some?
    ensures var price := PriceOf(p, cards, now);
            SavingsOf(p, price).value.costSaved == (CacheRead(p) / 1000.0) * price.card.value.inputPer1k
  {
    CostSavedIs(p, cards, now);
    ProductNonNegative(CacheRead(p) / 1000.0, PriceOf(p, cards, now).card.value.inputPer1k);
  }

  /**
   * In compression mode the claim is the rate on the tokens saved exactly when the call was
   * billed for the compressed text, or when nothing can be told apart: a zero rate.
   */
  lemma CompressionSavingIff(p: Payload, cards: seq<RateCard>, now: int)
    requires p.Valid() && NonNegative(cards) && HasCompression(p) && PriceOf(p, cards, now).card.Some?
    ensures var price := PriceOf(p, cards, now);
            var r := SavingsOf(p, price).value;
            var rate := price.card.value.inputPer1k;
            r.costSaved == (r.saved / 1000.0) * rate <==> p.input as real == r.optimized || rate == 0.0
  {
    CostSavedIs(p, cards, now);
    var price := PriceOf(p, cards, now);
    var r := SavingsOf(p, price).value;
    var rate := price.card.value.inputPer1k;
    var claimed, due := (r.raw - p.input as real) / 1000.0, r.saved / 1000.0;
    assert due > 0.0;
    if rate > 0.0 {
      ProductOrder(claimed, due, rate);
    }
  }

  lemma ProductOrder(a: real, b: real, rate: real)
    requires rate > 0.0 && b > 0.0
    ensures Max(0.0, a * rate) == b * rate <==> a == b
  {
    assert b * rate > 0.0;
    if a < b {
      assert (b - a) * rate > 0.0;
    } else if b < a {
      assert (a - b) * rate > 0.0;
    }
  }
}
