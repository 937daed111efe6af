/**
 * bin/check-rate-card-drift.py: the report on two price sources, and what it
 * says about the price the cost worker would compute. Prices are real.
 */
module RateCardDrift {
  import opened Options
  import Pricing

  const EPSILON := 0.0000005
  const MAX_PRICE_PER_MTOK := 10_000.0

  // ------------------------------------------------------------ the catalog

  /** A price as json.loads returns it. */
  datatype Raw = Number(n: real) | NotFinite | NotANumber

  /** USD per million tokens as USD per thousand, if the gateway would accept it. */
  function PricePer1k(value: Raw): (r: Option<real>)
    ensures r.Some? <==> value.Number? && 0.0 <= value.n <= MAX_PRICE_PER_MTOK
    ensures r.Some? ==> r.value * 1000.0 == value.n && 0.0 <= r.value <= 10.0
  {
    if value.Number? && !(value.n < 0.0 || value.n > MAX_PRICE_PER_MTOK) then Some(value.n / 1000.0) else None
  }

  datatype Key = Key(provider: string, model: string)

  datatype Alias = Alias(name: string, key: Key, input: Option<real>, output: Option<real>)
  {
    predicate Priced() { input.Some? && output.Some? }
  }

  datatype Card = Card(key: Key, input: real, output: real)

  // ----------------------------------------------------------- the database

  /** strip().lower(), strip() and float(). */
  datatype Reader = Reader(fold: string -> string, trim: string -> string, number: string -> Option<real>)

  /** One line of psql output, split at the bars. */
  function ParseLine(parts: seq<string>, rd: Reader): Option<Card> {
    if |parts| < 4 then None
    else
      match (rd.number(parts[2]), rd.number(parts[3]))
      case (Some(i), Some(o)) => Some(Card(Key(rd.fold(parts[0]), rd.trim(parts[1])), i, o))
      case _ => None
  }

  function FirstCard(lines: seq<seq<string>>, rd: Reader, k: Key): (r: Option<Card>)
    ensures r.Some? ==> r.value.key == k
  {
    if lines == [] then None
    else
      var c := ParseLine(lines[0], rd);
      if c.Some? && c.value.key == k then c else FirstCard(lines[1..], rd, k)
  }

  predicate DistinctKeys(cards: seq<Card>) {
    forall i, j :: 0 <= i < j < |cards| ==> cards[i].key != cards[j].key
  }

  lemma {:induction false} FirstCardNext(lines: seq<seq<string>>, i: nat, rd: Reader, k: Key)
    requires i < |lines|
    ensures var c, before := ParseLine(lines[i], rd), FirstCard(lines[..i], rd, k);
            FirstCard(lines[..i + 1], rd, k)
              == if before.Some? then before else if c.Some? && c.value.key == k then c else None
    decreases i
  {
    var upto := lines[..i + 1];
    if i > 0 {
      FirstCardNext(lines[1..], i - 1, rd, k);
      assert upto[1..] == lines[1..][..i] && lines[..i][1..] == lines[1..][..i - 1];
    } else {
      assert upto[1..] == [];
    }
  }

  /** setdefault keeps the first row of a key. */
  method ParseRows(lines: seq<seq<string>>, rd: Reader) returns (cards: seq<Card>)
    ensures DistinctKeys(cards)
    ensures forall c :: c in cards <==> FirstCard(lines, rd, c.key) == Some(c)
  {
    cards := [];
    var seen: set<Key> := {};
    for i := 0 to |lines|
      invariant DistinctKeys(cards)
      invariant forall k :: k in seen <==> FirstCard(lines[..i], rd, k).Some?
      invariant forall c :: c in cards <==> FirstCard(lines[..i], rd, c.key) == Some(c)
      invariant forall c <- cards :: c.key in seen
    {
      forall k {
        FirstCardNext(lines, i, rd, k);
      }
      hide FirstCard, ParseLine;
      var entry := ParseLine(lines[i], rd);
      if entry.Some? && entry.value.key !in seen {
        seen := seen + {entry.value.key};
        cards := cards + [entry.value];
      }
    }
    assert lines[..|lines|] == lines;
  }

  // ---------------------------------------------------------------- compare

  datatype Finding =
    | Split(key: Key)
    | Drift(key: Key, name: string, inputDiffers: bool, outputDiffers: bool)
    | Unpriced(key: Key)
    | NoRateCard(key: Key)
    | OrphanRateCard(key: Key)

  function Distance(a: real, b: real): real { if a < b then b - a else a - b }

  predicate Far(a: real, b: real) { Distance(a, b) > EPSILON }

  /** The card of a key: the last one, as a dict comprehension keeps it. */
  function CardOf(cards: seq<Card>, k: Key): (r: Option<Card>)
    ensures r.Some? ==> r.value in cards && r.value.key == k
    ensures r.None? ==> forall c <- cards :: c.key != k
  {
    if cards == [] then None
    else if cards[|cards| - 1].key == k then Some(cards[|cards| - 1])
    else CardOf(cards[..|cards| - 1], k)
  }

  predicate SamePrice(a: Alias, b: Alias) { a.input == b.input && a.output == b.output }

  predicate DriftOf(f: Finding, a: Alias, c: Card)
    requires f.Drift? && a.Priced()
  {
    && f.name == a.name
    && f.inputDiffers == Far(a.input.value, c.input) && f.outputDiffers == Far(a.output.value, c.output)
    && (f.inputDiffers || f.outputDiffers)
  }

  /** What a finding asserts about the two sources. */
  predicate Warranted(f: Finding, catalog: seq<Alias>, cards: seq<Card>) {
    match f
    case Split(k) => exists a <- catalog, b <- catalog :: a.key == b.key == k && !SamePrice(a, b)
    case Unpriced(k) => (exists a <- catalog :: a.key == k) && forall a <- catalog :: a.key == k ==> !a.Priced()
    case NoRateCard(k) => (exists a <- catalog :: a.key == k && a.Priced()) && CardOf(cards, k).None?
    case Drift(k, _, _, _) =>
      CardOf(cards, k).Some? && exists a <- catalog :: a.key == k && a.Priced() && DriftOf(f, a, CardOf(cards, k).value)
    case OrphanRateCard(k) => CardOf(cards, k).Some? && forall a <- catalog :: a.key != k
  }

  function Aliases(catalog: seq<Alias>, k: Key): (r: seq<Alias>)
    ensures forall a :: a in r <==> a in catalog && a.key == k
  {
    if catalog == [] then []
    else
      var n := |catalog| - 1;
      Aliases(catalog[..n], k) + (if catalog[n].key == k then [catalog[n]] else [])
  }

  method GroupByModel(catalog: seq<Alias>) returns (byModel: map<Key, seq<Alias>>)
    ensures forall k :: k in byModel <==> Aliases(catalog, k) != []
    ensures forall k <- byModel :: byModel[k] == Aliases(catalog, k)
  {
    byModel := map[];
    for i := 0 to |catalog|
      invariant forall k :: k in byModel <==> Aliases(catalog[..i], k) != []
      invariant forall k <- byModel :: byModel[k] == Aliases(catalog[..i], k)
    {
      var a := catalog[i];
      assert catalog[..i + 1][..i] == catalog[..i];
      if a.key !in byModel {
        byModel := byModel[a.key := []];
      }
      byModel := byModel[a.key := byModel[a.key] + [a]];
    }
    assert catalog[..|catalog|] == catalog;
  }

  lemma ManyIff<T>(s: set<T>)
    ensures |s| > 1 <==> exists a <- s, b <- s :: a != b
  {
    if a :| a in s {
      if s != {a} {
        assert s == {a} + (s - {a});
        var b :| b in s - {a};
        assert |s| == |s - {a, b}| + 2;
      }
    }
  }

  lemma SplitIff(catalog: seq<Alias>, cards: seq<Card>, k: Key, distinct: set<(Option<real>, Option<real>)>)
    requires distinct == set a <- Aliases(catalog, k) :: (a.input, a.output)
    ensures |distinct| > 1 <==> Warranted(Split(k), catalog, cards)
  {
    ManyIff(distinct);
    if Warranted(Split(k), catalog, cards) {
      var a, b :| a in catalog && b in catalog && a.key == b.key == k && !SamePrice(a, b);
      assert a in Aliases(catalog, k) && b in Aliases(catalog, k);
      assert (a.input, a.output) in distinct && (b.input, b.output) in distinct;
    }
    if x, y :| x in distinct && y in distinct && x != y {
      var a :| a in Aliases(catalog, k) && (a.input, a.output) == x;
      var b :| b in Aliases(catalog, k) && (b.input, b.output) == y;
      assert !SamePrice(a, b);
    }
  }

  predicate DriftAmong(f: Finding, k: Key, priced: seq<Alias>, c: Card) {
    f.Drift? && f.key == k && exists a <- priced :: a.Priced() && DriftOf(f, a, c)
  }

  lemma DriftAmongNext(f: Finding, k: Key, priced: seq<Alias>, a: Alias, c: Card)
    ensures !DriftAmong(f, k, [], c)
    ensures DriftAmong(f, k, priced + [a], c)
       <==> DriftAmong(f, k, priced, c) || (f.Drift? && f.key == k && a.Priced() && DriftOf(f, a, c))
  {
    hide DriftOf;
  }

  /** What the findings on one model amount to. */
  lemma ModelFindings(f: Finding, catalog: seq<Alias>, cards: seq<Card>, k: Key, priced: seq<Alias>)
    requires f.key == k && !f.Split? && Aliases(catalog, k) != []
    requires forall a :: a in priced <==> a in Aliases(catalog, k) && a.Priced()
    ensures Warranted(f, catalog, cards) <==>
              || (f.Unpriced? && priced == [])
              || (f.NoRateCard? && priced != [] && CardOf(cards, k).None?)
              || (CardOf(cards, k).Some? && DriftAmong(f, k, priced, CardOf(cards, k).value))
  {
    hide DriftOf;
    var first := Aliases(catalog, k)[0];
    assert first in catalog && first.key == k;
    if priced != [] {
      assert priced[0] in priced;
    }
  }

  method PricedOf(aliases: seq<Alias>) returns (priced: seq<Alias>)
    ensures forall a :: a in priced <==> a in aliases && a.Priced()
  {
    priced := [];
    for i := 0 to |aliases|
      invariant forall a :: a in priced <==> a in aliases[..i] && a.Priced()
    {
      if aliases[i].Priced() {
        priced := priced + [aliases[i]];
      }
    }
    assert aliases[..|aliases|] == aliases;
  }

  /** The body of the loop over the catalog's models. */
  method CompareModel(catalog: seq<Alias>, cards: seq<Card>, k: Key,
                      aliases: seq<Alias>) returns (findings: seq<Finding>)
    requires aliases == Aliases(catalog, k) && aliases != []
    ensures forall f :: f in findings <==> f.key == k && Warranted(f, catalog, cards)
  {
    hide Warranted, DriftAmong, Aliases, CardOf, Far;
    findings := [];
    var distinct := set a <- aliases :: (a.input, a.output);
    SplitIff(catalog, cards, k, distinct);
    if |distinct| > 1 {
      findings := findings + [Split(k)];
    }
    var split := findings;
    var priced := PricedOf(aliases);
    forall f: Finding | f.key == k && !f.Split? {
      ModelFindings(f, catalog, cards, k, priced);
    }
    var card := CardOf(cards, k);
    if priced == [] {
      forall f { NoDriftAmong(f, k, card); }
      findings := findings + [Unpriced(k)];
      return;
    }
    if card.None? {
      findings := findings + [NoRateCard(k)];
      return;
    }
    forall f { NoDriftAmong(f, k, card); }
    for i := 0 to |priced|
      invariant forall f :: f in findings <==> f in split || DriftAmong(f, k, priced[..i], card.value)
    {
      var a := priced[i];
      assert a in priced && priced[..i + 1] == priced[..i] + [a];
      forall f {
        DriftAmongNext(f, k, priced[..i], a, card.value);
      }
      var input, output := Far(a.input.value, card.value.input), Far(a.output.value, card.value.output);
      if input || output {
        findings := findings + [Drift(k, a.name, input, output)];
      }
    }
    assert priced[..|priced|] == priced;
    forall f: Finding ensures DriftAmong(f, k, priced, card.value) ==> f.key == k && f.Drift? {
      DriftAmongKey(f, k, priced, card.value);
    }
  }

  lemma NoDriftAmong(f: Finding, k: Key, card: Option<Card>)
    ensures card.Some? ==> !DriftAmong(f, k, [], card.value)
  {
  }

  lemma DriftAmongKey(f: Finding, k: Key, priced: seq<Alias>, c: Card)
    ensures DriftAmong(f, k, priced, c) ==> f.key == k && f.Drift?
  {
  }

  /** On a model without aliases only an orphan is warranted. */
  lemma OrphanIff(f: Finding, catalog: seq<Alias>, cards: seq<Card>)
    requires Aliases(catalog, f.key) == []
    ensures Warranted(f, catalog, cards) <==> f.OrphanRateCard? && CardOf(cards, f.key).Some?
  {
    forall a | a in catalog ensures a.key != f.key {
      assert a.key == f.key ==> a in Aliases(catalog, f.key);
    }
  }

  /** The report; sorted() only fixes the order of its findings. */
  method Compare(catalog: seq<Alias>, cards: seq<Card>) returns (findings: seq<Finding>)
    ensures forall f :: f in findings <==> Warranted(f, catalog, cards)
  {
    hide Warranted, Aliases, CardOf;
    findings := [];
    var byModel := GroupByModel(catalog);
    var left := byModel.Keys;
    while left != {}
      invariant left <= byModel.Keys
      invariant forall f :: f in findings <==> f.key in byModel.Keys - left && Warranted(f, catalog, cards)
    {
      var k :| k in left;
      var more := CompareModel(catalog, cards, k, byModel[k]);
      findings, left := findings + more, left - {k};
    }
    forall f: Finding | f.key !in byModel {
      OrphanIff(f, catalog, cards);
    }
    var orphans := set c <- cards | c.key !in byModel :: c.key;
    while orphans != {}
      invariant forall k <- orphans :: k !in byModel && CardOf(cards, k).Some?
      invariant forall f :: Warranted(f, catalog, cards) ==> f in findings || (f.OrphanRateCard? && f.key in orphans)
      invariant forall f <- findings :: Warranted(f, catalog, cards)
    {
      var k :| k in orphans;
      findings, orphans := findings + [OrphanRateCard(k)], orphans - {k};
    }
  }

  // ---------------------------------------------------------------- verdict

  predicate Disagreement(f: Finding) { f.Split? || f.Drift? }

  /** The exit code of main: 1 only under --strict and only for a disagreement. */
  function ExitCode(strict: bool, findings: seq<Finding>): int {
    if strict && exists f <- findings :: Disagreement(f) then 1 else 0
  }

  function TokenCost(input: nat, output: nat, inputRate: real, outputRate: real): real {
    (input as real / 1000.0) * inputRate + (output as real / 1000.0) * outputRate
  }

  function Bound(input: nat, output: nat): real { 0.0000005 * ((input + output) as real / 1000.0) }

  /** The two prices of a call differ by at most half a millionth for a thousand tokens, however many tokens it has. */
  ghost predicate Agree(inputA: real, outputA: real, inputB: real, outputB: real) {
    forall i: nat, o: nat :: Distance(TokenCost(i, o, inputA, outputA), TokenCost(i, o, inputB, outputB)) <= Bound(i, o)
  }

  lemma Scale(x: real, a: real, b: real)
    requires x >= 0.0 && !Far(a, b)
    ensures Distance(x * a, x * b) <= EPSILON * x
  {
    if a < b {
      ScaleOrdered(x, a, b);
    } else {
      ScaleOrdered(x, b, a);
    }
  }

  lemma ScaleOrdered(x: real, a: real, b: real)
    requires x >= 0.0 && 0.0 <= b - a <= EPSILON
    ensures Distance(x * a, x * b) <= EPSILON * x && Distance(x * b, x * a) <= EPSILON * x
  {
    Pricing.ProductNonNegative(b - a, x);
    Pricing.ProductNonNegative(EPSILON - (b - a), x);
    Pricing.Distribute(b, a, x);
    Pricing.Distribute(EPSILON, b - a, x);
    Between(x * a, x * b, EPSILON * x);
  }

  lemma Between(u: real, v: real, e: real)
    requires u <= v && v - u <= e
    ensures Distance(u, v) <= e && Distance(v, u) <= e
  {
  }

  lemma AddDistances(a: real, b: real, c: real, d: real, e: real, f: real)
    requires Distance(a, b) <= e && Distance(c, d) <= f
    ensures Distance(a + c, b + d) <= e + f
  {
  }

  lemma BoundIs(i: nat, o: nat)
    ensures EPSILON * (i as real / 1000.0) + EPSILON * (o as real / 1000.0) == Bound(i, o)
  {
  }

  lemma CostsAreClose(i: nat, o: nat, inputA: real, outputA: real, inputB: real, outputB: real)
    requires !Far(inputA, inputB) && !Far(outputA, outputB)
    ensures Distance(TokenCost(i, o, inputA, outputA), TokenCost(i, o, inputB, outputB)) <= Bound(i, o)
  {
    hide Far, Bound;
    var x, y := i as real / 1000.0, o as real / 1000.0;
    Scale(x, inputA, inputB);
    Scale(y, outputA, outputB);
    BoundIs(i, o);
    AddDistances(x * inputA, x * inputB, y * outputA, y * outputB, EPSILON * x, EPSILON * y);
  }

  /** Rates no further apart than the tolerance are rates whose costs agree on every call, and no others are. */
  lemma AgreeIff(inputA: real, outputA: real, inputB: real, outputB: real)
    ensures Agree(inputA, outputA, inputB, outputB) <==> !Far(inputA, inputB) && !Far(outputA, outputB)
  {
    hide Far, Distance, TokenCost, Bound;
    if !Far(inputA, inputB) && !Far(outputA, outputB) {
      forall i: nat, o: nat {
        CostsAreClose(i, o, inputA, outputA, inputB, outputB);
      }
    }
    if Agree(inputA, outputA, inputB, outputB) {
      OneRate(inputA, outputA, inputB, outputB);
    }
  }

  lemma OneRate(inputA: real, outputA: real, inputB: real, outputB: real)
    requires Agree(inputA, outputA, inputB, outputB)
    ensures !Far(inputA, inputB) && !Far(outputA, outputB)
  {
    assert Distance(TokenCost(1000, 0, inputA, outputA), TokenCost(1000, 0, inputB, outputB)) <= Bound(1000, 0);
    assert Distance(TokenCost(0, 1000, inputA, outputA), TokenCost(0, 1000, inputB, outputB)) <= Bound(0, 1000);
  }

  ghost predicate AgreesWith(a: Alias, c: Card)
    requires a.Priced()
  {
    Agree(a.input.value, a.output.value, c.input, c.output)
  }

  /** The finding that would name a. */
  function DriftFor(a: Alias, cards: seq<Card>): Finding
    requires a.Priced() && CardOf(cards, a.key).Some?
  {
    var c := CardOf(cards, a.key).value;
    Drift(a.key, a.name, Far(a.input.value, c.input), Far(a.output.value, c.output))
  }

  predicate NamedBy(f: Finding, a: Alias) { f.Drift? && f.key == a.key && f.name == a.name }

  /** A priced alias that no DRIFT names agrees with the card of its model on all calls. */
  lemma UnnamedAgrees(catalog: seq<Alias>, cards: seq<Card>, findings: seq<Finding>, a: Alias)
    requires forall f :: f in findings <==> Warranted(f, catalog, cards)
    requires a in catalog && a.Priced() && CardOf(cards, a.key).Some? && forall f <- findings :: !NamedBy(f, a)
    ensures AgreesWith(a, CardOf(cards, a.key).value)
  {
    hide Far, Agree;
    var c := CardOf(cards, a.key).value;
    AgreeIff(a.input.value, a.output.value, c.input, c.output);
    assert DriftFor(a, cards) !in findings;
  }

  /** compare reports no DRIFT exactly when every priced alias agrees with the card of its model on all calls. */
  lemma NoDriftIff(catalog: seq<Alias>, cards: seq<Card>, findings: seq<Finding>)
    requires forall f :: f in findings <==> Warranted(f, catalog, cards)
    ensures (forall f <- findings :: !f.Drift?)
       <==> forall a <- catalog :: a.Priced() && CardOf(cards, a.key).Some? ==>
           AgreesWith(a, CardOf(cards, a.key).value)
  {
    hide Far, Agree, Warranted;
    if forall f <- findings :: !f.Drift? {
      forall a | a in catalog && a.Priced() && CardOf(cards, a.key).Some?
        ensures AgreesWith(a, CardOf(cards, a.key).value)
      {
        UnnamedAgrees(catalog, cards, findings, a);
      }
    } else {
      var f :| f in findings && f.Drift?;
      var a := DriftNames(f, catalog, cards);
      var c := CardOf(cards, a.key).value;
      AgreeIff(a.input.value, a.output.value, c.input, c.output);
    }
  }

  lemma DriftNames(f: Finding, catalog: seq<Alias>, cards: seq<Card>) returns (a: Alias)
    requires f.Drift? && Warranted(f, catalog, cards)
    ensures a in catalog && a.Priced() && CardOf(cards, a.key).Some?
    ensures var c := CardOf(cards, a.key).value; Far(a.input.value, c.input) || Far(a.output.value, c.output)
  {
    hide Far;
    a :| a in catalog && a.key == f.key && a.Priced() && DriftOf(f, a, CardOf(cards, f.key).value);
  }

  /** No SPLIT is reported exactly when aliases of one model have one price. */
  lemma NoSplitIff(catalog: seq<Alias>, cards: seq<Card>, findings: seq<Finding>)
    requires forall f :: f in findings <==> Warranted(f, catalog, cards)
    ensures (forall f <- findings :: !f.Split?)
       <==> forall a <- catalog, b <- catalog :: a.key == b.key ==> SamePrice(a, b)
  {
    hide SamePrice;
    if forall f <- findings :: !f.Split? {
      forall a, b | a in catalog && b in catalog && a.key == b.key ensures SamePrice(a, b) {
        assert Split(a.key) !in findings;
      }
    } else {
      var f :| f in findings && f.Split?;
      assert Warranted(f, catalog, cards);
    }
  }

  /**
   * The strict check passes exactly when aliases of one model have one price, and every
   * priced alias agrees with the card of its model on all calls.
   */
  lemma StrictVerdictIff(catalog: seq<Alias>, cards: seq<Card>, findings: seq<Finding>)
    requires forall f :: f in findings <==> Warranted(f, catalog, cards)
    ensures ExitCode(true, findings) == 0
       <==> && (forall a <- catalog, b <- catalog :: a.key == b.key ==> SamePrice(a, b))
            && (forall a <- catalog :: a.Priced() && CardOf(cards, a.key).Some? ==>
                AgreesWith(a, CardOf(cards, a.key).value))
    ensures ExitCode(false, findings) == 0 && (ExitCode(true, findings) == 0 || ExitCode(true, findings) == 1)
  {
    hide Warranted, SamePrice, AgreesWith;
    NoDriftIff(catalog, cards, findings);
    NoSplitIff(catalog, cards, findings);
  }

  // -------------------------------------------- the card the worker would use

  /** Price columns are written as text that float() reads back, and no field holds a bar. */
  predicate Rendered(parts: seq<string>, c: Pricing.RateCard, rd: Reader) {
    && |parts| >= 4 && parts[0] == c.provider && parts[1] == c.model
    && rd.number(parts[2]) == Some(c.inputPer1k) && rd.number(parts[3]) == Some(c.outputPer1k)
  }

  predicate IsActive(c: Pricing.RateCard, now: int) { Pricing.Active(c, c.provider, c.model, now) }

  /** The answer of the query: the active cards, those of one provider and model with the latest first. */
  predicate Queried(rows: seq<Pricing.RateCard>, cards: seq<Pricing.RateCard>, now: int) {
    && (forall c <- rows :: c in cards && IsActive(c, now))
    && (forall c <- cards :: IsActive(c, now) ==> c in rows)
    && (forall i, j :: 0 <= i < j < |rows| && SameModel(rows[i], rows[j]) ==>
        rows[i].effectiveFrom >= rows[j].effectiveFrom)
  }

  predicate SameModel(a: Pricing.RateCard, b: Pricing.RateCard) { a.provider == b.provider && a.model == b.model }

  /** No two active cards of one model start at the same moment. */
  predicate NoTies(cards: seq<Pricing.RateCard>, now: int) {
    forall a <- cards, b <- cards ::
      IsActive(a, now) && IsActive(b, now) && SameModel(a, b) && a.effectiveFrom == b.effectiveFrom ==> a == b
  }

  function KeyOf(c: Pricing.RateCard, rd: Reader): Key { Key(rd.fold(c.provider), rd.trim(c.model)) }

  function CardFor(c: Pricing.RateCard, rd: Reader): Card { Card(KeyOf(c, rd), c.inputPer1k, c.outputPer1k) }

  function FirstRow(rows: seq<Pricing.RateCard>, rd: Reader, k: Key): (r: Option<Pricing.RateCard>)
    ensures r.Some? ==> KeyOf(r.value, rd) == k && r.value in rows
  {
    if rows == [] then None else if KeyOf(rows[0], rd) == k then Some(rows[0]) else FirstRow(rows[1..], rd, k)
  }

  /** A row of k stands before every row of the model (provider, model). */
  predicate HiddenBehind(rows: seq<Pricing.RateCard>, rd: Reader, provider: string, model: string) {
    exists i :: 0 <= i < |rows| && KeyOf(rows[i], rd) == Key(rd.fold(provider), rd.trim(model))
      && forall j :: 0 <= j <= i ==> rows[j].provider != provider || rows[j].model != model
  }

  predicate IsFirstRow(rows: seq<Pricing.RateCard>, rd: Reader, k: Key, f: nat) {
    f < |rows| && KeyOf(rows[f], rd) == k && forall j :: 0 <= j < f ==> KeyOf(rows[j], rd) != k
  }

  lemma {:induction false} FirstRowAt(rows: seq<Pricing.RateCard>, rd: Reader, k: Key, at: nat) returns (f: nat)
    requires at < |rows| && KeyOf(rows[at], rd) == k
    ensures IsFirstRow(rows, rd, k, f) && f <= at && FirstRow(rows, rd, k) == Some(rows[f])
  {
    hide KeyOf;
    f := 0;
    if KeyOf(rows[0], rd) != k {
      var rest := rows[1..];
      f := FirstRowAt(rest, rd, k, at - 1);
      f := f + 1;
      assert forall j :: 0 < j < |rows| ==> rows[j] == rest[j - 1];
    }
  }

  lemma {:induction false} ParsedIsFirstRow(lines: seq<seq<string>>, rows: seq<Pricing.RateCard>, rd: Reader, k: Key)
    requires |lines| == |rows| && forall i :: 0 <= i < |rows| ==> Rendered(lines[i], rows[i], rd)
    ensures FirstCard(lines, rd, k)
         == if FirstRow(rows, rd, k).Some? then Some(CardFor(FirstRow(rows, rd, k).value, rd)) else None
  {
    if rows != [] {
      assert Rendered(lines[0], rows[0], rd);
      assert ParseLine(lines[0], rd) == Some(CardFor(rows[0], rd));
      ParsedIsFirstRow(lines[1..], rows[1..], rd, k);
    }
  }

  /** If nothing hides the model, the first row of its key is the worker's card. */
  lemma FirstRowIsLatest(rows: seq<Pricing.RateCard>, cards: seq<Pricing.RateCard>, now: int, rd: Reader, f: nat,
                         at: nat)
    requires Queried(rows, cards, now) && NoTies(cards, now) && f <= at < |rows| && SameModel(rows[f], rows[at])
    requires Pricing.Lookup(cards, rows[at].provider, rows[at].model, now) == Some(rows[at])
    ensures rows[f] == rows[at]
  {
    var r, c := rows[f], rows[at];
    assert r in rows && c in rows;
    assert r in cards && IsActive(r, now) && c in cards && IsActive(c, now);
    assert Pricing.Active(r, c.provider, c.model, now);
  }

  /**
   * The card compared is the one the worker's query picks, unless a differently spelled row of the key stands before
   * it.
   */
  lemma ComparedIsLatestIff(rows: seq<Pricing.RateCard>, cards: seq<Pricing.RateCard>, now: int, rd: Reader,
                            provider: string, model: string)
    requires Queried(rows, cards, now) && NoTies(cards, now) && Pricing.Lookup(cards, provider, model, now).Some?
    ensures FirstRow(rows, rd, Key(rd.fold(provider), rd.trim(model))) == Pricing.Lookup(cards, provider, model, now)
       <==> !HiddenBehind(rows, rd, provider, model)
  {
    hide *;
    var c := Pricing.Lookup(cards, provider, model, now).value;
    var k := Key(rd.fold(provider), rd.trim(model));
    LookedUpIsRow(rows, cards, now, rd, provider, model);
    var at :| 0 <= at < |rows| && rows[at] == c;
    var f := FirstRowAt(rows, rd, k, at);
    HiddenIffSpelled(rows, rd, provider, model, f);
    if rows[f].provider == provider && rows[f].model == model {
      SameModelIs(rows[f], rows[at]);
      FirstRowIsLatest(rows, cards, now, rd, f, at);
    }
  }

  lemma LookedUpIsRow(rows: seq<Pricing.RateCard>, cards: seq<Pricing.RateCard>, now: int, rd: Reader,
                      provider: string, model: string)
    requires Queried(rows, cards, now) && Pricing.Lookup(cards, provider, model, now).Some?
    ensures var c := Pricing.Lookup(cards, provider, model, now).value;
            && c in rows && c.provider == provider && c.model == model
            && KeyOf(c, rd) == Key(rd.fold(provider), rd.trim(model))
  {
    hide Pricing.Lookup;
  }

  lemma SameModelIs(a: Pricing.RateCard, b: Pricing.RateCard)
    ensures SameModel(a, b) <==> a.provider == b.provider && a.model == b.model
  {
  }

  /** The model is hidden exactly when the first row of its key is spelled differently. */
  lemma HiddenIffSpelled(rows: seq<Pricing.RateCard>, rd: Reader, provider: string, model: string, f: nat)
    requires IsFirstRow(rows, rd, Key(rd.fold(provider), rd.trim(model)), f)
    ensures f < |rows|
    ensures HiddenBehind(rows, rd, provider, model) <==> rows[f].provider != provider || rows[f].model != model
  {
    var k := Key(rd.fold(provider), rd.trim(model));
    if rows[f].provider != provider || rows[f].model != model {
      forall j | 0 <= j <= f ensures rows[j].provider != provider || rows[j].model != model {
        assert j < f ==> KeyOf(rows[j], rd) != k;
      }
    } else {
      forall i | 0 <= i < |rows| && KeyOf(rows[i], rd) == k ensures f <= i {}
    }
  }

  /** Providers in lower case and trimmed models hide nothing. */
  lemma PlainSpellingHidesNothing(rows: seq<Pricing.RateCard>, rd: Reader, provider: string, model: string)
    requires rd.fold(provider) == provider && rd.trim(model) == model
    requires forall c <- rows :: rd.fold(c.provider) == c.provider && rd.trim(c.model) == c.model
    ensures !HiddenBehind(rows, rd, provider, model)
  {
  }

  /**
   * If no DRIFT names an alias, the price the gateway charges for a call of that alias and the price
   * the worker would compute for it differ by at most the bound, whatever else is reported.
   */
  lemma NoDriftBoundsWorkerCost(catalog: seq<Alias>, compared: seq<Card>, findings: seq<Finding>,
                                lines: seq<seq<string>>,
                                rows: seq<Pricing.RateCard>, cards: seq<Pricing.RateCard>, now: int, rd: Reader,
                                a: Alias, p: Pricing.Payload)
    requires Queried(rows, cards, now) && NoTies(cards, now)
    requires |lines| == |rows| && forall i :: 0 <= i < |rows| ==> Rendered(lines[i], rows[i], rd)
    requires DistinctKeys(compared) && forall c :: c in compared <==> FirstCard(lines, rd, c.key) == Some(c)
    requires forall f :: f in findings <==> Warranted(f, catalog, compared)
    requires a in catalog && a.Priced() && forall f <- findings :: !NamedBy(f, a)
    requires a.key == Key(rd.fold(p.provider), rd.trim(p.model))
    requires p.cost.None? && Pricing.PriceOf(p, cards, now).card.Some? && !HiddenBehind(rows, rd, p.provider, p.model)
    ensures Distance(TokenCost(p.input, p.output, a.input.value, a.output.value), Pricing.PriceOf(p, cards,
        now).cost.value)
         <= Bound(p.input, p.output)
  {
    hide Warranted, Queried, NoTies, HiddenBehind, FirstCard, FirstRow, Rendered, Agree;
    ComparedIsLatestIff(rows, cards, now, rd, p.provider, p.model);
    ParsedIsFirstRow(lines, rows, rd, a.key);
    var c := Pricing.PriceOf(p, cards, now).card.value;
    assert CardFor(c, rd) in compared;
    CardOfDistinct(compared, CardFor(c, rd));
    UnnamedAgrees(catalog, compared, findings, a);
    AgreementOn(a, CardFor(c, rd), p.input, p.output);
  }

  /** In particular a passing strict check bounds the gap for every priced alias. */
  lemma PassBoundsWorkerCost(catalog: seq<Alias>, compared: seq<Card>, findings: seq<Finding>, lines: seq<seq<string>>,
                             rows: seq<Pricing.RateCard>, cards: seq<Pricing.RateCard>, now: int, rd: Reader,
                             a: Alias, p: Pricing.Payload)
    requires Queried(rows, cards, now) && NoTies(cards, now)
    requires |lines| == |rows| && forall i :: 0 <= i < |rows| ==> Rendered(lines[i], rows[i], rd)
    requires DistinctKeys(compared) && forall c :: c in compared <==> FirstCard(lines, rd, c.key) == Some(c)
    requires forall f :: f in findings <==> Warranted(f, catalog, compared)
    requires ExitCode(true, findings) == 0
    requires a in catalog && a.Priced() && a.key == Key(rd.fold(p.provider), rd.trim(p.model))
    requires p.cost.None? && Pricing.PriceOf(p, cards, now).card.Some? && !HiddenBehind(rows, rd, p.provider, p.model)
    ensures Distance(TokenCost(p.input, p.output, a.input.value, a.output.value), Pricing.PriceOf(p, cards,
        now).cost.value)
         <= Bound(p.input, p.output)
  {
    hide Warranted, Queried, NoTies, HiddenBehind, FirstCard, Rendered, Distance, Bound, TokenCost, Pricing.PriceOf;
    NoDriftBoundsWorkerCost(catalog, compared, findings, lines, rows, cards, now, rd, a, p);
  }

  lemma AgreementOn(a: Alias, c: Card, i: nat, o: nat)
    requires a.Priced() && AgreesWith(a, c)
    ensures Distance(TokenCost(i, o, a.input.value, a.output.value), TokenCost(i, o, c.input, c.output)) <= Bound(i, o)
  {
  }

  lemma CardOfDistinct(cards: seq<Card>, c: Card)
    requires DistinctKeys(cards) && c in cards
    ensures CardOf(cards, c.key) == Some(c)
  {
    var r := CardOf(cards, c.key).value;
    var i :| 0 <= i < |cards| && cards[i] == r;
    var j :| 0 <= j < |cards| && cards[j] == c;
  }

  function Lower(s: string): string { seq(|s|,
                 i requires 0 <= i < |s| => if 'A' <= s[i] <= 'Z' then s[i] + ('a' - 'A') else s[i]) }

  /** Two spellings of one provider: the card compared is not the one that prices "openai". */
  lemma MixedCaseIsHidden()
    ensures var rd := Reader(Lower, s => s, _ => None);
            var first := Pricing.RateCard(1, "OpenAI", "m", 1.0, 1.0, 0, None);
            var current := Pricing.RateCard(2, "openai", "m", 2.0, 2.0, 5, None);
            var rows := [first, current];
            && Queried(rows, rows, 9) && NoTies(rows, 9) && HiddenBehind(rows, rd, "openai", "m")
            && Pricing.Lookup(rows, "openai", "m", 9) == Some(current)
            && FirstRow(rows, rd, Key("openai", "m")) == Some(first)
  {
    assert Lower("OpenAI") == "openai" == Lower("openai");
    var rd := Reader(Lower, s => s, _ => None);
    var first := Pricing.RateCard(1, "OpenAI", "m", 1.0, 1.0, 0, None);
    var current := Pricing.RateCard(2, "openai", "m", 2.0, 2.0, 5, None);
    var rows := [first, current];
    assert first.provider[0] != current.provider[0];
    assert rows[1..] == [current] && [current][1..] == [];
    assert KeyOf(rows[0], rd) == Key("openai", "m");
    assert Pricing.Lookup([current], "openai", "m", 9) == Some(current);
  }
}
