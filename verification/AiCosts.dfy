/**
 * What `estimateCost` (ai-pricing.ts) makes of a call's token counts, and how far the collector's
 * total can be from the exact one. Money is a real number; the only rounding is the code's own.
 */
module AiCosts {
  import opened Options
  import opened Rounding
  import opened AiEntries
  import opened AiPricing
  import opened AiCollector
  import opened AiTelemetry

  /** The token counts each rate is applied to. */
  datatype Billed = Billed(uncached: nat, cacheRead: nat, cacheWrite: nat, text: nat, reasoning: nat)

  function Less(a: nat, b: nat): nat {
    if a > b then a - b else 0
  }

  function BilledOf(usage: Usage): Billed {
    var cacheRead, cacheWrite, reasoning := usage.cacheRead.GetOr(0), usage.cacheWrite.GetOr(0), usage.reasoning.GetOr(0);
    Billed(Less(usage.input.GetOr(0), cacheRead + cacheWrite), cacheRead, cacheWrite,
           Less(usage.output.GetOr(0), reasoning), reasoning)
  }

  /** A rate for each count; one left out is the one it refines. */
  datatype Rates = Rates(uncached: real, cacheRead: real, cacheWrite: real, text: real, reasoning: real)

  function RatesOf(price: ModelPricing): Rates {
    Rates(price.input, price.cacheRead.GetOr(price.input), price.cacheWrite.GetOr(price.input),
          price.output, price.reasoning.GetOr(price.output))
  }

  function Times(n: nat, rate: real): real {
    n as real * rate
  }

  function Total(b: Billed, r: Rates): real {
    Times(b.uncached, r.uncached) + Times(b.cacheRead, r.cacheRead) + Times(b.cacheWrite, r.cacheWrite)
    + Times(b.text, r.text) + Times(b.reasoning, r.reasoning)
  }

  function Per(price: ModelPricing): real {
    price.per.GetOr(DEFAULT_PER)
  }

  function ExactCost(usage: Usage, price: ModelPricing): real
    requires Per(price) > 0.0
  {
    Total(BilledOf(usage), RatesOf(price)) / Per(price)
  }

  function EstimateCost(usage: Usage, price: ModelPricing): real
    requires Per(price) > 0.0
  {
    Round(ExactCost(usage, price), NANO)
  }

  /**
   * No token is billed twice, and none is left out, exactly when the cached tokens fit in the input
   * and the thinking tokens in the output; otherwise more is billed than was counted.
   */
  lemma BilledPartitionsUsage(usage: Usage)
    ensures var b := BilledOf(usage);
            var input, output := usage.input.GetOr(0), usage.output.GetOr(0);
            && b.uncached + b.cacheRead + b.cacheWrite >= input && b.text + b.reasoning >= output
            && (b.uncached + b.cacheRead + b.cacheWrite == input <==> usage.cacheRead.GetOr(0) + usage.cacheWrite.GetOr(0) <= input)
            && (b.text + b.reasoning == output <==> usage.reasoning.GetOr(0) <= output)
  {
  }

  /** What rate counts for: the given one, or the one it refines. */
  function RateOr(rate: Option<real>, refined: real): real {
    if rate.Some? then rate.value else refined
  }

  /** What a call costs before rounding, times the number of tokens a rate is for: each kind of token at its own rate. */
  lemma CostIs(usage: Usage, price: ModelPricing)
    requires Per(price) > 0.0
    ensures var per := if price.per.Some? then price.per.value else 1000000.0;
            var input, output := if usage.input.Some? then usage.input.value else 0, if usage.output.Some? then usage.output.value else 0;
            var read, write := if usage.cacheRead.Some? then usage.cacheRead.value else 0, if usage.cacheWrite.Some? then usage.cacheWrite.value else 0;
            var thought := if usage.reasoning.Some? then usage.reasoning.value else 0;
            var uncached, text := if input > read + write then input - read - write else 0, if output > thought then output - thought else 0;
            ExactCost(usage, price) * per
            == uncached as real * price.input + read as real * RateOr(price.cacheRead, price.input)
               + write as real * RateOr(price.cacheWrite, price.input)
               + text as real * price.output + thought as real * RateOr(price.reasoning, price.output)
  {
    hide Total;
    BilledAre(usage);
    var b, r := BilledOf(usage), RatesOf(price);
    TotalIs(b, r);
    Divided(Total(b, r), Per(price));
  }

  lemma BilledAre(usage: Usage)
    ensures var input, output := if usage.input.Some? then usage.input.value else 0, if usage.output.Some? then usage.output.value else 0;
            var read, write := if usage.cacheRead.Some? then usage.cacheRead.value else 0, if usage.cacheWrite.Some? then usage.cacheWrite.value else 0;
            var thought := if usage.reasoning.Some? then usage.reasoning.value else 0;
            var uncached, text := if input > read + write then input - read - write else 0, if output > thought then output - thought else 0;
            BilledOf(usage) == Billed(uncached, read, write, text, thought)
  {
  }

  lemma TotalIs(b: Billed, r: Rates)
    ensures Total(b, r)
            == b.uncached as real * r.uncached + b.cacheRead as real * r.cacheRead + b.cacheWrite as real * r.cacheWrite
               + b.text as real * r.text + b.reasoning as real * r.reasoning
  {
  }

  lemma Divided(x: real, per: real)
    requires per > 0.0
    ensures x / per * per == x
  {
  }

  // ---- The estimate grows with what it is made from ----

  ghost predicate NoFewer(b: Billed, b': Billed) {
    b.uncached <= b'.uncached && b.cacheRead <= b'.cacheRead && b.cacheWrite <= b'.cacheWrite && b.text <= b'.text && b.reasoning <= b'.reasoning
  }

  ghost predicate NoLower(r: Rates, r': Rates) {
    r.uncached <= r'.uncached && r.cacheRead <= r'.cacheRead && r.cacheWrite <= r'.cacheWrite && r.text <= r'.text && r.reasoning <= r'.reasoning
  }

  ghost predicate NonNegative(r: Rates) {
    r.uncached >= 0.0 && r.cacheRead >= 0.0 && r.cacheWrite >= 0.0 && r.text >= 0.0 && r.reasoning >= 0.0
  }

  lemma TimesIsMonotone(m: nat, n: nat, rate: real, rate': real)
    requires m <= n && 0.0 <= rate <= rate'
    ensures Times(m, rate) <= Times(n, rate')
  {
    ProductIsMonotone(m as real, n as real, rate);
    ProductIsMonotone(rate, rate', n as real);
  }

  lemma TotalIsMonotone(b: Billed, b': Billed, r: Rates, r': Rates)
    requires NoFewer(b, b') && NonNegative(r) && NoLower(r, r')
    ensures Total(b, r) <= Total(b', r')
  {
    hide Times;
    TimesIsMonotone(b.uncached, b'.uncached, r.uncached, r'.uncached);
    TimesIsMonotone(b.cacheRead, b'.cacheRead, r.cacheRead, r'.cacheRead);
    TimesIsMonotone(b.cacheWrite, b'.cacheWrite, r.cacheWrite, r'.cacheWrite);
    TimesIsMonotone(b.text, b'.text, r.text, r'.text);
    TimesIsMonotone(b.reasoning, b'.reasoning, r.reasoning, r'.reasoning);
  }

  /** More input or output tokens, the others being equal, never cost less. */
  lemma MoreTokensCostNoLess(usage: Usage, usage': Usage, price: ModelPricing)
    requires Per(price) > 0.0 && NonNegative(RatesOf(price))
    requires usage' == usage.(input := usage'.input, output := usage'.output, total := usage'.total)
    requires usage.input.GetOr(0) <= usage'.input.GetOr(0) && usage.output.GetOr(0) <= usage'.output.GetOr(0)
    ensures EstimateCost(usage, price) <= EstimateCost(usage', price)
  {
    TotalIsMonotone(BilledOf(usage), BilledOf(usage'), RatesOf(price), RatesOf(price));
    QuotientIsMonotone(Total(BilledOf(usage), RatesOf(price)), Total(BilledOf(usage'), RatesOf(price)), Per(price));
    RoundIsMonotone(ExactCost(usage, price), ExactCost(usage', price), NANO);
  }

  /** Nor do higher rates. */
  lemma HigherRatesCostNoLess(usage: Usage, price: ModelPricing, price': ModelPricing)
    requires Per(price) > 0.0 && Per(price') == Per(price)
    requires NonNegative(RatesOf(price)) && NoLower(RatesOf(price), RatesOf(price'))
    ensures EstimateCost(usage, price) <= EstimateCost(usage, price')
  {
    TotalIsMonotone(BilledOf(usage), BilledOf(usage), RatesOf(price), RatesOf(price'));
    QuotientIsMonotone(Total(BilledOf(usage), RatesOf(price)), Total(BilledOf(usage), RatesOf(price')), Per(price));
    RoundIsMonotone(ExactCost(usage, price), ExactCost(usage, price'), NANO);
  }

  /** With one rate for everything and counts that fit, a call costs that rate times its tokens. */
  lemma FlatRateIsExact(usage: Usage, price: ModelPricing)
    requires Per(price) > 0.0 && RatesOf(price) == Rates(price.input, price.input, price.input, price.input, price.input)
    requires usage.cacheRead.GetOr(0) + usage.cacheWrite.GetOr(0) <= usage.input.GetOr(0)
    requires usage.reasoning.GetOr(0) <= usage.output.GetOr(0)
    ensures ExactCost(usage, price) == Times(usage.input.GetOr(0) + usage.output.GetOr(0), price.input) / Per(price)
  {
    var b, p := BilledOf(usage), price.input;
    BilledPartitionsUsage(usage);
    TimesAdds(b.uncached, b.cacheRead, p);
    TimesAdds(b.uncached + b.cacheRead, b.cacheWrite, p);
    TimesAdds(b.text, b.reasoning, p);
    TimesAdds(b.uncached + b.cacheRead + b.cacheWrite, b.text + b.reasoning, p);
  }

  lemma TimesAdds(m: nat, n: nat, rate: real)
    ensures Times(m + n, rate) == Times(m, rate) + Times(n, rate)
  {
  }

  // ---- The total of a profile ----

  /** A whole number of nanodollars. */
  ghost predicate IsNanos(value: real, n: int) {
    value * NANO == n as real
  }

  lemma EstimatesAreNanos(value: real)
    ensures IsNanos(Round(value, NANO), Nearest(value * NANO))
  {
    var n := Nearest(value * NANO) as real;
    assert n / NANO * NANO == n;
  }

  /** An estimated call was priced from its own usage, at the prices given for it. */
  ghost predicate Explains(call: AiCallEntry, prices: Option<ModelPricing>)
    reads call
  {
    call.price.Some? && call.price.value.source.Estimated? ==>
      && prices.Some? && Per(prices.value) > 0.0 && call.usage.Some?
      && call.price.value.cost == EstimateCost(call.usage.value, prices.value)
  }

  /** What a call cost before any rounding: as its provider reported, or as its tokens and prices make it. */
  ghost function ExactCostOf(call: AiCallEntry, prices: Option<ModelPricing>): real
    reads call
    requires Explains(call, prices)
  {
    if call.price.None? then 0.0
    else if call.price.value.source.Provider? then call.price.value.cost
    else ExactCost(call.usage.value, prices.value)
  }

  ghost predicate AllExplained(calls: seq<AiCallEntry>, prices: seq<Option<ModelPricing>>)
    reads calls
  {
    |prices| == |calls| && forall i | 0 <= i < |calls| :: Explains(calls[i], prices[i])
  }

  ghost function ExactTotal(calls: seq<AiCallEntry>, prices: seq<Option<ModelPricing>>): real
    reads calls
    requires AllExplained(calls, prices)
  {
    if calls == [] then 0.0 else
    var n := |calls| - 1;
    ExactTotal(calls[..n], prices[..n]) + ExactCostOf(calls[n], prices[n])
  }

  function IsFrom(call: AiCallEntry, source: CostSource): nat
    reads call
  {
    if call.price.Some? && call.price.value.source == source then 1 else 0
  }

  function CountFrom(calls: seq<AiCallEntry>, source: CostSource): nat
    reads calls
  {
    if calls == [] then 0 else CountFrom(calls[..|calls| - 1], source) + IsFrom(calls[|calls| - 1], source)
  }

  lemma CallError(call: AiCallEntry, prices: Option<ModelPricing>)
    requires Explains(call, prices)
    ensures -(IsFrom(call, Estimated) as real) <= 2.0 * NANO * (CostOf(call.price) - ExactCostOf(call, prices)) <= IsFrom(call, Estimated) as real
  {
  }

  lemma {:induction false} SumError(calls: seq<AiCallEntry>, prices: seq<Option<ModelPricing>>)
    requires AllExplained(calls, prices)
    ensures var n := CountFrom(calls, Estimated) as real;
            -n <= 2.0 * NANO * (SumCosts(Costs(calls)) - ExactTotal(calls, prices)) <= n
  {
    if calls != [] {
      var n := |calls| - 1;
      SumError(calls[..n], prices[..n]);
      CallError(calls[n], prices[n]);
      assert Costs(calls)[..n] == Costs(calls[..n]);
      hide CostOf, ExactCostOf, IsFrom, Explains;
    }
  }

  lemma {:induction false} EstimatesSumToNanos(calls: seq<AiCallEntry>, prices: seq<Option<ModelPricing>>) returns (nanos: int)
    requires AllExplained(calls, prices) && CountFrom(calls, Provider) == 0
    ensures IsNanos(SumCosts(Costs(calls)), nanos)
  {
    if calls == [] { return 0; }
    var n := |calls| - 1;
    var before := EstimatesSumToNanos(calls[..n], prices[..n]);
    assert Costs(calls)[..n] == Costs(calls[..n]);
    var last := OneEstimate(calls[n], prices[n]);
    nanos := before + last;
    NanosAdd(SumCosts(Costs(calls[..n])), before, CostOf(calls[n].price), last);
  }

  lemma OneEstimate(call: AiCallEntry, prices: Option<ModelPricing>) returns (nanos: int)
    requires Explains(call, prices) && IsFrom(call, Provider) == 0
    ensures IsNanos(CostOf(call.price), nanos)
  {
    if call.price.None? { return 0; }
    var exact := ExactCost(call.usage.value, prices.value);
    nanos := Nearest(exact * NANO);
    EstimatesAreNanos(exact);
  }

  lemma NanosAdd(x: real, m: int, y: real, n: int)
    requires IsNanos(x, m) && IsNanos(y, n)
    ensures IsNanos(x + y, m + n)
  {
  }

  /**
   * What `collect` shows as the cost of its calls is within half a nanodollar per estimated call of
   * what they cost exactly, their own rounding included; the collector's adds half a one only when
   * some cost came from a provider.
   */
  lemma TotalIsWithinHalfANanodollarPerCall(calls: seq<AiCallEntry>, prices: seq<Option<ModelPricing>>)
    requires AllExplained(calls, prices)
    ensures var total, exact := Round(SumCosts(Costs(calls)), COST_PLACES), ExactTotal(calls, prices);
            var n := CountFrom(calls, Estimated) as real + if CountFrom(calls, Provider) > 0 then 1.0 else 0.0;
            -n <= 2.0 * NANO * (total - exact) <= n
  {
    hide SumCosts, Costs, ExactTotal, CountFrom, AllExplained, Round, IsNanos;
    SumError(calls, prices);
    var sum := SumCosts(Costs(calls));
    if CountFrom(calls, Provider) == 0 {
      var nanos := EstimatesSumToNanos(calls, prices);
      NanosStay(sum, nanos);
    } else {
      RoundingAdds(sum, Round(sum, COST_PLACES), ExactTotal(calls, prices), CountFrom(calls, Estimated) as real);
    }
  }

  lemma NanosStay(sum: real, nanos: int)
    requires IsNanos(sum, nanos)
    ensures Round(sum, COST_PLACES) == sum
  {
    RoundIsExact(sum, nanos, COST_PLACES);
  }

  lemma RoundingAdds(sum: real, total: real, exact: real, n: real)
    requires -n <= 2.0 * NANO * (sum - exact) <= n && -1.0 <= 2.0 * COST_PLACES * (total - sum) <= 1.0
    ensures -(n + 1.0) <= 2.0 * NANO * (total - exact) <= n + 1.0
  {
  }
}
