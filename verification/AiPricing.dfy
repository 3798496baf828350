/**
 * The price registry of ai-pricing.ts: its cached table, the prices it finds for a model, and
 * the run of loads behind them.
 */
module AiPricing {
  import opened ObjectLiterals
  import opened Options
  import Runs = PricingRuns

  datatype ModelPricing = ModelPricing(
    input: real,
    output: real,
    cacheRead: Option<real>,
    cacheWrite: Option<real>,
    reasoning: Option<real>,
    per: Option<real>)

  type Table = Runs.Table<ModelPricing>

  const DEFAULT_PER := 1_000_000.0
  const NANO := 1_000_000_000.0

  // ---- Keys ----

  /** `toLowerCase`, of the letters A to Z. */
  function LowerChar(c: char): char {
    if 'A' <= c <= 'Z' then ((c as int - 'A' as int) + 'a' as int) as char else c
  }

  function Lower(s: string): string {
    seq(|s|, i requires 0 <= i < |s| => LowerChar(s[i]))
  }

  type Prices = seq<(string, ModelPricing)>

  /** No later price has a key that differs from that of price `i` in case only. */
  ghost predicate IsLastOfItsKey(table: Prices, i: nat)
    requires i < |table|
  {
    forall j | i < j < |table| :: KeyAt(table, j) != KeyAt(table, i)
  }

  function KeyAt(table: Prices, i: nat): string
    requires i < |table|
  {
    Lower(table[i].0)
  }

  /** Some price has the key `k`, up to case. */
  ghost predicate IsKeyOf(table: Prices, k: string) {
    exists i :: 0 <= i < |table| && Lower(table[i].0) == k
  }

  /** Prices by lower-cased key, the last of those that only differ in case. */
  ghost predicate IsNormalised(table: Prices, normalised: Table) {
    && (forall k :: k in normalised <==> k != PROTO && IsKeyOf(table, k))
    && forall i | 0 <= i < |table| && IsLastOfItsKey(table, i) && Lower(table[i].0) != PROTO ::
         Lower(table[i].0) in normalised && normalised[Lower(table[i].0)] == table[i].1
  }

  /** `normalise`. */
  method Normalise(table: Prices) returns (normalised: Table)
    ensures IsNormalised(table, normalised)
  {
    hide IsNormalised, Lower;
    normalised := map[];
    NoPrices(table);
    for n := 0 to |table|
      invariant IsNormalised(table[..n], normalised)
    {
      OneMorePrice(table[..n], normalised, table[n].0, table[n].1);
      assert table[..n + 1] == table[..n] + [(table[n].0, table[n].1)];
      if Lower(table[n].0) != PROTO {
        normalised := normalised[Lower(table[n].0) := table[n].1];
      }
    }
    assert table[..|table|] == table;
  }

  lemma NoPrices(table: Prices)
    ensures IsNormalised(table[..0], map[])
  {
    hide Lower;
  }

  lemma KeyOfMore(table: Prices, price: (string, ModelPricing), k: string)
    ensures IsKeyOf(table + [price], k) <==> IsKeyOf(table, k) || Lower(price.0) == k
  {
    hide Lower;
    var table' := table + [price];
    assert table'[|table|] == price;
    if IsKeyOf(table, k) {
      var i :| 0 <= i < |table| && Lower(table[i].0) == k;
      assert table'[i] == table[i];
    }
  }

  lemma LastOfMore(table: Prices, price: (string, ModelPricing), i: nat)
    requires i < |table| && IsLastOfItsKey(table + [price], i)
    ensures IsLastOfItsKey(table, i) && Lower(table[i].0) != Lower(price.0)
  {
    hide Lower;
    var table' := table + [price];
    assert KeyAt(table', i) == KeyAt(table, i) && KeyAt(table', |table|) == Lower(price.0);
    forall j | i < j < |table| ensures KeyAt(table, j) != KeyAt(table, i) {
      assert KeyAt(table', j) == KeyAt(table, j);
    }
  }

  lemma OneMorePrice(table: Prices, normalised: Table, key: string, price: ModelPricing)
    requires IsNormalised(table, normalised)
    ensures var k := Lower(key);
            IsNormalised(table + [(key, price)], if k == PROTO then normalised else normalised[k := price])
  {
    hide Lower, IsKeyOf, IsLastOfItsKey;
    var table' := table + [(key, price)];
    forall k ensures IsKeyOf(table', k) <==> IsKeyOf(table, k) || k == Lower(key) {
      KeyOfMore(table, (key, price), k);
    }
    forall i | 0 <= i < |table| && IsLastOfItsKey(table', i) ensures IsLastOfItsKey(table, i) && Lower(table[i].0) != Lower(key) {
      LastOfMore(table, (key, price), i);
    }
  }

  function LastIndexOf(s: string, c: char): (i: int)
    ensures -1 <= i < |s| && (i >= 0 ==> s[i] == c) && forall j | i < j < |s| :: s[j] != c
  {
    if s == "" then -1 else if s[|s| - 1] == c then |s| - 1 else LastIndexOf(s[..|s| - 1], c)
  }

  /** `withoutVariant`: a model id up to the last bracket, when it ends in one. */
  function WithoutVariant(model: string): string {
    if model == "" || model[|model| - 1] != ']' then model else
    var start := LastIndexOf(model, '[');
    if start > 0 then model[..start] else model
  }

  /** Exactly a suffix in brackets is dropped, and only from a name that is not all suffix. */
  lemma VariantIsDropped(model: string, base: string, variant: string)
    requires base != "" && '[' !in variant
    ensures model == base + "[" + variant + "]" ==> WithoutVariant(model) == base
  {
    if model == base + "[" + variant + "]" {
      var k := |base|;
      assert model[k] == '[';
      forall j | k < j < |model| ensures model[j] != '[' {
        assert j < |model| - 1 ==> model[j] == variant[j - k - 1];
      }
      assert LastIndexOf(model, '[') == k && model[..k] == base;
    }
  }

  lemma OtherwiseKept(model: string)
    ensures WithoutVariant(model) == model
            || exists variant: string :: '[' !in variant && WithoutVariant(model) != "" && model == WithoutVariant(model) + "[" + variant + "]"
  {
    if WithoutVariant(model) != model {
      var start := LastIndexOf(model, '[');
      var variant := model[start + 1..|model| - 1];
      assert model == model[..start] + "[" + variant + "]";
    }
  }

  /** `full.split('.')[0]`: the provider without its transport. */
  function RootOf(provider: string): (root: string)
    ensures root <= provider && '.' !in root && (root == provider || provider[|root|] == '.')
  {
    if provider == "" || provider[0] == '.' then "" else [provider[0]] + RootOf(provider[1..])
  }

  function KeysFor(full: string, id: string): seq<string> {
    [full + ":" + id, RootOf(full) + ":" + id, id]
  }

  /** Every key a price is looked up under, in order. */
  function Keys(provider: string, model: string): seq<string> {
    var exact, full := Lower(model), Lower(provider);
    var base := WithoutVariant(exact);
    if base == exact then KeysFor(full, exact) else KeysFor(full, exact) + KeysFor(full, base)
  }

  /** The letters A to Z become the letters a to z, 32 code units on; nothing else changes. */
  lemma LowerIs(s: string, i: nat)
    requires i < |s|
    ensures |Lower(s)| == |s|
    ensures 'A' <= s[i] <= 'Z' ==> Lower(s)[i] as int == s[i] as int + 32
    ensures !('A' <= s[i] <= 'Z') ==> Lower(s)[i] == s[i]
  {
  }

  /** Under the provider, then under its root, then alone; and if the model has a variant, all three again without it. */
  lemma KeysTried(provider: string, model: string)
    ensures var keys, full, exact := Keys(provider, model), Lower(provider), Lower(model);
            var root, base := RootOf(full), WithoutVariant(exact);
            && |keys| == (if base == exact then 3 else 6)
            && keys[0] == full + ":" + exact && keys[1] == root + ":" + exact && keys[2] == exact
            && (base != exact ==> keys[3] == full + ":" + base && keys[4] == root + ":" + base && keys[5] == base)
  {
  }

  /** The first key that has a price; the static table's wins over the loaded one's. */
  function FirstPrice(statics: Table, loaded: Table, keys: seq<string>): Option<ModelPricing> {
    if keys == [] then None
    else if keys[0] in statics then Some(statics[keys[0]])
    else if keys[0] in loaded then Some(loaded[keys[0]])
    else FirstPrice(statics, loaded, keys[1..])
  }

  lemma {:induction false} FirstPriceIsFirst(statics: Table, loaded: Table, keys: seq<string>, k: nat)
    requires k < |keys| && (keys[k] in statics || keys[k] in loaded)
    requires forall i | 0 <= i < k :: keys[i] !in statics && keys[i] !in loaded
    ensures FirstPrice(statics, loaded, keys) == Some(if keys[k] in statics then statics[keys[k]] else loaded[keys[k]])
    decreases k
  {
    if k > 0 {
      FirstPriceIsFirst(statics, loaded, keys[1..], k - 1);
    }
  }

  lemma {:induction false} NoPriceMeansNoKey(statics: Table, loaded: Table, keys: seq<string>)
    ensures FirstPrice(statics, loaded, keys) == None <==> forall k <- keys :: k !in statics && k !in loaded
  {
    if keys != [] {
      NoPriceMeansNoKey(statics, loaded, keys[1..]);
      assert keys == [keys[0]] + keys[1..];
    }
  }

  /** A price set under provider and model wins over any other, wherever the others come from. */
  lemma QualifiedKeyWins(statics: Table, loaded: Table, provider: string, model: string)
    requires Lower(provider) + ":" + Lower(model) in statics
    ensures FirstPrice(statics, loaded, Keys(provider, model)) == Some(statics[Lower(provider) + ":" + Lower(model)])
  {
    assert Keys(provider, model)[0] == Lower(provider) + ":" + Lower(model);
    FirstPriceIsFirst(statics, loaded, Keys(provider, model), 0);
  }

  // ---- The registry ----

  /** The variables of the module. `open` and what follows are those of the run, not of the code. */
  class PriceRegistry {
    var statics: Table
    var loaded: Table
    var hasSource: bool
    var ttl: nat
    var loadedAt: nat
    var loading: Option<Runs.Ticket>
    var nextTicket: Runs.Ticket
    ghost var open: set<Runs.Ticket>
    ghost var starts: seq<nat>
    ghost var completions: seq<Runs.Completion<ModelPricing>>

    constructor ()
      ensures Value() == Runs.Init()
    {
      statics, loaded, hasSource, ttl, loadedAt, loading, nextTicket := map[], map[], false, 0, 0, None, 0;
      open, starts, completions := {}, [], [];
    }

    ghost function Value(): Runs.State<ModelPricing>
      reads this
    {
      Runs.State(statics, loaded, hasSource, ttl, loadedAt, loading, open, nextTicket, starts, completions)
    }

    method Configure(table: Prices, hasSource: bool, ttl: nat)
      modifies this
      ensures Value() == Runs.OnConfigure(old(Value()), statics, hasSource, ttl)
      ensures IsNormalised(table, statics)
    {
      statics := Normalise(table);
      this.hasSource, this.ttl := hasSource, ttl;
      loaded, loadedAt, loading := map[], 0, None;
      starts, completions := [], [];
    }

    predicate IsStale(now: nat)
      reads this
    {
      loadedAt == 0 || (ttl > 0 && now - loadedAt >= ttl)
    }

    /** `load`, up to its `await`, and the assignment of what it returned. */
    method Begin(now: nat, throws: bool)
      modifies this
      ensures Value() == Runs.Begin(old(Value()), now, throws)
    {
      var ticket := nextTicket;
      nextTicket, starts := nextTicket + 1, starts + [now];
      if throws {
        loaded, loadedAt, loading := map[], now, None;
        completions := completions + [Runs.Completion(now, None)];
      } else {
        open := open + {ticket};
      }
      loading := Some(ticket);
    }

    /** The caller then awaits whatever load is under way. */
    method LoadAiPricing(now: nat, throws: bool)
      modifies this
      ensures Value() == Runs.OnLoad(old(Value()), now, throws)
    {
      if !hasSource { return; }
      if loading.None? && !IsStale(now) { return; }
      if loading.None? { Begin(now, throws); }
    }

    method RefreshIfStale(now: nat, throws: bool)
      modifies this
      ensures Value() == Runs.OnRefresh(old(Value()), now, throws)
    {
      if !hasSource || loading.Some? || !IsStale(now) { return; }
      Begin(now, throws);
    }

    /** The source's promise settles: with a table, or, rejected, with none. */
    method Settle(ticket: Runs.Ticket, now: nat, result: Option<Prices>)
      returns (ghost normalised: Option<Table>)
      requires ticket in open
      modifies this
      ensures Value() == Runs.OnSettle(old(Value()), ticket, now, normalised) && normalised.Some? == result.Some?
      ensures result.Some? ==> IsNormalised(result.value, normalised.value)
    {
      if result.Some? {
        loaded := Normalise(result.value);
        normalised := Some(loaded);
      } else {
        loaded := map[];
        normalised := None;
      }
      loadedAt, loading := now, None;
      open, completions := open - {ticket}, completions + [Runs.Completion(now, normalised)];
    }

    /** `pricingFor`: never waits; the answer comes from the tables as they stand. */
    method PricingFor(provider: string, model: string, now: nat, throws: bool) returns (price: Option<ModelPricing>)
      modifies this
      ensures Value() == Runs.OnRefresh(old(Value()), now, throws)
      ensures price == FirstPrice(statics, loaded, Keys(provider, model))
    {
      RefreshIfStale(now, throws);
      var full, exact := Lower(provider), Lower(model);
      var base := WithoutVariant(exact);
      var ids := if base == exact then [exact] else [exact, base];
      ghost var keys := Keys(provider, model);
      for i := 0 to |ids|
        invariant FirstPrice(statics, loaded, keys) == FirstPrice(statics, loaded, keys[3 * i..])
      {
        var three := KeysFor(full, ids[i]);
        assert three[..] == keys[3 * i..3 * i + 3];
        for j := 0 to 3
          invariant FirstPrice(statics, loaded, keys) == FirstPrice(statics, loaded, keys[3 * i + j..])
        {
          var key := three[j];
          assert keys[3 * i + j..][0] == key && keys[3 * i + j..][1..] == keys[3 * i + j + 1..];
          if key in statics { return Some(statics[key]); }
          if key in loaded { return Some(loaded[key]); }
        }
      }
      price := None;
    }
  }
}
