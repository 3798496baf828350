/**
 * `AiCollector.collect` (ai.collector.ts): the figures of a profile, summed over its raw entries,
 * which are dropped once read.
 */
module AiCollector {
  import opened Options
  import opened AiEntries
  import opened AiTelemetry
  import opened Rounding
  import Spec = TelemetrySpec
  import TelemetryTokens
  import TelemetryRuns

  const TOKEN_PLACES := 1000.0
  const COST_PLACES := 1_000_000_000.0

  datatype CollectorData = CollectorData(
    entries: seq<AiEntry>,
    callCount: nat,
    toolCount: nat,
    totalTokens: real,
    totalCost: real,
    costKnown: bool,
    costEstimated: bool)

  function CallsOf(entries: seq<AiEntry>): (calls: seq<AiCallEntry>)
    ensures |calls| <= |entries|
  {
    if entries == [] then [] else
    var n := |entries| - 1;
    CallsOf(entries[..n]) + if entries[n].CallRef? then [entries[n].call] else []
  }

  function SumTokens(calls: seq<AiCallEntry>): nat
    reads calls
  {
    if calls == [] then 0 else SumTokens(calls[..|calls| - 1]) + TotalOf(calls[|calls| - 1].usage)
  }

  function CostOf(price: Option<Price>): real {
    if price.Some? then price.value.cost else 0.0
  }

  function SumCosts(costs: seq<real>): real {
    if costs == [] then 0.0 else SumCosts(costs[..|costs| - 1]) + costs[|costs| - 1]
  }

  function Costs(calls: seq<AiCallEntry>): (costs: seq<real>)
    reads calls
    ensures |costs| == |calls| && forall i | 0 <= i < |calls| :: costs[i] == CostOf(calls[i].price)
  {
    if calls == [] then [] else Costs(calls[..|calls| - 1]) + [CostOf(calls[|calls| - 1].price)]
  }

  /** Token counts are whole, so rounding their sum to thousandths changes nothing. */
  lemma WholeSumsAreExact(n: nat)
    ensures Round(n as real, TOKEN_PLACES) == n as real
  {
    RoundIsExact(n as real, n * 1000, TOKEN_PLACES);
  }

  /** The entries are read off the profile, which then no longer holds them. */
  method Collect(profile: Profile) returns (data: CollectorData)
    modifies profile
    ensures profile.entries == []
    ensures var calls := CallsOf(old(profile.entries));
            && data.callCount == |calls| && data.callCount + data.toolCount == |old(profile.entries)|
            && data.entries == old(profile.entries)
            && data.totalTokens == SumTokens(calls) as real
            && data.totalCost == Round(SumCosts(Costs(calls)), COST_PLACES)
            && (data.costKnown <==> exists c <- calls :: c.price.Some?)
            && (data.costEstimated <==> exists c <- calls :: c.price.Some? && c.price.value.source.Estimated?)
  {
    var entries := profile.entries;
    profile.entries := [];
    var calls := CallsOf(entries);
    WholeSumsAreExact(SumTokens(calls));
    data := CollectorData(
      entries,
      |calls|,
      |entries| - |calls|,
      Round(SumTokens(calls) as real, TOKEN_PLACES),
      Round(SumCosts(Costs(calls)), COST_PLACES),
      exists c <- calls :: c.price.Some?,
      exists c <- calls :: c.price.Some? && c.price.value.source.Estimated?);
  }

  /** The tokens of a profile's entries are those the log recorded into it. */
  lemma {:induction false} EntriesAddUp(refs: seq<AiEntry>, log: seq<Spec.Recorded<Profile>>, p: Profile)
    requires |refs| == |log| && forall i | 0 <= i < |refs| :: refs[i].Holds(log[i].entry)
    ensures SumTokens(CallsOf(EntriesOf(refs, log, p))) == TelemetryTokens.ProfileTokens(log, p)
  {
    if log != [] {
      var n := |log| - 1;
      EntriesAddUp(refs[..n], log[..n], p);
      var before, ref := EntriesOf(refs[..n], log[..n], p), refs[n];
      OneMoreEntry(before, ref, log[n].entry);
      hide SumTokens, CallsOf;
      assert log[n].profile != p ==> before + [] == before;
    }
  }

  lemma OneMoreEntry(before: seq<AiEntry>, ref: AiEntry, entry: Entry)
    requires ref.Holds(entry)
    ensures SumTokens(CallsOf(before + [ref])) == SumTokens(CallsOf(before)) + TelemetryTokens.TokensOfEntry(entry)
  {
    assert (before + [ref])[..|before|] == before;
    var calls := CallsOf(before);
    if ref.CallRef? {
      assert (calls + [ref.call])[..|calls|] == calls;
    } else {
      assert calls + [] == calls;
    }
  }

  /** So `collect` shows, for a profile the telemetry filled, exactly what the events account for. */
  lemma CollectedTokens(telemetry: AiProfilerTelemetry, profile: Profile, es: seq<Spec.Event<Profile>>, home: seq<Profile>)
    requires telemetry.Valid() && profile in telemetry.profiles && telemetry.model == Spec.Run(es)
    requires TelemetryRuns.AllProfiled(es)
    requires |home| == |telemetry.model.ops| && TelemetryTokens.RanAtHome(telemetry.model.log, home)
    ensures SumTokens(CallsOf(profile.entries))
            == TelemetryTokens.Contributions(es, home, profile, |home|)
               + TelemetryTokens.OrphanTokens(telemetry.model.log, profile)
  {
    EntriesAddUp(telemetry.refs, telemetry.model.log, profile);
    TelemetryTokens.ProfileTotalIsConserved(es, home, profile);
  }
}
