/**
 * The cached price table of ai-pricing.ts as a state machine, and what holds of every run of it: at
 * most one call of the source at a time, a new one only once the last result is older than the TTL
 * allows, and every lookup against one whole result.
 *
 * Times are read off the clock and are positive; `0` stands for "never".
 */
module PricingRuns {
  import opened Options

  type Key = string
  type Ticket = nat

  /** Prices by lower-cased key. `P` is the type of a price. */
  type Table<P> = map<Key, P>

  /** A call of the source that is over: when, and with what, if it did not fail. */
  datatype Completion<P> = Completion(at: nat, result: Option<Table<P>>)

  /**
   * `statics` to `loading` are the variables of the module; `open` are the calls of the source that
   * have not settled, `starts` and `completions` those made and those over since it was configured.
   */
  datatype State<P> = State(
    statics: Table<P>,
    loaded: Table<P>,
    hasSource: bool,
    ttl: nat,
    loadedAt: nat,
    loading: Option<Ticket>,
    open: set<Ticket>,
    nextTicket: Ticket,
    starts: seq<nat>,
    completions: seq<Completion<P>>)

  /** `throws`: the source, if this event calls it, throws before it returns a promise. */
  datatype Event<P> =
    | Configure(statics: Table<P>, hasSource: bool, ttl: nat)
    | Load(now: nat, throws: bool)
    | Lookup(now: nat, throws: bool)
    | Settle(ticket: Ticket, now: nat, result: Option<Table<P>>)

  function Init<P>(): State<P> {
    State(map[], map[], false, 0, 0, None, {}, 0, [], [])
  }

  /** `configureAiPricing`: what is open stays open, but is no longer waited for. */
  function OnConfigure<P>(s: State<P>, statics: Table<P>, hasSource: bool, ttl: nat): State<P> {
    State(statics, map[], hasSource, ttl, 0, None, s.open, s.nextTicket, [], [])
  }

  predicate IsStale<P>(s: State<P>, now: nat) {
    s.loadedAt == 0 || (s.ttl > 0 && now - s.loadedAt >= s.ttl)
  }

  function LoadedFrom<P>(result: Option<Table<P>>): Table<P> {
    result.GetOr(map[])
  }

  /**
   * `loading = load()`. When the source throws at once, `load` has already cleared `loading` by the
   * time it is assigned.
   */
  function Begin<P>(s: State<P>, now: nat, throws: bool): State<P> {
    var s1 := s.(loading := Some(s.nextTicket), nextTicket := s.nextTicket + 1, starts := s.starts + [now]);
    if throws then s1.(loaded := map[], loadedAt := now, completions := s.completions + [Completion(now, None)])
    else s1.(open := s.open + {s.nextTicket})
  }

  /** `loadAiPricing`. */
  function OnLoad<P>(s: State<P>, now: nat, throws: bool): State<P> {
    if !s.hasSource || (s.loading.None? && !IsStale(s, now)) || s.loading.Some? then s else Begin(s, now, throws)
  }

  /** `refreshIfStale`, on the way of every lookup. */
  function OnRefresh<P>(s: State<P>, now: nat, throws: bool): State<P> {
    if !s.hasSource || s.loading.Some? || !IsStale(s, now) then s else Begin(s, now, throws)
  }

  /** What follows the `await` in `load`, whatever was configured since. */
  function OnSettle<P>(s: State<P>, ticket: Ticket, now: nat, result: Option<Table<P>>): State<P> {
    s.(loaded := LoadedFrom(result), loadedAt := now, loading := None, open := s.open - {ticket},
    completions := s.completions + [Completion(now, result)])
  }

  predicate Possible<P>(s: State<P>, e: Event<P>) {
    e.Settle? ==> e.ticket in s.open
  }

  function Step<P>(s: State<P>, e: Event<P>): State<P> {
    if !Possible(s, e) then s else
    match e
    case Configure(statics, hasSource, ttl) => OnConfigure(s, statics, hasSource, ttl)
    case Load(now, throws) => OnLoad(s, now, throws)
    case Lookup(now, throws) => OnRefresh(s, now, throws)
    case Settle(ticket, now, result) => OnSettle(s, ticket, now, result)
  }

  function Run<P>(es: seq<Event<P>>): State<P> {
    if es == [] then Init() else Step(Run(es[..|es| - 1]), es[|es| - 1])
  }

  // ---- Runs on a clock ----

  function TimeOf<P>(e: Event<P>): Option<nat> {
    match e
    case Configure(_, _, _) => None
    case Load(now, _) => Some(now)
    case Lookup(now, _) => Some(now)
    case Settle(_, now, _) => Some(now)
  }

  /** The last time read off the clock. */
  function Clock<P>(es: seq<Event<P>>): nat {
    if es == [] then 0 else TimeOf(es[|es| - 1]).GetOr(Clock(es[..|es| - 1]))
  }

  /** The clock is positive and never goes back. */
  ghost predicate OnTime<P>(es: seq<Event<P>>) {
    es == [] || (OnTime(es[..|es| - 1]) && (TimeOf(es[|es| - 1]).Some? ==>
      TimeOf(es[|es| - 1]).value > 0 && TimeOf(es[|es| - 1]).value >= Clock(es[..|es| - 1])))
  }

  /** What the caller must see to: configure with nothing in flight, and a source that settles later than it is called. */
  ghost predicate Quiet<P>(es: seq<Event<P>>) {
    es == [] ||
    (var before, e := es[..|es| - 1], es[|es| - 1];
     && Quiet(before)
     && (e.Configure? ==> Run(before).open == {})
     && (e.Load? ==> !e.throws) && (e.Lookup? ==> !e.throws))
  }

  // ---- Single flight ----

  /** One call is open exactly while it is waited for, and calls end in the order they began. */
  ghost predicate SingleFlight<P>(s: State<P>) {
    && s.open == (if s.loading.Some? then {s.loading.value} else {})
    && |s.starts| == |s.completions| + |s.open|
    && (s.loading.Some? ==> s.loading.value < s.nextTicket)
  }

  /** Each call began when none was over yet, or when the TTL had run out since the one before was over. */
  ghost predicate Spaced<P>(s: State<P>) {
    forall k | 1 <= k < |s.starts| :: IsSpaced(s, k)
  }

  ghost predicate IsSpaced<P>(s: State<P>, k: nat)
    requires 1 <= k < |s.starts|
  {
    k <= |s.completions| && s.ttl > 0 && s.starts[k] >= s.completions[k - 1].at + s.ttl
  }

  /** What lookups see is the last result, whole; a failure counts as an empty one. */
  ghost predicate OneResult<P>(s: State<P>, clock: nat) {
    if s.completions == [] then s.loadedAt == 0 && s.loaded == map[]
    else var last := s.completions[|s.completions| - 1];
         s.loadedAt == last.at && 0 < last.at <= clock && s.loaded == LoadedFrom(last.result)
  }

  ghost predicate Holds<P>(s: State<P>, clock: nat) {
    SingleFlight(s) && Spaced(s) && OneResult(s, clock)
  }

  lemma BeginHolds<P>(s: State<P>, now: nat, clock: nat)
    requires Holds(s, clock) && s.loading.None? && IsStale(s, now) && clock <= now
    ensures Holds(Begin(s, now, false), now)
  {
    var s' := Begin(s, now, false);
    forall k | 1 <= k < |s'.starts| ensures IsSpaced(s', k) {
      if k == |s.starts| {
        assert s.completions[k - 1] == s.completions[|s.completions| - 1];
      } else {
        assert IsSpaced(s, k);
      }
    }
  }

  lemma SettleHolds<P>(s: State<P>, ticket: Ticket, now: nat, result: Option<Table<P>>, clock: nat)
    requires Holds(s, clock) && ticket in s.open && 0 < now && clock <= now
    ensures Holds(OnSettle(s, ticket, now, result), now)
  {
    var s' := OnSettle(s, ticket, now, result);
    forall k | 1 <= k < |s'.starts| ensures IsSpaced(s', k) {
      assert IsSpaced(s, k);
    }
  }

  lemma StepHolds<P>(s: State<P>, e: Event<P>, clock: nat)
    requires Holds(s, clock) && (e.Configure? ==> s.open == {}) && (e.Load? ==> !e.throws) && (e.Lookup? ==> !e.throws)
    requires TimeOf(e).Some? ==> TimeOf(e).value > 0 && clock <= TimeOf(e).value
    ensures Holds(Step(s, e), TimeOf(e).GetOr(clock))
  {
    match e
    case Configure(_, _, _) =>
    case Load(now, _) => if Step(s, e) != s { BeginHolds(s, now, clock); }
    case Lookup(now, _) => if Step(s, e) != s { BeginHolds(s, now, clock); }
    case Settle(ticket, now, result) => if Step(s, e) != s { SettleHolds(s, ticket, now, result, clock); }
  }

  /** Over every run on a clock, configured with nothing in flight, whose source never throws at once. */
  lemma {:induction false} RunsHold<P>(es: seq<Event<P>>)
    requires OnTime(es) && Quiet(es)
    ensures Holds(Run(es), Clock(es))
  {
    if es != [] {
      RunsHold(es[..|es| - 1]);
      StepHolds(Run(es[..|es| - 1]), es[|es| - 1], Clock(es[..|es| - 1]));
    }
  }

  /** Without a TTL the source is called once, failures included, and never again. */
  lemma WithoutTtlLoadsOnce<P>(es: seq<Event<P>>)
    requires OnTime(es) && Quiet(es) && Run(es).ttl == 0
    ensures |Run(es).starts| <= 1
  {
    RunsHold(es);
    assert |Run(es).starts| > 1 ==> IsSpaced(Run(es), 1);
  }

  /** Two calls of the source are at least a TTL apart, end to start. */
  lemma CallsAreSpaced<P>(es: seq<Event<P>>, k: nat)
    requires OnTime(es) && Quiet(es) && 0 < k < |Run(es).starts|
    ensures k <= |Run(es).completions| && Run(es).starts[k] >= Run(es).completions[k - 1].at + Run(es).ttl
  {
    RunsHold(es);
    assert IsSpaced(Run(es), k);
  }

  /** The last configuration of a run. */
  ghost function LastConfiguration<P>(es: seq<Event<P>>): Option<Event<P>> {
    if es == [] then None
    else if es[|es| - 1].Configure? then Some(es[|es| - 1])
    else LastConfiguration(es[..|es| - 1])
  }

  /** In every run the static prices, the source and the TTL are those of the last configuration. */
  lemma {:induction false} ConfiguredAsLast<P>(es: seq<Event<P>>)
    ensures var s, last := Run(es), LastConfiguration(es);
            && (last.None? ==> s.statics == map[] && !s.hasSource && s.ttl == 0)
            && (last.Some? ==>
                  last.value.Configure? && s.statics == last.value.statics && s.hasSource == last.value.hasSource && s.ttl == last.value.ttl)
  {
    if es != [] {
      ConfiguredAsLast(es[..|es| - 1]);
    }
  }

  // ---- Sources that throw at once ----

  /** Whether an event calls the source. */
  predicate Calls<P>(s: State<P>, e: Event<P>) {
    (e.Load? || e.Lookup?) && s.hasSource && s.loading.None? && IsStale(s, e.now)
  }

  /** Whether some call of the source, since it was configured last, threw before it returned a promise. */
  predicate Threw<P>(es: seq<Event<P>>) {
    if es == [] then false else
    var before, e := es[..|es| - 1], es[|es| - 1];
    if e.Configure? then false
    else if Calls(Run(before), e) && e.throws then true
    else Threw(before)
  }

  /** Configured with nothing in flight; the source may do as it likes. */
  ghost predicate ConfiguredQuietly<P>(es: seq<Event<P>>) {
    es == [] ||
    (ConfiguredQuietly(es[..|es| - 1]) && (es[|es| - 1].Configure? ==> Run(es[..|es| - 1]).open == {}))
  }

  /** A load is waited for that is never over: no call of the source is open. */
  ghost predicate Wedged<P>(s: State<P>) {
    s.loading.Some? && s.open == {}
  }

  ghost predicate WaitsFor<P>(s: State<P>, threw: bool) {
    && s.open == (if s.loading.Some? && !threw then {s.loading.value} else {})
    && (threw ==> s.loading.Some?)
  }

  lemma {:induction false} WaitsForItsCall<P>(es: seq<Event<P>>)
    requires ConfiguredQuietly(es)
    ensures WaitsFor(Run(es), Threw(es))
  {
    if es != [] {
      WaitsForItsCall(es[..|es| - 1]);
    }
  }

  /** Exactly when a call threw at once, since the last configuration, does the code wait for a load that is never over. */
  lemma ThrowingWedges<P>(es: seq<Event<P>>)
    requires ConfiguredQuietly(es)
    ensures Wedged(Run(es)) <==> Threw(es)
  {
    WaitsForItsCall(es);
  }

  /** And from then on the source is never called again, whatever the TTL, until it is configured again. */
  lemma {:induction false} ThrowingOnceIsForever<P>(es: seq<Event<P>>, rest: seq<Event<P>>)
    requires Wedged(Run(es)) && forall e <- rest :: !e.Configure?
    ensures Run(es + rest).starts == Run(es).starts && Wedged(Run(es + rest))
  {
    if rest == [] {
      assert es + rest == es;
    } else {
      var n := |rest| - 1;
      ThrowingOnceIsForever(es, rest[..n]);
      assert (es + rest)[..|es| + n] == es + rest[..n];
      assert (es + rest)[|es| + n] == rest[n] && rest[n] in rest;
    }
  }

  // ---- When a lookup starts a load ----

  /** No call is over since the last configuration, or the last one was over a TTL ago. */
  predicate HasExpired<P>(s: State<P>, now: nat) {
    s.completions == [] || (s.ttl > 0 && now >= s.completions[|s.completions| - 1].at + s.ttl)
  }

  lemma {:induction false} LoadedWhenCompleted<P>(es: seq<Event<P>>)
    requires OnTime(es)
    ensures OneResult(Run(es), Clock(es))
  {
    if es != [] {
      LoadedWhenCompleted(es[..|es| - 1]);
    }
  }

  /**
   * In every run a lookup calls the source exactly when there is one, no call of it is open, the last
   * result has expired, and no call threw at once since it was configured.
   */
  lemma LookupRefreshes<P>(es: seq<Event<P>>, now: nat, throws: bool)
    requires OnTime(es) && ConfiguredQuietly(es)
    ensures var s, s' := Run(es), Run(es + [Lookup(now, throws)]);
            s'.starts == (if s.hasSource && s.open == {} && HasExpired(s, now) && !Threw(es) then s.starts + [now] else s.starts)
  {
    assert (es + [Lookup(now, throws)])[..|es|] == es;
    LoadedWhenCompleted(es);
    WaitsForItsCall(es);
  }

  // ---- Whose result a lookup reads ----

  /** A call of the source that is over, and what came of it. */
  datatype Answer<P> = Answer(ticket: Ticket, result: Option<Table<P>>)

  /** The last call to be over since the last configuration. */
  function LastAnswer<P>(es: seq<Event<P>>): Option<Answer<P>> {
    if es == [] then None else
    var before, e := es[..|es| - 1], es[|es| - 1];
    var s := Run(before);
    if e.Configure? then None
    else if e.Settle? && e.ticket in s.open then Some(Answer(e.ticket, e.result))
    else if Calls(s, e) && e.throws then Some(Answer(s.nextTicket, None))
    else LastAnswer(before)
  }

  function Configurations<P>(es: seq<Event<P>>): nat {
    if es == [] then 0 else Configurations(es[..|es| - 1]) + if es[|es| - 1].Configure? then 1 else 0
  }

  /** The configuration a call was made under: how many there had been by then. */
  function CalledUnder<P>(es: seq<Event<P>>, ticket: Ticket): nat {
    if es == [] then 0 else
    var before := es[..|es| - 1];
    if ticket < Run(before).nextTicket then CalledUnder(before, ticket) else Configurations(before)
  }

  /** The calls open when the source was configured last. */
  function OpenAtConfigure<P>(es: seq<Event<P>>): set<Ticket> {
    if es == [] then {} else
    var before := es[..|es| - 1];
    if es[|es| - 1].Configure? then Run(before).open else OpenAtConfigure(before)
  }

  /** What is open was called since the last configuration, or was open then. */
  ghost predicate Provenance<P>(es: seq<Event<P>>) {
    var s := Run(es);
    && (forall t <- s.open :: t < s.nextTicket)
    && (forall t <- OpenAtConfigure(es) :: t < s.nextTicket && CalledUnder(es, t) != Configurations(es))
    && (forall t <- s.open :: t in OpenAtConfigure(es) || CalledUnder(es, t) == Configurations(es))
    && (LastAnswer(es).Some? ==> IsFrom(es, LastAnswer(es).value.ticket))
  }

  ghost predicate IsFrom<P>(es: seq<Event<P>>, ticket: Ticket) {
    ticket < Run(es).nextTicket && (CalledUnder(es, ticket) == Configurations(es) <==> ticket !in OpenAtConfigure(es))
  }

  lemma {:induction false} CalledByThen<P>(es: seq<Event<P>>, ticket: Ticket)
    ensures CalledUnder(es, ticket) <= Configurations(es)
  {
    if es != [] { CalledByThen(es[..|es| - 1], ticket); }
  }

  lemma ConfigureProvenance<P>(before: seq<Event<P>>, e: Event<P>)
    requires Provenance(before) && e.Configure?
    ensures Provenance(before + [e])
  {
    var es := before + [e];
    assert es[..|before|] == before;
    forall t: Ticket ensures CalledUnder(before, t) <= Configurations(before) { CalledByThen(before, t); }
  }

  lemma CallProvenance<P>(before: seq<Event<P>>, e: Event<P>)
    requires Provenance(before) && !e.Configure?
    ensures Provenance(before + [e])
  {
    var es := before + [e];
    assert es[..|before|] == before;
  }

  lemma {:induction false} TicketsHaveProvenance<P>(es: seq<Event<P>>)
    ensures Provenance(es)
  {
    if es != [] {
      var before, e := es[..|es| - 1], es[|es| - 1];
      TicketsHaveProvenance(before);
      hide Provenance;
      assert es == before + [e];
      if e.Configure? { ConfigureProvenance(before, e); } else { CallProvenance(before, e); }
    }
  }

  /**
   * In every run lookups read the result of the last call to be over since the last configuration,
   * whole, or nothing; and it comes from the source configured exactly when that call was not
   * already open at the configuration.
   */
  lemma {:induction false} LookupsReadTheLastAnswer<P>(es: seq<Event<P>>)
    ensures var answer := LastAnswer(es);
            && Run(es).loaded == (if answer.Some? then LoadedFrom(answer.value.result) else map[])
            && (answer.Some? ==>
                  (CalledUnder(es, answer.value.ticket) == Configurations(es) <==> answer.value.ticket !in OpenAtConfigure(es)))
  {
    TicketsHaveProvenance(es);
    if es != [] {
      LookupsReadTheLastAnswer(es[..|es| - 1]);
    }
  }

  /**
   * So it takes no more than a call open at a configuration: as soon as it settles, the new
   * configuration answers from the source of an earlier one, whatever it said of its own.
   */
  lemma OldSourceAnswersNewConfiguration<P>(es: seq<Event<P>>, ticket: Ticket, statics: Table<P>, hasSource: bool, ttl: nat, now: nat, result: Option<Table<P>>)
    requires ticket in Run(es).open
    ensures var es' := es + [Configure(statics, hasSource, ttl)] + [Settle(ticket, now, result)];
            && Run(es').loaded == LoadedFrom(result) && LastAnswer(es') == Some(Answer(ticket, result))
            && CalledUnder(es', ticket) < Configurations(es')
  {
    var es1 := es + [Configure(statics, hasSource, ttl)];
    var es2 := es1 + [Settle(ticket, now, result)];
    assert es1[..|es|] == es && es2[..|es1|] == es1;
    TicketsHaveProvenance(es);
    CalledByThen(es, ticket);
  }
}
