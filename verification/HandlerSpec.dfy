/**
 * The executions of `@OnEvent` handlers `EventProfilerService` (event-profiler.service.ts) wraps, on
 * values.
 *
 * An execution runs in a context: a CLS store and the profile it records into. Contexts are kept in
 * the order they were opened and named by their position, which also stands for the profile's token.
 * Steps of different contexts come in any order.
 */
module HandlerSpec {
  import opened Options

  type TraceId = string
  type Token = nat

  /** How a handler ended: the value it returned or resolved to, or the error it threw or rejected with. */
  datatype Outcome = Value(value: string) | Failure(error: string)

  /** What calling a handler did: it ended at once, or it returned something that must be awaited. */
  datatype Called = Ended(outcome: Outcome) | Thenable

  datatype Meta = Meta(event: string, provider: string, handler: string)

  datatype Profile = Profile(
    traceId: TraceId,
    meta: Option<Meta>,
    success: bool,
    status: Option<nat>,
    exceptions: seq<string>,
    entries: seq<string>)

  /** The `profiler` branch of a store. `others` are the keys instrumentation sets beside the profile. */
  datatype Branch = Branch(token: Token, traceId: TraceId, others: map<string, string>)

  /** A CLS store: what the host put there, and the profiler's branch if the execution is profiled. */
  datatype Store = Store(keys: map<string, string>, profiler: Option<Branch>)

  /** Where the wrapper around a handler stands. */
  datatype Phase =
    | NotAHandler
    | Running
    | Returned(outcome: Outcome)
    | Awaiting
    | Storing(outcome: Outcome)
    | Settled(outcome: Outcome)

  datatype Context = Context(parent: Option<nat>, store: Store, profile: Profile, phase: Phase)

  /** What the wrapper does that others see, in order. */
  datatype Action =
    | Finalize(x: nat, failed: bool)
    | Persist(x: nat)
    | Return(x: nat, outcome: Outcome)
    | ReturnPromise(x: nat)
    | Warn(x: nat)
    | Settle(x: nat, outcome: Outcome)

  datatype State = State(contexts: seq<Context>, trail: seq<Action>)

  datatype Event =
    | Open(keys: map<string, string>, traced: Option<TraceId>)
    | Call(from: Option<nat>, meta: Meta, freshTrace: TraceId)
    | End(x: nat, called: Called)
    | Resolve(x: nat, outcome: Outcome)
    | Persisted(x: nat, stored: bool)
    | Record(c: nat, entry: string)
    | SetKey(c: nat, key: string, value: string)

  function Init(): State {
    State([], [])
  }

  function NewProfile(traceId: TraceId, meta: Option<Meta>): Profile {
    Profile(traceId, meta, true, None, [], [])
  }

  /** Some other entry point opens a context: profiled, or with the profiler's branch absent. */
  function OnOpen(s: State, keys: map<string, string>, traced: Option<TraceId>): State {
    var x := |s.contexts|;
    var branch := if traced.Some? then Some(Branch(x, traced.value, map[])) else None;
    s.(contexts := s.contexts + [Context(None, Store(keys, branch), NewProfile(traced.GetOr(""), None), NotAHandler)])
  }

  /** `readTraceId` in the store active at the emission. */
  function TraceOf(store: Store): Option<TraceId> {
    if store.profiler.Some? then Some(store.profiler.value.traceId) else None
  }

  /** `buildClsStore`: the parent's store, with a branch of its own. */
  function ChildStore(parent: Store, token: Token, traceId: TraceId): Store {
    var others := if parent.profiler.Some? then parent.profiler.value.others else map[];
    Store(parent.keys, Some(Branch(token, traceId, others)))
  }

  function StoreOf(s: State, from: Option<nat>): Store {
    if from.Some? && from.value < |s.contexts| then s.contexts[from.value].store else Store(map[], None)
  }

  /** A handler is called from the context active at the emission, if any is. */
  function OnCall(s: State, from: Option<nat>, meta: Meta, freshTrace: TraceId): State
    requires from.Some? ==> from.value < |s.contexts|
  {
    var parent := StoreOf(s, from);
    var traceId := TraceOf(parent).GetOr(freshTrace);
    s.(contexts := s.contexts
         + [Context(from, ChildStore(parent, |s.contexts|, traceId), NewProfile(traceId, Some(meta)), Running)])
  }

  /** `finalize`. */
  function Finalized(p: Profile, outcome: Outcome): Profile {
    p.(success := outcome.Value?,
    status := Some(if outcome.Value? then 200 else 500),
    exceptions := if outcome.Value? then p.exceptions else p.exceptions + [outcome.error])
  }

  function Update(s: State, x: nat, profile: Profile, phase: Phase, actions: seq<Action>): State
    requires x < |s.contexts|
  {
    State(s.contexts[x := s.contexts[x].(profile := profile, phase := phase)], s.trail + actions)
  }

  function FinalizeAction(x: nat, outcome: Outcome): Action {
    Finalize(x, outcome.Failure?)
  }

  /** The handler returns or throws, or hands back a promise to wait for. */
  function OnEnd(s: State, x: nat, called: Called): State
    requires x < |s.contexts|
  {
    var p := s.contexts[x].profile;
    match called
    case Thenable => Update(s, x, p, Awaiting, [ReturnPromise(x)])
    case Ended(o) => Update(s, x, Finalized(p, o), Returned(o), [FinalizeAction(x, o), Persist(x), Return(x, o)])
  }

  /** The handler's promise settles; the wrapper's own waits for the profile to be stored. */
  function OnResolve(s: State, x: nat, o: Outcome): State
    requires x < |s.contexts|
  {
    Update(s, x, Finalized(s.contexts[x].profile, o), Storing(o), [FinalizeAction(x, o), Persist(x)])
  }

  /** What follows once storing ended: a failure is logged, and the handler's own outcome handed on all the same. */
  function AnswerActions(x: nat, o: Outcome, stored: bool): seq<Action> {
    (if stored then [] else [Warn(x)]) + [Settle(x, o)]
  }

  function OnPersisted(s: State, x: nat, stored: bool): State
    requires x < |s.contexts| && s.contexts[x].phase.Storing?
  {
    var o := s.contexts[x].phase.outcome;
    Update(s, x, s.contexts[x].profile, Settled(o), AnswerActions(x, o, stored))
  }

  /** Code running in a context records an entry into the profile of its store. */
  function OnRecord(s: State, c: nat, entry: string): State
    requires c < |s.contexts|
  {
    var p := s.contexts[c].profile;
    s.(contexts := s.contexts[c := s.contexts[c].(profile := p.(entries := p.entries + [entry]))])
  }

  /** Code running in a context sets a key of the profiler's branch. */
  function OnSetKey(s: State, c: nat, key: string, value: string): State
    requires c < |s.contexts| && s.contexts[c].store.profiler.Some?
  {
    var store := s.contexts[c].store;
    var branch := store.profiler.value;
    var branch' := branch.(others := branch.others[key := value]);
    s.(contexts := s.contexts[c := s.contexts[c].(store := store.(profiler := Some(branch')))])
  }

  /** Whether an event can happen: a handler ends once, its promise settles once. */
  predicate Possible(s: State, e: Event) {
    match e
    case Open(_, _) => true
    case Call(from, _, _) => from.Some? ==> from.value < |s.contexts|
    case End(x, _) => x < |s.contexts| && s.contexts[x].phase.Running?
    case Resolve(x, _) => x < |s.contexts| && s.contexts[x].phase.Awaiting?
    case Persisted(x, _) => x < |s.contexts| && s.contexts[x].phase.Storing?
    case Record(c, _) => c < |s.contexts| && s.contexts[c].store.profiler.Some?
    case SetKey(c, _, _) => c < |s.contexts| && s.contexts[c].store.profiler.Some?
  }

  function Step(s: State, e: Event): State {
    if !Possible(s, e) then s else
    match e
    case Open(keys, traced) => OnOpen(s, keys, traced)
    case Call(from, meta, freshTrace) => OnCall(s, from, meta, freshTrace)
    case End(x, called) => OnEnd(s, x, called)
    case Resolve(x, o) => OnResolve(s, x, o)
    case Persisted(x, stored) => OnPersisted(s, x, stored)
    case Record(c, entry) => OnRecord(s, c, entry)
    case SetKey(c, key, value) => OnSetKey(s, c, key, value)
  }

  /** The state after a run; events that cannot happen change nothing. */
  function Run(es: seq<Event>): State {
    if es == [] then Init() else Step(Run(es[..|es| - 1]), es[|es| - 1])
  }
}
