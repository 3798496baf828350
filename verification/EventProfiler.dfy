/**
 * `EventProfilerService` (event-profiler.service.ts) as it runs: a mutable profile per handler
 * execution, and a CLS store whose `profiler` branch is an object of its own. Each method is one
 * event, proved to take the state `HandlerSpec` gives for it.
 */
module EventProfiler {
  import opened Options
  import Spec = HandlerSpec
  import opened HandlerSpec

  class Profile {
    const token: Token
    const traceId: TraceId
    const meta: Option<Meta>
    var success: bool
    var statusCode: Option<nat>
    var exceptions: seq<string>
    var entries: seq<string>

    constructor (token: Token, traceId: TraceId, meta: Option<Meta>)
      ensures this.token == token && Value() == NewProfile(traceId, meta)
    {
      this.token, this.traceId, this.meta := token, traceId, meta;
      success, statusCode, exceptions, entries := true, None, [], [];
    }

    function Value(): Spec.Profile
      reads this
    {
      Spec.Profile(traceId, meta, success, statusCode, exceptions, entries)
    }
  }

  /** The `profiler` key of a store: `cls.set` writes through a path into this very object. */
  class Branch {
    const token: Token
    const traceId: TraceId
    const profile: Profile
    var others: map<string, string>

    constructor (profile: Profile, others: map<string, string>)
      ensures this.profile == profile && token == profile.token && traceId == profile.traceId && this.others == others
    {
      this.profile, this.token, this.traceId, this.others := profile, profile.token, profile.traceId, others;
    }

    function Value(): Spec.Branch
      reads this
    {
      Spec.Branch(token, traceId, others)
    }
  }

  class Store {
    const keys: map<string, string>
    const profiler: Branch?

    constructor (keys: map<string, string>, profiler: Branch?)
      ensures this.keys == keys && this.profiler == profiler
    {
      this.keys, this.profiler := keys, profiler;
    }

    function Value(): Spec.Store
      reads profiler
    {
      Spec.Store(keys, if profiler == null then None else Some(profiler.Value()))
    }
  }

  /** `ProfilerCoreService`, as far as persistence is requested from it. */
  class ProfilerCore {
    var requested: seq<Token>

    constructor ()
      ensures requested == []
    {
      requested := [];
    }

    /** `schedulePersist`, and the start of `persist`. */
    method Persist(profile: Profile)
      modifies this
      ensures requested == old(requested) + [profile.token]
    {
      requested := requested + [profile.token];
    }
  }

  /** The tokens whose persistence a trail requests, in order. */
  ghost function Persists(trail: seq<Action>): seq<Token> {
    if trail == [] then [] else
    var last := trail[|trail| - 1];
    Persists(trail[..|trail| - 1]) + if last.Persist? then [last.x] else []
  }

  lemma PersistsAfter(trail: seq<Action>, a: Action)
    ensures Persists(trail + [a]) == if a.Persist? then Persists(trail) + [a.x] else Persists(trail)
  {
    assert (trail + [a])[..|trail|] == trail;
  }

  lemma PersistsAfterEnding(trail: seq<Action>, a: Action, b: Action)
    requires !a.Persist? && b.Persist?
    ensures Persists(trail + [a, b]) == Persists(trail) + [b.x]
  {
    PersistsAfter(trail, a);
    PersistsAfter(trail + [a], b);
    assert trail + [a] + [b] == trail + [a, b];
  }

  lemma PersistsAfterStoring(trail: seq<Action>, x: nat, o: Outcome, stored: bool)
    ensures Persists(trail + AnswerActions(x, o, stored)) == Persists(trail)
  {
    if stored {
      assert AnswerActions(x, o, stored) == [Settle(x, o)];
      PersistsAfter(trail, Settle(x, o));
    } else {
      PersistsAfter(trail, Warn(x));
      PersistsAfter(trail + [Warn(x)], Settle(x, o));
      assert trail + [Warn(x)] + [Settle(x, o)] == trail + AnswerActions(x, o, stored);
    }
  }

  lemma PersistsAfterAnswer(trail: seq<Action>, a: Action, b: Action, c: Action)
    requires !a.Persist? && b.Persist? && !c.Persist?
    ensures Persists(trail + [a, b, c]) == Persists(trail) + [b.x]
  {
    PersistsAfterEnding(trail, a, b);
    PersistsAfter(trail + [a, b], c);
    assert trail + [a, b] + [c] == trail + [a, b, c];
  }

  /** A thrown value is kept by its message, the text `asError` gives it. */
  class EventProfilerService {
    const core: ProfilerCore
    var nextToken: Token
    ghost var stores: seq<Store>
    ghost var profiles: seq<Profile>
    ghost var repr: set<object>
    ghost var model: State

    /** Two contexts never share a profile, nor a branch. */
    ghost predicate Apart()
      reads this
    {
      && (forall i, j | 0 <= i < j < |profiles| :: profiles[i] != profiles[j])
      && (forall i, j | 0 <= i < j < |stores| :: stores[i].profiler == null || stores[i].profiler != stores[j].profiler)
    }

    ghost predicate Holds(x: nat)
      requires x < |stores| && x < |profiles| && x < |model.contexts|
      reads this, repr
    {
      HoldsAs(x, model.contexts[x])
    }

    ghost predicate HoldsAs(x: nat, c: Context)
      requires x < |stores| && x < |profiles|
      reads this, repr
    {
      var branch := stores[x].profiler;
      && profiles[x] in repr && profiles[x].token == x && profiles[x].Value() == c.profile
      && (branch != null ==> branch in repr && branch.profile == profiles[x])
      && stores[x].Value() == c.store
      && (!c.phase.NotAHandler? ==> branch != null)
    }

    ghost predicate AllHold()
      reads this, repr
    {
      && |stores| == |profiles| == |model.contexts| == nextToken
      && forall x | 0 <= x < nextToken :: Holds(x)
    }

    ghost predicate Valid()
      reads this, core, repr
    {
      && this !in repr && core !in repr
      && Apart() && AllHold() && core.requested == Persists(model.trail)
    }

    constructor (core: ProfilerCore)
      requires core.requested == []
      ensures Valid() && this.core == core && model == Init() && repr == {}
    {
      this.core := core;
      stores, profiles, repr, model, nextToken := [], [], {}, Init(), 0;
    }

    /** One more context, made of objects nothing else holds. */
    method Enter(store: Store, profile: Profile, ghost context: Context)
      requires Valid() && profile.token == nextToken && profile !in repr && store.profiler !in repr
      requires profile.Value() == context.profile && store.Value() == context.store
      requires store.profiler != null ==> store.profiler.profile == profile
      requires context.phase.NotAHandler? || store.profiler != null
      modifies this
      ensures Valid() && stores == old(stores) + [store]
      ensures model == old(model).(contexts := old(model).contexts + [context])
      ensures repr == old(repr) + {profile} + if store.profiler == null then {} else {store.profiler}
    {
      forall x | 0 <= x < nextToken
        ensures profiles[x] != profile && (stores[x].profiler == null || stores[x].profiler != store.profiler)
      {
        assert Holds(x);
      }
      stores, profiles, model := stores + [store], profiles + [profile], model.(contexts := model.contexts + [context]);
      repr := repr + {profile} + if store.profiler == null then {} else {store.profiler};
      nextToken := nextToken + 1;
      forall x | 0 <= x < nextToken ensures Holds(x) {
        assert x < nextToken - 1 ==> old(Holds(x));
      }
    }

    method Open(keys: map<string, string>, traced: Option<TraceId>) returns (store: Store)
      requires Valid()
      modifies this
      ensures Valid() && model == OnOpen(old(model), keys, traced)
      ensures stores == old(stores) + [store] && fresh(store) && fresh(repr - old(repr))
    {
      var profile := new Profile(nextToken, traced.GetOr(""), None);
      var branch: Branch? := null;
      if traced.Some? {
        branch := new Branch(profile, map[]);
      }
      store := new Store(keys, branch);
      Enter(store, profile, OnOpen(model, keys, traced).contexts[nextToken]);
    }

    /** `buildProfile`: the trace of the active store if it has one, else one of its own. */
    method BuildProfile(active: Store?, meta: Meta, freshTrace: TraceId) returns (profile: Profile)
      ensures fresh(profile) && profile.token == nextToken
      ensures var trace := if active == null then None else TraceOf(active.Value());
              profile.Value() == NewProfile(trace.GetOr(freshTrace), Some(meta))
    {
      var traceId := if active != null && active.profiler != null then active.profiler.traceId else freshTrace;
      profile := new Profile(nextToken, traceId, Some(meta));
    }

    /** `buildClsStore`: every key of the active store, and a branch of its own. */
    method BuildClsStore(active: Store?, profile: Profile) returns (store: Store)
      ensures fresh(store) && store.profiler != null && fresh(store.profiler) && store.profiler.profile == profile
      ensures var parent := if active == null then Spec.Store(map[], None) else active.Value();
              store.Value() == ChildStore(parent, profile.token, profile.traceId)
    {
      var keys := if active == null then map[] else active.keys;
      var others := if active != null && active.profiler != null then active.profiler.others else map[];
      var branch := new Branch(profile, others);
      store := new Store(keys, branch);
    }

    /** The emission reaches a wrapped handler: `profile`, up to the call of the handler itself. */
    method Call(active: Store?, ghost from: Option<nat>, meta: Meta, freshTrace: TraceId) returns (store: Store)
      requires Valid()
      requires match from case None => active == null case Some(c) => c < |stores| && active == stores[c]
      modifies this
      ensures Valid() && model == OnCall(old(model), from, meta, freshTrace)
      ensures stores == old(stores) + [store] && fresh(store) && fresh(repr - old(repr))
    {
      ghost var parent := StoreOf(model, from);
      assert from.Some? ==> Holds(from.value);
      var profile := BuildProfile(active, meta, freshTrace);
      store := BuildClsStore(active, profile);
      Enter(store, profile, OnCall(model, from, meta, freshTrace).contexts[nextToken]);
    }

    method Finalize(profile: Profile, error: Option<string>)
      modifies profile
      ensures profile.Value() == Finalized(old(profile.Value()), if error.Some? then Failure(error.value) else Value(""))
    {
      profile.statusCode := Some(if error.Some? then 500 else 200);
      profile.success := error.None?;
      if error.Some? {
        profile.exceptions := profile.exceptions + [error.value];
      }
    }

    /** Only context `x` has changed, to what `next` says. */
    ghost method Advance(x: nat, next: State)
      requires this !in repr && core !in repr && Apart() && x < nextToken
      requires |stores| == |profiles| == |model.contexts| == |next.contexts| == nextToken
      requires forall y | 0 <= y < nextToken && y != x :: Holds(y) && next.contexts[y] == model.contexts[y]
      requires HoldsAs(x, next.contexts[x]) && core.requested == Persists(next.trail)
      modifies this`model
      ensures Valid() && model == next
    {
      model := next;
      forall y | 0 <= y < nextToken ensures Holds(y) {
        assert y != x ==> old(Holds(y));
      }
    }

    /** Writing to the objects of context `x` leaves every other context as it was. */
    twostate lemma OthersHold(x: nat)
      requires old(Valid()) && x < nextToken && unchanged(this)
      requires forall o <- repr :: o == profiles[x] || o == stores[x].profiler || unchanged(o)
      ensures forall y | 0 <= y < nextToken && y != x :: Holds(y)
    {
      forall y | 0 <= y < nextToken && y != x ensures Holds(y) {
        assert old(Holds(y)) && old(Holds(x));
      }
    }

    /** The handler returned or threw, inside the wrapper's `try`. */
    method End(store: Store, ghost x: nat, called: Called) returns (answer: Option<Outcome>)
      requires Valid() && x < |stores| && stores[x] == store && model.contexts[x].phase.Running?
      requires store.profiler != null
      modifies this`model, core, store.profiler.profile
      ensures Valid() && model == OnEnd(old(model), x, called) && stores == old(stores)
      ensures answer == if called.Ended? then Some(called.outcome) else None
    {
      assert Holds(x);
      match called
      case Thenable =>
        answer := None;
        PersistsAfter(model.trail, ReturnPromise(x));
        Advance(x, OnEnd(model, x, called));
      case Ended(o) =>
        Finalize(store.profiler.profile, if o.Failure? then Some(o.error) else None);
        core.Persist(store.profiler.profile);
        OthersHold(x);
        answer := Some(o);
        PersistsAfterAnswer(model.trail, FinalizeAction(x, o), Spec.Persist(x), Return(x, o));
        Advance(x, OnEnd(model, x, called));
    }

    /** The promise the handler handed back settled: `finalize`, then the request to persist. */
    method Resolve(store: Store, ghost x: nat, o: Outcome)
      requires Valid() && x < |stores| && stores[x] == store && model.contexts[x].phase.Awaiting?
      requires store.profiler != null
      modifies this`model, core, store.profiler.profile
      ensures Valid() && model == OnResolve(old(model), x, o) && stores == old(stores)
    {
      assert Holds(x);
      Finalize(store.profiler.profile, if o.Failure? then Some(o.error) else None);
      core.Persist(store.profiler.profile);
      OthersHold(x);
      PersistsAfterEnding(model.trail, FinalizeAction(x, o), Spec.Persist(x));
      Advance(x, OnResolve(model, x, o));
    }

    /** Storing ended: a failure is only logged, and the handler's own outcome settles the promise. */
    method Persisted(store: Store, ghost x: nat, o: Outcome, stored: bool) returns (answer: Outcome, warned: bool)
      requires Valid() && x < |stores| && stores[x] == store && model.contexts[x].phase == Storing(o)
      modifies this`model
      ensures Valid() && model == OnPersisted(old(model), x, stored) && stores == old(stores) && answer == o && warned == !stored
    {
      assert Holds(x);
      answer, warned := o, !stored;
      PersistsAfterStoring(model.trail, x, o, stored);
      Advance(x, OnPersisted(model, x, stored));
    }

    /** Code running in a store records into the profile that store leads to. */
    method Record(store: Store, ghost x: nat, entry: string)
      requires Valid() && x < |stores| && stores[x] == store && store.profiler != null
      modifies this`model, store.profiler.profile
      ensures Valid() && model == OnRecord(old(model), x, entry) && stores == old(stores)
    {
      assert Holds(x);
      var profile := store.profiler.profile;
      profile.entries := profile.entries + [entry];
      OthersHold(x);
      Advance(x, OnRecord(model, x, entry));
    }

    /** `cls.set` under the profiler's key writes into the branch of the active store. */
    method SetKey(store: Store, ghost x: nat, key: string, value: string)
      requires Valid() && x < |stores| && stores[x] == store && store.profiler != null
      requires Possible(model, Spec.SetKey(x, key, value))
      modifies this`model, store.profiler
      ensures Valid() && model == OnSetKey(old(model), x, key, value) && stores == old(stores)
    {
      assert Holds(x);
      store.profiler.others := store.profiler.others[key := value];
      OthersHold(x);
      Advance(x, OnSetKey(model, x, key, value));
    }
  }
}
