/**
 * How several instances of a service patch and restore the same methods: the protocol shared by
 * `EventEmitterPatch` (event-emitter.patch.ts) and `EventProfilerService.wrapListener`
 * (event-profiler.service.ts). A method already wrapped is left alone; a service that goes away puts
 * back, in the order it patched, what it found.
 */
module Patching {
  type Id = int

  /** What a method slot holds: the original, or a wrapper around what was there. */
  datatype Fn<I> = Original | Wrapper(owner: Id, info: I, previous: Fn<I>)

  datatype Restorer<K, I> = Restorer(slot: K, previous: Fn<I>)

  /** The methods that exist, and what each service would restore. */
  datatype State<K, I> = State(slots: map<K, Fn<I>>, restorers: map<Id, seq<Restorer<K, I>>>)

  datatype Target<K, I> = Target(slot: K, info: I)

  datatype Event<K, I> = Install(id: Id, targets: seq<Target<K, I>>) | Uninstall(id: Id)

  function RestorersOf<K, I>(s: State<K, I>, id: Id): seq<Restorer<K, I>> {
    if id in s.restorers then s.restorers[id] else []
  }

  /** Wraps one method, unless there is none or it is wrapped already. */
  function Patch<K, I>(s: State<K, I>, id: Id, target: Target<K, I>): State<K, I> {
    if target.slot !in s.slots || s.slots[target.slot].Wrapper? then s else
    var previous := s.slots[target.slot];
    State(s.slots[target.slot := Wrapper(id, target.info, previous)],
          s.restorers[id := RestorersOf(s, id) + [Restorer(target.slot, previous)]])
  }

  function PatchAll<K, I>(s: State<K, I>, id: Id, targets: seq<Target<K, I>>): State<K, I>
    decreases targets
  {
    if targets == [] then s else PatchAll(Patch(s, id, targets[0]), id, targets[1..])
  }

  function RestoreAll<K, I>(slots: map<K, Fn<I>>, restorers: seq<Restorer<K, I>>): map<K, Fn<I>>
    decreases restorers
  {
    if restorers == [] then slots
    else RestoreAll(slots[restorers[0].slot := restorers[0].previous], restorers[1..])
  }

  function Restore<K, I>(s: State<K, I>, id: Id): State<K, I> {
    State(RestoreAll(s.slots, RestorersOf(s, id)), s.restorers[id := []])
  }

  function Step<K, I>(s: State<K, I>, e: Event<K, I>): State<K, I> {
    match e
    case Install(id, targets) => PatchAll(s, id, targets)
    case Uninstall(id) => Restore(s, id)
  }

  function Init<K, I>(methods: set<K>): State<K, I> {
    State(map k | k in methods :: Original, map[])
  }

  function Run<K, I>(methods: set<K>, es: seq<Event<K, I>>): State<K, I> {
    if es == [] then Init(methods) else Step(Run(methods, es[..|es| - 1]), es[|es| - 1])
  }

  // ---- The simple account: a method is free, or held by one service ----

  datatype Hold<I> = Hold(owner: Id, info: I)

  function Take<K, I>(methods: set<K>, held: map<K, Hold<I>>, id: Id, targets: seq<Target<K, I>>): map<K, Hold<I>>
    decreases targets
  {
    if targets == [] then held else
    var slot := targets[0].slot;
    Take(methods, if slot in methods && slot !in held then held[slot := Hold(id, targets[0].info)] else held, id, targets[1..])
  }

  /** First come, first served; a service that goes away frees what it holds. */
  function Held<K, I>(methods: set<K>, es: seq<Event<K, I>>): map<K, Hold<I>> {
    if es == [] then map[] else
    var held := Held(methods, es[..|es| - 1]);
    match es[|es| - 1]
    case Install(id, targets) => Take(methods, held, id, targets)
    case Uninstall(id) => Freed(held, id)
  }

  function Freed<K, I>(held: map<K, Hold<I>>, id: Id): map<K, Hold<I>> {
    map slot | slot in held && held[slot].owner != id :: held[slot]
  }

  /** The slots are what the holds say: the original when free, exactly one wrapper around it when held. */
  ghost predicate Realises<K, I>(s: State<K, I>, methods: set<K>, held: map<K, Hold<I>>) {
    && s.slots.Keys == methods
    && (forall k <- held :: k in methods)
    && (forall k <- methods :: s.slots[k] == FnOf(k, held))
  }

  function FnOf<K, I>(k: K, held: map<K, Hold<I>>): Fn<I> {
    if k in held then Wrapper(held[k].owner, held[k].info, Original) else Original
  }

  /** Each service would restore, to the original and once each, exactly the methods it holds. */
  ghost predicate Restorable<K, I>(s: State<K, I>, held: map<K, Hold<I>>) {
    forall id :: IsRestorable(RestorersOf(s, id), held, id)
  }

  ghost predicate IsRestorable<K, I>(restorers: seq<Restorer<K, I>>, held: map<K, Hold<I>>, id: Id) {
    && (forall r <- restorers :: r.previous == Original && r.slot in held && held[r.slot].owner == id)
    && (forall i, j | 0 <= i < j < |restorers| :: restorers[i].slot != restorers[j].slot)
    && (forall k <- held :: held[k].owner == id ==> Restorer(k, Original) in restorers)
  }

  lemma {:induction false} PatchAllTakes<K, I>(s: State<K, I>, methods: set<K>, held: map<K, Hold<I>>, id: Id, targets: seq<Target<K, I>>)
    requires Realises(s, methods, held) && Restorable(s, held)
    ensures Realises(PatchAll(s, id, targets), methods, Take(methods, held, id, targets))
    ensures Restorable(PatchAll(s, id, targets), Take(methods, held, id, targets))
    decreases targets
  {
    if targets != [] {
      PatchTakes(s, methods, held, id, targets[0]);
      var slot := targets[0].slot;
      var held' := if slot in methods && slot !in held then held[slot := Hold(id, targets[0].info)] else held;
      PatchAllTakes(Patch(s, id, targets[0]), methods, held', id, targets[1..]);
    }
  }

  lemma PatchTakes<K, I>(s: State<K, I>, methods: set<K>, held: map<K, Hold<I>>, id: Id, target: Target<K, I>)
    requires Realises(s, methods, held) && Restorable(s, held)
    ensures var free := target.slot in methods && target.slot !in held;
            var held' := if free then held[target.slot := Hold(id, target.info)] else held;
            Realises(Patch(s, id, target), methods, held') && Restorable(Patch(s, id, target), held')
  {
    var slot := target.slot;
    if slot in methods && slot !in held {
      var s', held' := Patch(s, id, target), held[slot := Hold(id, target.info)];
      assert s.slots[slot] == FnOf(slot, held);
      forall other ensures IsRestorable(RestorersOf(s', other), held', other) {
        assert IsRestorable(RestorersOf(s, other), held, other);
      }
    }
  }

  lemma {:induction false} RestoreAllAt<K, I>(slots: map<K, Fn<I>>, restorers: seq<Restorer<K, I>>, k: K)
    requires forall r <- restorers :: r.previous == Original && r.slot in slots
    ensures k in slots ==> (k in RestoreAll(slots, restorers)
              && RestoreAll(slots, restorers)[k] == if Restorer(k, Original) in restorers then Original else slots[k])
    decreases restorers
  {
    if restorers != [] {
      RestoreAllAt(slots[restorers[0].slot := restorers[0].previous], restorers[1..], k);
      assert restorers == [restorers[0]] + restorers[1..];
    }
  }

  lemma {:induction false} RestoreAllKeys<K, I>(slots: map<K, Fn<I>>, restorers: seq<Restorer<K, I>>)
    requires forall r <- restorers :: r.slot in slots
    ensures RestoreAll(slots, restorers).Keys == slots.Keys
    decreases restorers
  {
    if restorers != [] {
      RestoreAllKeys(slots[restorers[0].slot := restorers[0].previous], restorers[1..]);
    }
  }

  lemma RestoreFrees<K, I>(s: State<K, I>, methods: set<K>, held: map<K, Hold<I>>, id: Id)
    requires Realises(s, methods, held) && Restorable(s, held)
    ensures var held' := Freed(held, id);
            Realises(Restore(s, id), methods, held') && Restorable(Restore(s, id), held')
  {
    var s', held' := Restore(s, id), Freed(held, id);
    var restorers := RestorersOf(s, id);
    assert IsRestorable(restorers, held, id);
    forall k <- methods ensures k in s'.slots && s'.slots[k] == FnOf(k, held') {
      RestoreAllAt(s.slots, restorers, k);
      assert s.slots[k] == FnOf(k, held);
    }
    RestoreAllKeys(s.slots, restorers);
    forall other ensures IsRestorable(RestorersOf(s', other), held', other) {
      assert IsRestorable(RestorersOf(s, other), held, other);
    }
  }

  /**
   * For every sequence of installations and removals by any number of services: a method is its
   * original, or exactly one wrapper around it, that of the first service to have come while it was
   * free and not gone since.
   */
  lemma {:induction false} RunsRealiseHolds<K, I>(methods: set<K>, es: seq<Event<K, I>>)
    ensures Realises(Run(methods, es), methods, Held(methods, es))
    ensures Restorable(Run(methods, es), Held(methods, es))
  {
    if es != [] {
      var before := es[..|es| - 1];
      RunsRealiseHolds(methods, before);
      match es[|es| - 1]
      case Install(id, targets) => PatchAllTakes(Run(methods, before), methods, Held(methods, before), id, targets);
      case Uninstall(id) => RestoreFrees(Run(methods, before), methods, Held(methods, before), id);
    }
  }

  /** Once the service whose wrapper a method carries is gone, the method is the original again; others keep theirs. */
  lemma GoneMeansRestored<K, I>(methods: set<K>, es: seq<Event<K, I>>, id: Id, k: K)
    requires k in methods
    ensures var before, after := Run(methods, es).slots, Run(methods, es + [Uninstall(id)]).slots;
            k in before && k in after
            && after[k] == if before[k].Wrapper? && before[k].owner == id then Original else before[k]
  {
    assert (es + [Uninstall(id)])[..|es|] == es;
    RunsRealiseHolds(methods, es);
    RunsRealiseHolds(methods, es + [Uninstall(id)]);
    assert Run(methods, es).slots[k] == FnOf(k, Held(methods, es));
    assert Run(methods, es + [Uninstall(id)]).slots[k] == FnOf(k, Held(methods, es + [Uninstall(id)]));
  }

  /** Holding is not handed over: a service that came second has nothing patched once the first is gone. */
  lemma SecondComerStaysOut<K, I>(methods: set<K>, targets: seq<Target<K, I>>)
    ensures var es := [Install(0, targets), Install(1, targets), Uninstall(0)];
            Realises(Run(methods, es), methods, map[])
  {
    var one := [Install(0, targets)];
    var two := one + [Install(1, targets)];
    var es := [Install(0, targets), Install(1, targets), Uninstall(0)];
    assert one[..0] == [] && two[..1] == one && es[..2] == two;
    var none: map<K, Hold<I>> := map[];
    TakenOnce(methods, none, 0, targets);
    var held := Take(methods, none, 0, targets);
    assert forall k <- held :: held[k].owner == 0;
    assert Held(methods, one) == held;
    TakenTwice(methods, held, 1, targets);
    assert Held(methods, two) == held;
    assert es[..|es| - 1] == two && es[|es| - 1] == Uninstall(0);
    AllFreed(held, 0);
    assert Held(methods, es) == Freed(held, 0);
    RunsRealiseHolds(methods, es);
  }

  lemma AllFreed<K, I>(held: map<K, Hold<I>>, id: Id)
    requires forall k <- held :: held[k].owner == id
    ensures Freed(held, id) == map[]
  {
  }

  lemma {:induction false} TakenOnce<K, I>(methods: set<K>, held: map<K, Hold<I>>, id: Id, targets: seq<Target<K, I>>)
    requires forall k <- held :: held[k].owner == id
    ensures var held' := Take(methods, held, id, targets);
            && (forall k <- held' :: held'[k].owner == id)
            && (forall k <- held :: k in held')
            && (forall t <- targets :: t.slot in methods ==> t.slot in held')
    decreases targets
  {
    if targets != [] {
      var slot := targets[0].slot;
      var held' := if slot in methods && slot !in held then held[slot := Hold(id, targets[0].info)] else held;
      TakenOnce(methods, held', id, targets[1..]);
      assert targets == [targets[0]] + targets[1..];
    }
  }

  lemma {:induction false} TakenTwice<K, I>(methods: set<K>, held: map<K, Hold<I>>, id: Id, targets: seq<Target<K, I>>)
    requires forall t <- targets :: t.slot in methods ==> t.slot in held
    ensures Take(methods, held, id, targets) == held
    decreases targets
  {
    if targets != [] {
      assert targets[0] in targets;
      TakenTwice(methods, held, id, targets[1..]);
    }
  }

  /** Of targets naming each method once, all those free are taken, each as asked. */
  lemma {:induction false} TakesAll<K, I>(methods: set<K>, held: map<K, Hold<I>>, id: Id, targets: seq<Target<K, I>>, k: K)
    requires forall i, j | 0 <= i < j < |targets| :: targets[i].slot != targets[j].slot
    requires k in methods && k !in held
    ensures var held' := Take(methods, held, id, targets);
            && (forall i | 0 <= i < |targets| && targets[i].slot == k :: k in held' && held'[k] == Hold(id, targets[i].info))
            && ((forall t <- targets :: t.slot != k) ==> k !in held')
    decreases targets
  {
    if targets != [] {
      var slot := targets[0].slot;
      var held' := if slot in methods && slot !in held then held[slot := Hold(id, targets[0].info)] else held;
      if slot == k {
        KeepsHolds(methods, held', id, targets[1..], k);
      } else {
        TakesAll(methods, held', id, targets[1..], k);
        assert targets == [targets[0]] + targets[1..];
      }
    }
  }

  lemma {:induction false} KeepsHolds<K, I>(methods: set<K>, held: map<K, Hold<I>>, id: Id, targets: seq<Target<K, I>>, k: K)
    requires k in held
    ensures k in Take(methods, held, id, targets) && Take(methods, held, id, targets)[k] == held[k]
    decreases targets
  {
    if targets != [] {
      var slot := targets[0].slot;
      var held' := if slot in methods && slot !in held then held[slot := Hold(id, targets[0].info)] else held;
      KeepsHolds(methods, held', id, targets[1..], k);
    }
  }
}
