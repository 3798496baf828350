/**
 * `EventEmitterPatch` (event-emitter.patch.ts): the two methods of an emitter, replaced and put back
 * by any number of patch instances, and the entry each emission leaves in the profile it was made in.
 */
module EmitterPatch {
  import opened Options
  import Patching

  datatype Slot = Emit | EmitAsync

  /** A rule of `ignoreEvents`: a name, or a regular expression, here the names it accepts. */
  datatype Rule = Name(name: string) | Expression(accepts: string -> bool)

  type Rules = seq<Rule>

  const INTERNAL_EVENTS := {"newListener", "removeListener"}

  predicate Matches(rule: Rule, name: string) {
    match rule
    case Name(n) => n == name
    case Expression(accepts) => accepts(name)
  }

  /** `shouldIgnore`. */
  predicate ShouldIgnore(rules: Rules, name: string) {
    name in INTERNAL_EVENTS || exists i :: 0 <= i < |rules| && Matches(rules[i], name)
  }

  /** An event of the emitter's own is ignored, and one a rule names or accepts; no other. */
  lemma IgnoredIff(rules: Rules, name: string)
    ensures ShouldIgnore(rules, name)
            <==> (name == "newListener" || name == "removeListener"
                  || exists rule <- rules :: if rule.Name? then rule.name == name else rule.accepts(name))
  {
    if i :| 0 <= i < |rules| && Matches(rules[i], name) { assert rules[i] in rules; }
    if rule :| rule in rules && Matches(rule, name) { var i :| 0 <= i < |rules| && rules[i] == rule; }
  }

  /**
   * A regular expression of the host's: `find` gives the end of its first match at or after a
   * position. With the flag `g` or `y`, `test` starts from where the last call left off.
   */
  class RegExp {
    const find: (string, nat) -> Option<nat>
    const resumes: bool
    var lastIndex: nat

    constructor (find: (string, nat) -> Option<nat>, resumes: bool)
      ensures this.find == find && this.resumes == resumes
    {
      this.find, this.resumes, lastIndex := find, resumes, 0;
    }

    method Test(s: string) returns (found: bool)
      modifies this
      ensures found == (!(resumes && old(lastIndex) > |s|) && find(s, if resumes then old(lastIndex) else 0).Some?)
    {
      if resumes && lastIndex > |s| {
        lastIndex := 0;
        return false;
      }
      var end := find(s, if resumes then lastIndex else 0);
      if resumes { lastIndex := end.GetOr(0); }
      found := end.Some?;
    }
  }

  datatype IgnoreRule = Literal(name: string) | Pattern(regexp: RegExp) {
    /** The rule, whatever was tested before. */
    function Rule(): Rule {
      match this
      case Literal(n) => Name(n)
      case Pattern(re) => Expression(name => re.find(name, 0).Some?)
    }
  }

  ghost predicate Accepts(rule: IgnoreRule, name: string) {
    match rule
    case Literal(n) => name == n
    case Pattern(re) => re.find(name, 0).Some?
  }

  /** `shouldIgnore`: a shared expression is rewound first, so its answer never depends on earlier events. */
  method TestIgnored(rules: seq<IgnoreRule>, name: string) returns (ignored: bool)
    modifies set r <- rules | r.Pattern? :: r.regexp
    ensures ignored == ShouldIgnore(seq(|rules|, i requires 0 <= i < |rules| => rules[i].Rule()), name)
    ensures ignored <==> name == "newListener" || name == "removeListener" || exists i :: 0 <= i < |rules| && Accepts(rules[i], name)
  {
    if name in INTERNAL_EVENTS { return true; }
    ghost var pure := seq(|rules|, i requires 0 <= i < |rules| => rules[i].Rule());
    for i := 0 to |rules|
      invariant forall j | 0 <= j < i :: !Matches(pure[j], name) && !Accepts(rules[j], name)
    {
      match rules[i] {
        case Literal(n) => ignored := n == name;
        case Pattern(re) =>
          assert rules[i] in rules;
          re.lastIndex := 0;
          ignored := re.Test(name);
      }
      assert ignored == Matches(pure[i], name) == Accepts(rules[i], name);
      if ignored { return true; }
    }
    ignored := false;
  }

  // ---- Patching and restoring, on the emitter itself ----

  class Emitter {
    var emit: Patching.Fn<Rules>
    var emitAsync: Patching.Fn<Rules>

    constructor ()
      ensures emit == Patching.Original && emitAsync == Patching.Original
    {
      emit, emitAsync := Patching.Original, Patching.Original;
    }

    function Slots(): map<Slot, Patching.Fn<Rules>>
      reads this
    {
      map[Emit := emit, EmitAsync := emitAsync]
    }
  }

  class EventEmitterPatch {
    const id: Patching.Id
    const ignoreEvents: Rules
    var restorers: seq<Patching.Restorer<Slot, Rules>>
    var emitter: Emitter?

    constructor (id: Patching.Id, ignoreEvents: Rules)
      ensures this.id == id && this.ignoreEvents == ignoreEvents && restorers == [] && emitter == null
    {
      this.id, this.ignoreEvents := id, ignoreEvents;
      restorers, emitter := [], null;
    }

    /** The emitter, and what this instance would restore on it. */
    ghost function View(target: Emitter): Patching.State<Slot, Rules>
      reads this, target
    {
      Patching.State(target.Slots(), map[id := restorers])
    }

    ghost function Targets(): seq<Patching.Target<Slot, Rules>> {
      [Patching.Target(Emit, ignoreEvents), Patching.Target(EmitAsync, ignoreEvents)]
    }

    method PatchEmit(target: Emitter)
      modifies this`restorers, target`emit
      ensures View(target) == Patching.Patch(old(View(target)), id, Patching.Target(Emit, ignoreEvents))
    {
      if target.emit.Wrapper? { return; }
      var previous := target.emit;
      target.emit := Patching.Wrapper(id, ignoreEvents, previous);
      restorers := restorers + [Patching.Restorer(Emit, previous)];
    }

    method PatchEmitAsync(target: Emitter)
      modifies this`restorers, target`emitAsync
      ensures View(target) == Patching.Patch(old(View(target)), id, Patching.Target(EmitAsync, ignoreEvents))
    {
      if target.emitAsync.Wrapper? { return; }
      var previous := target.emitAsync;
      target.emitAsync := Patching.Wrapper(id, ignoreEvents, previous);
      restorers := restorers + [Patching.Restorer(EmitAsync, previous)];
    }

    /** Without a CLS service, or without an emitter to patch, nothing is. */
    method OnModuleInit(hasCls: bool, resolved: Emitter?)
      modifies this, resolved
      ensures resolved != null ==>
                View(resolved) == if hasCls then Patching.Step(old(View(resolved)), Patching.Install(id, Targets())) else old(View(resolved))
      ensures emitter == if hasCls && resolved != null then resolved else old(emitter)
      ensures resolved == null ==> restorers == old(restorers)
    {
      if !hasCls || resolved == null { return; }
      emitter := resolved;
      ghost var before := View(resolved);
      PatchEmit(resolved);
      PatchEmitAsync(resolved);
      assert Patching.PatchAll(before, id, Targets()) == View(resolved) by {
        var first, second := Patching.Target(Emit, ignoreEvents), Patching.Target(EmitAsync, ignoreEvents);
        assert Targets()[1..] == [second] && [second][1..] == [];
        assert Patching.PatchAll(Patching.Patch(before, id, first), id, [second]) == Patching.Patch(Patching.Patch(before, id, first), id, second);
      }
    }

    /** `target` is the emitter the restorers were made for. */
    method OnModuleDestroy(target: Emitter)
      modifies this, target
      ensures View(target) == Patching.Step(old(View(target)), Patching.Uninstall(id)) && emitter == null
    {
      var i := 0;
      ghost var slots := target.Slots();
      assert restorers[0..] == restorers;
      while i < |restorers|
        invariant 0 <= i <= |restorers| && restorers == old(restorers)
        invariant Patching.RestoreAll(target.Slots(), restorers[i..]) == Patching.RestoreAll(slots, restorers)
      {
        assert restorers[i..][1..] == restorers[i + 1..];
        var r := restorers[i];
        ghost var before := target.Slots();
        match r.slot {
          case Emit => target.emit := r.previous;
          case EmitAsync => target.emitAsync := r.previous;
        }
        assert target.Slots() == before[r.slot := r.previous];
        i := i + 1;
      }
      assert restorers[i..] == [];
      restorers, emitter := [], null;
    }
  }

  // ---- Emissions ----

  datatype Entry = Entry(event: string, async: bool, error: Option<string>)

  /**
   * An emission under way: the function the emitter held when it was made, and the profile active
   * then. `P` is the type of a profile.
   */
  datatype Emission<P> = Emission(fn: Patching.Fn<Rules>, slot: Slot, name: string, profile: Option<P>, over: bool)

  datatype Recorded<P> = Recorded(emission: nat, profile: P, entry: Entry)

  datatype State<P> = State(patching: Patching.State<Slot, Rules>, emissions: seq<Emission<P>>, log: seq<Recorded<P>>)

  /**
   * How the call underneath ends: it returns, and if it is asynchronous its promise resolves or
   * rejects; or it throws before it returned anything.
   */
  datatype Ending = Done | Rejected(error: string) | ThrewAtOnce(error: string) {
    function Error(): Option<string> {
      if Done? then None else Some(error)
    }
  }

  /** Only a promise rejects. */
  predicate CanEnd(slot: Slot, ending: Ending) {
    ending.Rejected? ==> slot.EmitAsync?
  }

  /** `emit` records in its `catch`; `emitAsync` calls outside any `try` and records once the promise settles. */
  predicate Records(slot: Slot, ending: Ending) {
    slot.Emit? || !ending.ThrewAtOnce?
  }

  /** Emissions nest and overlap freely, and services come and go while they are under way. */
  datatype Event<P> =
    | Changed(change: Patching.Event<Slot, Rules>)
    | Emitted(slot: Slot, name: string, profile: Option<P>)
    | Over(emission: nat, ending: Ending)

  const METHODS := {Emit, EmitAsync}

  function Init<P>(): State<P> {
    State(Patching.Init(METHODS), [], [])
  }

  /** What the layers of wrappers record when the call they wrap is over, innermost first. */
  function RecordsOf<P>(fn: Patching.Fn<Rules>, i: nat, e: Emission<P>, ending: Ending): seq<Recorded<P>> {
    match fn
    case Original => []
    case Wrapper(_, rules, previous) =>
      RecordsOf(previous, i, e, ending)
      + if e.profile.None? || ShouldIgnore(rules, e.name) || !Records(e.slot, ending) then []
        else [Recorded(i, e.profile.value, Entry(e.name, e.slot.EmitAsync?, ending.Error()))]
  }

  function Step<P>(s: State<P>, e: Event<P>): State<P> {
    match e
    case Changed(change) => s.(patching := Patching.Step(s.patching, change))
    case Emitted(slot, name, profile) =>
      if slot !in s.patching.slots then s
      else s.(emissions := s.emissions + [Emission(s.patching.slots[slot], slot, name, profile, false)])
    case Over(i, ending) =>
      if i >= |s.emissions| || s.emissions[i].over || !CanEnd(s.emissions[i].slot, ending) then s else
      var emission := s.emissions[i];
      s.(emissions := s.emissions[i := emission.(over := true)],
         log := s.log + RecordsOf(emission.fn, i, emission, ending))
  }

  function Run<P>(es: seq<Event<P>>): State<P> {
    if es == [] then Init() else Step(Run(es[..|es| - 1]), es[|es| - 1])
  }

  /** The installations and removals of a run. */
  function ChangesOf<P>(es: seq<Event<P>>): seq<Patching.Event<Slot, Rules>> {
    if es == [] then [] else
    var last := es[|es| - 1];
    if last.Changed? then ChangesOf(es[..|es| - 1]) + [last.change] else ChangesOf(es[..|es| - 1])
  }

  lemma {:induction false} RunPatches<P>(es: seq<Event<P>>)
    ensures Run(es).patching == Patching.Run(METHODS, ChangesOf(es))
  {
    if es != [] {
      RunPatches(es[..|es| - 1]);
      var changes := ChangesOf(es[..|es| - 1]);
      if es[|es| - 1].Changed? {
        assert (changes + [es[|es| - 1].change])[..|changes|] == changes;
      }
    }
  }

  function LoggedFor<P>(log: seq<Recorded<P>>, i: nat): seq<Recorded<P>> {
    if log == [] then [] else
    var last := log[|log| - 1];
    LoggedFor(log[..|log| - 1], i) + if last.emission == i then [last] else []
  }

  lemma {:induction false} LoggedForConcat<P>(a: seq<Recorded<P>>, b: seq<Recorded<P>>, i: nat)
    ensures LoggedFor(a + b, i) == LoggedFor(a, i) + LoggedFor(b, i)
  {
    if b == [] {
      assert a + b == a;
    } else {
      var n := |b| - 1;
      assert (a + b)[..|a| + n] == a + b[..n];
      LoggedForConcat(a, b[..n], i);
    }
  }

  /** At most one wrapper, as `Patching` proves of every slot. */
  predicate Shallow(fn: Patching.Fn<Rules>) {
    fn.Wrapper? ==> fn.previous == Patching.Original
  }

  /** Whether an emission is observed: made through a wrapper, in a profiled context and not ignored. */
  predicate IsObserved<P>(e: Emission<P>) {
    e.fn.Wrapper? && e.profile.Some? && !ShouldIgnore(e.fn.info, e.name)
  }

  /** The one entry an emission leaves, if it leaves any. */
  function Leaves<P>(e: Emission<P>, i: nat, ending: Ending): seq<Recorded<P>> {
    if IsObserved(e) && Records(e.slot, ending)
    then [Recorded(i, e.profile.value, Entry(e.name, e.slot.EmitAsync?, ending.Error()))] else []
  }

  /** How an emission ended, the first time it did. */
  function EndingOf<P>(es: seq<Event<P>>, i: nat): Option<Ending> {
    if es == [] then None else
    var before, last := es[..|es| - 1], es[|es| - 1];
    if EndingOf(before, i).None? && Ends(Run(before), last, i) then Some(last.ending) else EndingOf(before, i)
  }

  predicate Ends<P>(s: State<P>, e: Event<P>, i: nat) {
    e.Over? && e.emission == i && i < |s.emissions| && CanEnd(s.emissions[i].slot, e.ending)
  }

  ghost predicate Accounted<P>(s: State<P>, i: nat, ending: Option<Ending>)
    requires i < |s.emissions|
  {
    var e := s.emissions[i];
    && Shallow(e.fn) && (e.over <==> ending.Some?)
    && LoggedFor(s.log, i) == if ending.Some? then Leaves(e, i, ending.value) else []
  }

  ghost predicate LogIsKnown<P>(s: State<P>) {
    forall r <- s.log :: r.emission < |s.emissions|
  }

  /**
   * Over any run, an emission has left an entry exactly when it is over, was observed, and was not an
   * `emitAsync` whose call threw at once; it is then the only one, in the profile the emission was
   * made in, with its own name and error.
   */
  lemma EmissionRecordsOnce<P>(es: seq<Event<P>>, i: nat)
    requires i < |Run(es).emissions|
    ensures var e, ending, logged := Run(es).emissions[i], EndingOf(es, i), LoggedFor(Run(es).log, i);
            && (logged != [] <==>
                  && ending.Some? && e.fn.Wrapper? && e.profile.Some? && !ShouldIgnore(e.fn.info, e.name)
                  && !(e.slot.EmitAsync? && ending.value.ThrewAtOnce?))
            && (logged != [] ==>
                  logged == [Recorded(i, e.profile.value, Entry(e.name, e.slot.EmitAsync?,
                                      match ending.value case Done => None case Rejected(error) => Some(error) case ThrewAtOnce(error) => Some(error)))])
            && (e.over <==> ending.Some?)
  {
    EmissionsAreAccounted(es, i);
  }

  /** An emission runs through what the emitter holds as it is made, for the profile active then. */
  lemma EmissionsAreMade<P>(es: seq<Event<P>>, slot: Slot, name: string, profile: Option<P>)
    ensures var s, s' := Run(es), Run(es + [Emitted(slot, name, profile)]);
            && slot in s.patching.slots && s'.patching == s.patching && s'.log == s.log
            && s'.emissions == s.emissions + [Emission(s.patching.slots[slot], slot, name, profile, false)]
  {
    SlotsAreShallow(es, slot);
    assert (es + [Emitted(slot, name, profile)])[..|es|] == es;
  }

  lemma {:induction false} EmissionsAreAccounted<P>(es: seq<Event<P>>, i: nat)
    requires i < |Run(es).emissions|
    ensures LogIsKnown(Run(es)) && Accounted(Run(es), i, EndingOf(es, i))
  {
    var before, e := es[..|es| - 1], es[|es| - 1];
    var s := Run(before);
    RunKnowsLog(before);
    RunKnowsLog(es);
    if i < |s.emissions| {
      EmissionsAreAccounted(before, i);
      StepAccounts(s, e, i, EndingOf(before, i));
    } else {
      SlotsAreShallow(before, e.slot);
      NothingLoggedYet(s.log, i);
      NotOverYet(before, i);
    }
  }

  lemma {:induction false} NotOverYet<P>(es: seq<Event<P>>, i: nat)
    requires i >= |Run(es).emissions|
    ensures EndingOf(es, i) == None
  {
    if es != [] {
      NotOverYet(es[..|es| - 1], i);
    }
  }

  lemma StepAccounts<P>(s: State<P>, e: Event<P>, i: nat, ending: Option<Ending>)
    requires i < |s.emissions| && Accounted(s, i, ending)
    ensures i < |Step(s, e).emissions|
    ensures Accounted(Step(s, e), i, if ending.None? && Ends(s, e, i) then Some(e.ending) else ending)
  {
    hide RecordsOf, LoggedFor, ShouldIgnore;
    ShallowLeavesOne(s.emissions[i], i, if e.Over? then e.ending else Done);
    if e.Over? && Ends(s, e, e.emission) && !s.emissions[e.emission].over {
      var other := s.emissions[e.emission];
      LoggedForConcat(s.log, RecordsOf(other.fn, e.emission, other, e.ending), i);
      RecordsNameTheirEmission(other.fn, e.emission, other, e.ending, i);
    }
  }

  lemma ShallowLeavesOne<P>(e: Emission<P>, i: nat, ending: Ending)
    requires Shallow(e.fn)
    ensures RecordsOf(e.fn, i, e, ending) == Leaves(e, i, ending)
  {
  }

  lemma {:induction false} RecordsNameTheirEmission<P>(fn: Patching.Fn<Rules>, j: nat, e: Emission<P>, ending: Ending, i: nat)
    ensures LoggedFor(RecordsOf(fn, j, e, ending), i) == if i == j then RecordsOf(fn, j, e, ending) else []
    decreases fn
  {
    if fn.Wrapper? {
      RecordsNameTheirEmission(fn.previous, j, e, ending, i);
      var last := if e.profile.None? || ShouldIgnore(fn.info, e.name) || !Records(e.slot, ending) then []
                  else [Recorded(j, e.profile.value, Entry(e.name, e.slot.EmitAsync?, ending.Error()))];
      LoggedForConcat(RecordsOf(fn.previous, j, e, ending), last, i);
    }
  }

  lemma {:induction false} NothingLoggedYet<P>(log: seq<Recorded<P>>, i: nat)
    requires forall r <- log :: r.emission < i
    ensures LoggedFor(log, i) == []
  {
    if log != [] {
      NothingLoggedYet(log[..|log| - 1], i);
    }
  }

  lemma {:induction false} RunKnowsLog<P>(es: seq<Event<P>>)
    ensures LogIsKnown(Run(es))
  {
    if es != [] {
      var s, e := Run(es[..|es| - 1]), es[|es| - 1];
      RunKnowsLog(es[..|es| - 1]);
      if e.Over? && e.emission < |s.emissions| {
        RecordsAreOf(s.emissions[e.emission].fn, e.emission, s.emissions[e.emission], e.ending);
      }
    }
  }

  lemma {:induction false} RecordsAreOf<P>(fn: Patching.Fn<Rules>, j: nat, e: Emission<P>, ending: Ending)
    ensures forall r <- RecordsOf(fn, j, e, ending) :: r.emission == j
    decreases fn
  {
    if fn.Wrapper? {
      RecordsAreOf(fn.previous, j, e, ending);
    }
  }

  lemma SlotsAreShallow<P>(es: seq<Event<P>>, slot: Slot)
    ensures slot in Run(es).patching.slots && Shallow(Run(es).patching.slots[slot])
  {
    RunPatches(es);
    Patching.RunsRealiseHolds(METHODS, ChangesOf(es));
    assert slot in METHODS;
  }
}
