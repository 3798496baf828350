/**
 * `observeSave` (mongoose-connection.patch.ts): while an existing document is saved, its own
 * `$__delta` is replaced by an observer, and put back once the save is over.
 *
 * Saves are named by their position in the order they began. `D` is the type of a document.
 */
module ObservedSaves {
  import opened Options

  type Delta = string

  /** What calling `$__delta` runs: mongoose's own, or one save's observer around what it found. */
  datatype Fn = Inherited | Own(text: string) | Observer(save: nat, inner: Fn)

  /** `found` is the document's own property when the save began, if it had one. */
  datatype Save<D> = Save(document: D, found: Option<Fn>, recorded: Option<Delta>, over: bool)

  datatype State<D> = State(own: map<D, Fn>, saves: seq<Save<D>>)

  datatype Event<D> =
    | Begin(document: D)
    | Compute(document: D, delta: Delta)
    | End(save: nat)

  function OwnOf<D>(s: State<D>, d: D): Option<Fn> {
    if d in s.own then Some(s.own[d]) else None
  }

  /** The method a property leads to: its own, or the one of the prototype. */
  function MethodOf(own: Option<Fn>): Fn {
    own.GetOr(Inherited)
  }

  function OnBegin<D>(s: State<D>, d: D): State<D> {
    State(s.own[d := Observer(|s.saves|, MethodOf(OwnOf(s, d)))], s.saves + [Save(d, OwnOf(s, d), None, false)])
  }

  /** Whether an observer is among the layers of a method. */
  predicate IsLayer(fn: Fn, save: nat) {
    fn.Observer? && (fn.save == save || IsLayer(fn.inner, save))
  }

  /** The document's delta is computed: every observer in the way sees it. */
  function OnCompute<D>(s: State<D>, d: D, delta: Delta): State<D> {
    var fn := MethodOf(OwnOf(s, d));
    s.(saves := seq(|s.saves|, i requires 0 <= i < |s.saves| =>
      if IsLayer(fn, i) then s.saves[i].(recorded := Some(delta)) else s.saves[i]))
  }

  /** The save is over: the property it found is defined again, or deleted. */
  function OnEnd<D>(s: State<D>, i: nat): State<D>
    requires i < |s.saves|
  {
    var save := s.saves[i];
    State(if save.found.Some? then s.own[save.document := save.found.value] else s.own - {save.document},
          s.saves[i := save.(over := true)])
  }

  function Step<D>(s: State<D>, e: Event<D>): State<D> {
    match e
    case Begin(d) => OnBegin(s, d)
    case Compute(d, delta) => OnCompute(s, d, delta)
    case End(i) => if i < |s.saves| && !s.saves[i].over then OnEnd(s, i) else s
  }

  function Run<D>(own: map<D, Fn>, es: seq<Event<D>>): State<D> {
    if es == [] then State(own, []) else Step(Run(own, es[..|es| - 1]), es[|es| - 1])
  }

  // ---- Nested saves ----

  /** The saves of a document under way, in the order they began. */
  function OpenOn<D(==)>(saves: seq<Save<D>>, d: D): seq<nat> {
    if saves == [] then [] else
    var n := |saves| - 1;
    if saves[n].document == d && !saves[n].over then OpenOn(saves[..n], d) + [n] else OpenOn(saves[..n], d)
  }

  /** Of the saves of one document, the last to have begun is the first to be over. */
  ghost predicate Nested<D>(own: map<D, Fn>, es: seq<Event<D>>) {
    es == [] ||
    (var before, e := es[..|es| - 1], es[|es| - 1];
     Nested(own, before) && (e.End? ==> EndsLast(Run(own, before), e.save)))
  }

  ghost predicate EndsLast<D>(s: State<D>, i: nat) {
    i < |s.saves| && !s.saves[i].over ==>
      (var open := OpenOn(s.saves, s.saves[i].document);
       open != [] && open[|open| - 1] == i)
  }

  /** One observer a save under way, around what the document had. */
  function Layered(own: Option<Fn>, open: seq<nat>): Option<Fn> {
    if open == [] then own
    else Some(Observer(open[|open| - 1], MethodOf(Layered(own, open[..|open| - 1]))))
  }

  /** Each save under way found what those before it had left. */
  ghost predicate Stacked<D>(s: State<D>, d: D, own: Option<Fn>, open: seq<nat>) {
    && OwnOf(s, d) == Layered(own, open)
    && forall k | 0 <= k < |open| :: open[k] < |s.saves| && s.saves[open[k]].document == d && s.saves[open[k]].found == Layered(own, open[..k])
  }

  lemma {:induction false} OpenOnAre<D>(saves: seq<Save<D>>, d: D)
    ensures forall i: nat :: i in OpenOn(saves, d) <==> i < |saves| && saves[i].document == d && !saves[i].over
    ensures forall j, k | 0 <= j < k < |OpenOn(saves, d)| :: OpenOn(saves, d)[j] < OpenOn(saves, d)[k]
  {
    if saves != [] {
      var n := |saves| - 1;
      OpenOnAre(saves[..n], d);
      var before := OpenOn(saves[..n], d);
      forall j | 0 <= j < |before| ensures before[j] < n {
        assert before[j] in before;
      }
    }
  }

  lemma {:induction false} OpenOnSame<D>(a: seq<Save<D>>, b: seq<Save<D>>, d: D)
    requires |a| == |b| && forall i | 0 <= i < |a| :: a[i].document == b[i].document && a[i].over == b[i].over
    ensures OpenOn(a, d) == OpenOn(b, d)
  {
    if a != [] {
      OpenOnSame(a[..|a| - 1], b[..|b| - 1], d);
    }
  }

  /** A save that is over leaves the others of its document under way. */
  lemma {:induction false} OpenOnWithout<D>(saves: seq<Save<D>>, i: nat, d: D)
    requires i < |saves| && !saves[i].over
    requires saves[i].document == d ==> OpenOn(saves, d) != [] && OpenOn(saves, d)[|OpenOn(saves, d)| - 1] == i
    ensures var open := OpenOn(saves, d);
            OpenOn(saves[i := saves[i].(over := true)], d) == if saves[i].document == d then open[..|open| - 1] else open
  {
    var n := |saves| - 1;
    var before, saves' := saves[..n], saves[i := saves[i].(over := true)];
    assert saves == before + [saves[n]] && saves' == saves'[..n] + [saves'[n]];
    OneMoreOpen(before, saves[n], d);
    OneMoreOpen(saves'[..n], saves'[n], d);
    hide OpenOn;
    if i < n {
      assert saves'[..n] == before[i := before[i].(over := true)];
      OpenOnAre(before, d);
      OpenOnWithout(before, i, d);
    } else {
      assert saves'[..n] == before;
    }
  }

  lemma OneMoreOpen<D>(saves: seq<Save<D>>, save: Save<D>, d: D)
    ensures OpenOn(saves + [save], d) == if save.document == d && !save.over then OpenOn(saves, d) + [|saves|] else OpenOn(saves, d)
  {
    assert (saves + [save])[..|saves|] == saves;
  }

  lemma OneMoreLayer(own: Option<Fn>, open: seq<nat>, i: nat)
    ensures Layered(own, open + [i]) == Some(Observer(i, MethodOf(Layered(own, open))))
  {
    assert (open + [i])[..|open|] == open;
  }

  lemma BeginStacks<D>(s: State<D>, d: D, e: D, own: Option<Fn>)
    requires Stacked(s, d, own, OpenOn(s.saves, d))
    ensures Stacked(OnBegin(s, e), d, own, OpenOn(OnBegin(s, e).saves, d))
  {
    hide OpenOn, Layered;
    var s', open := OnBegin(s, e), OpenOn(s.saves, d);
    OneMoreOpen(s.saves, s'.saves[|s.saves|], d);
    if e == d {
      var i: nat := |s.saves|;
      var open' := open + [i];
      OneMoreLayer(own, open, i);
      forall k | 0 <= k < |open'|
        ensures open'[k] < |s'.saves| && s'.saves[open'[k]].document == d && s'.saves[open'[k]].found == Layered(own, open'[..k])
      {
        assert open'[..k] == open[..k];
      }
    }
  }

  lemma ComputeStacks<D>(s: State<D>, d: D, e: D, delta: Delta, own: Option<Fn>)
    requires Stacked(s, d, own, OpenOn(s.saves, d))
    ensures Stacked(OnCompute(s, e, delta), d, own, OpenOn(OnCompute(s, e, delta).saves, d))
  {
    OpenOnSame(s.saves, OnCompute(s, e, delta).saves, d);
  }

  lemma EndStacks<D>(s: State<D>, d: D, i: nat, own: Option<Fn>)
    requires Stacked(s, d, own, OpenOn(s.saves, d)) && EndsLast(s, i) && i < |s.saves| && !s.saves[i].over
    ensures Stacked(OnEnd(s, i), d, own, OpenOn(OnEnd(s, i).saves, d))
  {
    hide OpenOn, Layered;
    var s', open := OnEnd(s, i), OpenOn(s.saves, d);
    OpenOnWithout(s.saves, i, d);
    if s.saves[i].document == d {
      var n := |open| - 1;
      var rest := open[..n];
      assert open[n] == i && OwnOf(s', d) == Layered(own, rest);
      OpenOnAre(s.saves, d);
      forall k | 0 <= k < n
        ensures rest[k] < |s'.saves| && s'.saves[rest[k]].document == d && s'.saves[rest[k]].found == Layered(own, rest[..k])
      {
        assert rest[..k] == open[..k] && rest[k] == open[k];
      }
    }
  }

  /**
   * While the saves of each document are nested, whatever the others do, its own property is one
   * observer a save under way around what it was: as it was, present or absent, once none is.
   */
  lemma {:induction false} NestedSavesStack<D>(own: map<D, Fn>, es: seq<Event<D>>, d: D)
    requires Nested(own, es)
    ensures var s := Run(own, es);
            Stacked(s, d, if d in own then Some(own[d]) else None, OpenOn(s.saves, d))
  {
    if es != [] {
      var before, e := es[..|es| - 1], es[|es| - 1];
      var s, was := Run(own, before), if d in own then Some(own[d]) else None;
      NestedSavesStack(own, before, d);
      match e
      case Begin(b) => BeginStacks(s, d, b, was);
      case Compute(b, delta) => ComputeStacks(s, d, b, delta, was);
      case End(i) => if i < |s.saves| && !s.saves[i].over { EndStacks(s, d, i, was); }
    }
  }

  lemma NestedSavesRestore<D>(own: map<D, Fn>, es: seq<Event<D>>, d: D)
    requires Nested(own, es) && forall i | 0 <= i < |Run(own, es).saves| && Run(own, es).saves[i].document == d :: Run(own, es).saves[i].over
    ensures OwnOf(Run(own, es), d) == if d in own then Some(own[d]) else None
  {
    var saves := Run(own, es).saves;
    NestedSavesStack(own, es, d);
    OpenOnAre(saves, d);
    var open := OpenOn(saves, d);
    if open != [] { SomeOpen(open); }
  }

  lemma SomeOpen(open: seq<nat>)
    requires open != []
    ensures exists i :: i in open
  {
    assert open[0] in open;
  }

  // ---- What a save describes ----

  /** The last delta computed on a save's document while it was under way. */
  function LastDelta<D(==)>(own: map<D, Fn>, es: seq<Event<D>>, i: nat): Option<Delta> {
    if es == [] then None else
    var before, e := es[..|es| - 1], es[|es| - 1];
    var s := Run(own, before);
    if e.Compute? && i < |s.saves| && s.saves[i].document == e.document && !s.saves[i].over then Some(e.delta)
    else LastDelta(own, before, i)
  }

  /** The documents had no observer of their own to begin with. */
  ghost predicate Unobserved<D>(own: map<D, Fn>) {
    forall d <- own :: !own[d].Observer?
  }

  lemma {:induction false} LayersAreOpen(own: Option<Fn>, open: seq<nat>, i: nat)
    requires own.Some? ==> !own.value.Observer?
    ensures IsLayer(MethodOf(Layered(own, open)), i) <==> i in open
  {
    if open != [] {
      var n := |open| - 1;
      LayersAreOpen(own, open[..n], i);
      assert open == open[..n] + [open[n]];
    }
  }

  /** Each save describes the last delta computed on its document during its own run. */
  lemma {:induction false} SavesRecordTheirDelta<D>(own: map<D, Fn>, es: seq<Event<D>>, i: nat)
    requires Nested(own, es) && Unobserved(own) && i < |Run(own, es).saves|
    ensures Run(own, es).saves[i].recorded == LastDelta(own, es, i)
  {
    var before, e := es[..|es| - 1], es[|es| - 1];
    var s := Run(own, before);
    if i < |s.saves| {
      SavesRecordTheirDelta(own, before, i);
      if e.Compute? {
        var d, was := e.document, if e.document in own then Some(own[e.document]) else None;
        NestedSavesStack(own, before, d);
        OpenOnAre(s.saves, d);
        LayersAreOpen(was, OpenOn(s.saves, d), i);
      }
    } else {
      NothingComputedYet(own, before, i);
    }
  }

  lemma {:induction false} NothingComputedYet<D>(own: map<D, Fn>, es: seq<Event<D>>, i: nat)
    requires i >= |Run(own, es).saves|
    ensures LastDelta(own, es, i) == None
  {
    if es != [] {
      NothingComputedYet(own, es[..|es| - 1], i);
    }
  }

  // ---- Saves that cross ----

  /** Whether an event puts the property of `d` back: a save of it under way is over. */
  predicate EndsOn<D(==)>(s: State<D>, e: Event<D>, d: D) {
    e.End? && e.save < |s.saves| && !s.saves[e.save].over && s.saves[e.save].document == d
  }

  /** The save of `d` that was over last, if any was and none has begun since. */
  function LastOver<D(==)>(own: map<D, Fn>, es: seq<Event<D>>, d: D): Option<nat> {
    if es == [] then None else
    var before, e := es[..|es| - 1], es[|es| - 1];
    if e == Begin(d) then None
    else if EndsOn(Run(own, before), e, d) then Some(e.save)
    else LastOver(own, before, d)
  }

  /** The save that was over last decides: the property is as that save found it, whatever the others found. */
  lemma {:induction false} LastOverDecides<D>(own: map<D, Fn>, es: seq<Event<D>>, d: D)
    requires LastOver(own, es, d).Some?
    ensures var s, i := Run(own, es), LastOver(own, es, d).value;
            i < |s.saves| && s.saves[i].document == d && s.saves[i].over && OwnOf(s, d) == s.saves[i].found
  {
    var before, e := es[..|es| - 1], es[|es| - 1];
    if !EndsOn(Run(own, before), e, d) {
      LastOverDecides(own, before, d);
    }
  }

  /** When a save began: the events before it did. */
  function Until<D>(own: map<D, Fn>, es: seq<Event<D>>, i: nat): (earlier: seq<Event<D>>)
    ensures |earlier| <= |es| && (i < |Run(own, es).saves| ==> |earlier| < |es|)
  {
    if es == [] then [] else
    var before := es[..|es| - 1];
    if i < |Run(own, before).saves| then Until(own, before, i) else before
  }

  /**
   * Whether the property of `d` is as it was at first: no save of it has begun; or the last thing to
   * happen to it is the end of a save, at whose beginning it was as it was at first.
   */
  predicate IsRestored<D(==)>(own: map<D, Fn>, es: seq<Event<D>>, d: D)
    decreases |es|
  {
    if es == [] then true else
    var before, e := es[..|es| - 1], es[|es| - 1];
    if e == Begin(d) then false
    else if EndsOn(Run(own, before), e, d) then IsRestored(own, Until(own, before, e.save), d)
    else IsRestored(own, before, d)
  }

  /** How many observers stand around a method. */
  function Layers(own: Option<Fn>): nat {
    match own
    case None => 0
    case Some(fn) => 1 + LayersOf(fn)
  }

  function LayersOf(fn: Fn): nat {
    if fn.Observer? then 1 + LayersOf(fn.inner) else 0
  }

  lemma BeginAddsALayer<D>(s: State<D>, d: D)
    ensures Layers(OwnOf(OnBegin(s, d), d)) > Layers(OwnOf(s, d))
  {
  }

  /** What a save found is what there was when it began. */
  lemma {:induction false} FoundIsThen<D>(own: map<D, Fn>, es: seq<Event<D>>, i: nat)
    requires i < |Run(own, es).saves|
    ensures Run(own, es).saves[i].found == OwnOf(Run(own, Until(own, es, i)), Run(own, es).saves[i].document)
  {
    var before := es[..|es| - 1];
    if i < |Run(own, before).saves| {
      FoundIsThen(own, before, i);
    }
  }

  /** An observer left behind is never mistaken for what the document had: it stands further out. */
  lemma {:induction false} OnlyLayersAreAdded<D>(own: map<D, Fn>, es: seq<Event<D>>, d: D)
    ensures var was, now := OwnOf(State(own, []), d), OwnOf(Run(own, es), d);
            (now == was || Layers(now) > Layers(was)) && (now == was <==> IsRestored(own, es, d))
    decreases |es|
  {
    if es != [] {
      var before, e := es[..|es| - 1], es[|es| - 1];
      var s := Run(own, before);
      OnlyLayersAreAdded(own, before, d);
      if e == Begin(d) {
        BeginAddsALayer(s, d);
      } else if EndsOn(s, e, d) {
        FoundIsThen(own, before, e.save);
        OnlyLayersAreAdded(own, Until(own, before, e.save), d);
      }
    }
  }

  /**
   * Over every run, from whatever properties documents had, one is as it was exactly when, going back
   * from the save of it that was over last to the time that save began, and so on, one comes to a
   * time before any save of it.
   */
  lemma RestoredIffTracedBack<D>(own: map<D, Fn>, es: seq<Event<D>>, d: D)
    ensures OwnOf(Run(own, es), d) == OwnOf(State(own, []), d) <==> IsRestored(own, es, d)
  {
    OnlyLayersAreAdded(own, es, d);
  }

  /** All saves of `d` began before any of them was over. */
  ghost predicate AllOverlap<D>(own: map<D, Fn>, es: seq<Event<D>>, d: D) {
    es == [] ||
    (var before, e := es[..|es| - 1], es[|es| - 1];
     AllOverlap(own, before, d) && (e == Begin(d) ==> NoneOver(Run(own, before), d)))
  }

  ghost predicate NoneOver<D>(s: State<D>, d: D) {
    forall i | 0 <= i < |s.saves| && s.saves[i].document == d :: !s.saves[i].over
  }

  predicate IsFirst<D(==)>(saves: seq<Save<D>>, i: nat, d: D) {
    forall j | 0 <= j < i && j < |saves| :: saves[j].document != d
  }

  /** Only the first of them found the property as it was; and while none is over, it stays as it was only if none began. */
  ghost predicate FirstFoundIt<D>(was: Option<Fn>, s: State<D>, d: D) {
    && (forall i | 0 <= i < |s.saves| && s.saves[i].document == d :: s.saves[i].found == was <==> IsFirst(s.saves, i, d))
    && (NoneOver(s, d) ==> (OwnOf(s, d) == was <==> IsFirst(s.saves, |s.saves|, d)))
  }

  lemma {:induction false} OverlapFound<D>(own: map<D, Fn>, es: seq<Event<D>>, d: D)
    requires AllOverlap(own, es, d)
    ensures FirstFoundIt(OwnOf(State(own, []), d), Run(own, es), d)
  {
    hide FirstFoundIt;
    var was := OwnOf(State(own, []), d);
    if es == [] {
      NoneFound(State(own, []), d);
    } else {
      var before, e := es[..|es| - 1], es[|es| - 1];
      var s := Run(own, before);
      OverlapFound(own, before, d);
      OnlyLayersAreAdded(own, before, d);
      match e
      case Begin(b) => BeginFound(was, s, b, d);
      case Compute(b, delta) => ComputeFound(was, s, b, delta, d);
      case End(i) => if i < |s.saves| && !s.saves[i].over { EndFound(was, s, i, d); }
    }
  }

  lemma NoneFound<D>(s: State<D>, d: D)
    requires s.saves == []
    ensures FirstFoundIt(OwnOf(s, d), s, d)
  {
  }

  lemma FirstOfMore<D>(saves: seq<Save<D>>, save: Save<D>, i: nat, d: D)
    requires i <= |saves|
    ensures IsFirst(saves + [save], i, d) <==> IsFirst(saves, i, d)
    ensures IsFirst(saves + [save], i + 1, d) <==> IsFirst(saves + [save], i, d) && (saves + [save])[i].document != d
  {
    assert forall j | 0 <= j < i :: (saves + [save])[j] == saves[j];
  }

  lemma BeginFound<D>(was: Option<Fn>, s: State<D>, b: D, d: D)
    requires FirstFoundIt(was, s, d) && (b == d ==> NoneOver(s, d))
    requires OwnOf(s, d) == was || Layers(OwnOf(s, d)) > Layers(was)
    ensures FirstFoundIt(was, OnBegin(s, b), d)
  {
    hide IsFirst, Layers;
    var s', n := OnBegin(s, b), |s.saves|;
    assert OwnOf(s', d) != was || b != d by { BeginAddsALayer(s, b); }
    FirstOfMore(s.saves, s'.saves[n], n, d);
    forall i | 0 <= i <= n && s'.saves[i].document == d ensures s'.saves[i].found == was <==> IsFirst(s'.saves, i, d) {
      FirstOfMore(s.saves, s'.saves[n], i, d);
    }
    if NoneOver(s', d) {
      forall i | 0 <= i < n && s.saves[i].document == d ensures !s.saves[i].over {
        assert s'.saves[i] == s.saves[i];
      }
    }
  }

  /** Neither computing a delta nor ending a save changes what any save found. */
  lemma SameFirst<D>(a: seq<Save<D>>, b: seq<Save<D>>, i: nat, d: D)
    requires |a| == |b| && forall j | 0 <= j < |a| :: a[j].document == b[j].document
    ensures IsFirst(a, i, d) <==> IsFirst(b, i, d)
  {
  }

  lemma ComputeFound<D>(was: Option<Fn>, s: State<D>, b: D, delta: Delta, d: D)
    requires FirstFoundIt(was, s, d)
    ensures FirstFoundIt(was, OnCompute(s, b, delta), d)
  {
    hide IsFirst, IsLayer;
    var s' := OnCompute(s, b, delta);
    forall i: nat ensures IsFirst(s'.saves, i, d) <==> IsFirst(s.saves, i, d) {
      SameFirst(s'.saves, s.saves, i, d);
    }
    if NoneOver(s', d) {
      forall i | 0 <= i < |s.saves| && s.saves[i].document == d ensures !s.saves[i].over {
        assert !s'.saves[i].over;
      }
    }
  }

  lemma EndFound<D>(was: Option<Fn>, s: State<D>, k: nat, d: D)
    requires FirstFoundIt(was, s, d) && k < |s.saves| && !s.saves[k].over
    ensures FirstFoundIt(was, OnEnd(s, k), d)
  {
    hide IsFirst;
    var s' := OnEnd(s, k);
    forall i: nat ensures IsFirst(s'.saves, i, d) <==> IsFirst(s.saves, i, d) {
      SameFirst(s'.saves, s.saves, i, d);
    }
    if NoneOver(s', d) {
      assert s'.saves[k].over;
      forall i | 0 <= i < |s.saves| && s.saves[i].document == d ensures !s.saves[i].over {
        assert !s'.saves[i].over;
      }
    }
  }

  /**
   * However many saves of one document overlap, whatever they compute and whatever else is saved
   * meanwhile: its property is as it was exactly when the first of them to begin is the last over.
   */
  lemma OverlappingSavesRestoreIffFirstIsLast<D>(own: map<D, Fn>, es: seq<Event<D>>, d: D)
    requires AllOverlap(own, es, d) && LastOver(own, es, d).Some?
    ensures var s := Run(own, es);
            OwnOf(s, d) == OwnOf(State(own, []), d) <==> IsFirst(s.saves, LastOver(own, es, d).value, d)
  {
    LastOverDecides(own, es, d);
    OverlapFound(own, es, d);
  }
}
