/**
 * The order `buildTrace` (build-trace.ts) places spans in, and the parent it gives each one: the
 * reported one when there is one, else the tightest container placed before it whose window the
 * span starts in, else the root.
 */
module TraceTree {
  import opened Options
  import opened TraceSpans

  // ---- Orders ----

  /** Spans are placed earliest first, longest first on ties; they are shown earliest first. */
  datatype Order = Placing | Showing

  predicate Before(o: Order, a: Span, b: Span) {
    || a.raw.startedAt < b.raw.startedAt
    || (a.raw.startedAt == b.raw.startedAt
        && ((o == Placing && a.raw.duration > b.raw.duration)
            || ((o == Placing ==> a.raw.duration == b.raw.duration) && a.order < b.order)))
  }

  function Insert(o: Order, spans: seq<Span>, x: Span): seq<Span> {
    if spans == [] || Before(o, x, spans[0]) then [x] + spans else [spans[0]] + Insert(o, spans[1..], x)
  }

  /** `sort` with the comparator of that order. */
  function Sort(o: Order, spans: seq<Span>): seq<Span> {
    if spans == [] then [] else Insert(o, Sort(o, spans[..|spans| - 1]), spans[|spans| - 1])
  }

  ghost predicate Sorted(o: Order, spans: seq<Span>) {
    spans == [] || ((forall s <- spans[1..] :: !Before(o, s, spans[0])) && Sorted(o, spans[1..]))
  }

  lemma {:induction false} SortedAt(o: Order, spans: seq<Span>, i: nat, j: nat)
    requires Sorted(o, spans) && i < j < |spans|
    ensures !Before(o, spans[j], spans[i])
  {
    if i == 0 {
      assert spans[1..][j - 1] in spans[1..];
    } else {
      SortedAt(o, spans[1..], i - 1, j - 1);
    }
  }

  lemma NotBefore(o: Order, s: Span, a: Span, x: Span)
    requires Before(o, x, a) && !Before(o, s, a)
    ensures !Before(o, s, x)
  {
  }

  lemma ConsSorts(o: Order, x: Span, spans: seq<Span>)
    requires Sorted(o, spans) && forall s <- spans :: !Before(o, s, x)
    ensures Sorted(o, [x] + spans)
  {
    hide Before;
    assert ([x] + spans)[1..] == spans;
  }

  lemma EarliestOfAll(o: Order, spans: seq<Span>, x: Span)
    requires Sorted(o, spans) && (spans != [] ==> Before(o, x, spans[0]))
    ensures forall s <- spans :: !Before(o, s, x)
  {
    hide Before;
    forall s | s in spans ensures !Before(o, s, x) {
      if s == spans[0] {
        Irreflexive(o, s, x);
      } else {
        assert s in spans[1..];
        NotBefore(o, s, spans[0], x);
      }
    }
  }

  lemma {:induction false} InsertSorts(o: Order, spans: seq<Span>, x: Span)
    requires Sorted(o, spans)
    ensures Sorted(o, Insert(o, spans, x)) && multiset(Insert(o, spans, x)) == multiset(spans) + multiset{x}
  {
    hide Before;
    if spans == [] || Before(o, x, spans[0]) {
      EarliestOfAll(o, spans, x);
      ConsSorts(o, x, spans);
    } else {
      var rest := Insert(o, spans[1..], x);
      assert spans == [spans[0]] + spans[1..];
      InsertSorts(o, spans[1..], x);
      forall s <- rest ensures !Before(o, s, spans[0]) {
        assert s in multiset(spans[1..]) + multiset{x};
      }
      ConsSorts(o, spans[0], rest);
    }
  }

  lemma Irreflexive(o: Order, s: Span, x: Span)
    requires Before(o, x, s)
    ensures !Before(o, s, x)
  {
  }

  lemma {:induction false} SortSorts(o: Order, spans: seq<Span>)
    ensures Sorted(o, Sort(o, spans)) && multiset(Sort(o, spans)) == multiset(spans)
  {
    assert Sorted(o, []);
    hide Insert, Sorted, Before;
    if spans != [] {
      var n := |spans| - 1;
      SortSorts(o, spans[..n]);
      InsertSorts(o, Sort(o, spans[..n]), spans[n]);
      assert spans == spans[..n] + [spans[n]];
    }
  }

  function Only(spans: seq<Span>, containers: bool): seq<Span> {
    if spans == [] then []
    else if spans[0].raw.IsContainer() == containers then [spans[0]] + Only(spans[1..], containers)
    else Only(spans[1..], containers)
  }

  /** Containers first, so that a parent timed shorter than its child is still placed before it. */
  function PlacingOrder(spans: seq<Span>): seq<Span> {
    var byStart := Sort(Placing, spans);
    Only(byStart, true) + Only(byStart, false)
  }

  lemma {:induction false} OnlyAre(spans: seq<Span>, containers: bool)
    ensures forall s <- Only(spans, containers) :: s in spans && s.raw.IsContainer() == containers
    ensures Sorted(Placing, spans) ==> Sorted(Placing, Only(spans, containers))
  {
    if spans != [] {
      OnlyAre(spans[1..], containers);
      assert ([spans[0]] + Only(spans[1..], containers))[1..] == Only(spans[1..], containers);
    }
  }

  lemma {:induction false} OnlySplits(spans: seq<Span>)
    ensures multiset(Only(spans, true)) + multiset(Only(spans, false)) == multiset(spans)
  {
    if spans != [] {
      OnlySplits(spans[1..]);
      assert spans == [spans[0]] + spans[1..];
    }
  }

  /** Containers stand before every other span, earliest first. */
  ghost predicate ContainersFirst(spans: seq<Span>) {
    forall i, j | 0 <= i < j < |spans| && spans[j].raw.IsContainer() ::
      spans[i].raw.IsContainer() && spans[i].raw.startedAt <= spans[j].raw.startedAt
  }

  /** Every span is placed, once; the containers come first, earliest first. */
  lemma PlacingOrderPlacesAll(spans: seq<Span>)
    ensures multiset(PlacingOrder(spans)) == multiset(spans) && ContainersFirst(PlacingOrder(spans))
  {
    var byStart := Sort(Placing, spans);
    SortSorts(Placing, spans);
    OnlySplits(byStart);
    OnlyAre(byStart, true);
    OnlyAre(byStart, false);
    var first, second, order := Only(byStart, true), Only(byStart, false), PlacingOrder(spans);
    forall k | 0 <= k < |second| ensures !second[k].raw.IsContainer() {
      assert second[k] in second;
    }
    forall i, j | 0 <= i < j < |order| && order[j].raw.IsContainer()
      ensures order[i].raw.IsContainer() && order[i].raw.startedAt <= order[j].raw.startedAt
    {
      assert j < |first| && order[i] in first;
      SortedAt(Placing, first, i, j);
    }
  }

  // ---- Descent ----

  type Parents = map<string, string>

  function Up(parents: Parents, id: string, n: nat): Option<string> {
    if n == 0 then Some(id) else
    match Up(parents, id, n - 1)
    case None => None
    case Some(x) => if x in parents then Some(parents[x]) else None
  }

  /** Whether `id` is `ancestor` or sits below it. */
  ghost predicate Descends(parents: Parents, id: string, ancestor: string) {
    exists n: nat :: Up(parents, id, n) == Some(ancestor)
  }

  /** Nothing leads out of `seen`, except to `current`. */
  ghost predicate ClosedBut(parents: Parents, seen: set<string>, current: Option<string>) {
    forall x <- seen :: (if x in parents then Some(parents[x]) else None) == current || (x in parents && parents[x] in seen)
  }

  lemma {:induction false} StaysInside(parents: Parents, seen: set<string>, id: string, n: nat)
    requires id in seen && forall x <- seen :: x in parents ==> parents[x] in seen
    ensures Up(parents, id, n).Some? ==> Up(parents, id, n).value in seen
  {
    if n > 0 {
      StaysInside(parents, seen, id, n - 1);
    }
  }

  method DescendsFrom(parents: Parents, id: string, ancestor: string) returns (below: bool)
    ensures below <==> Descends(parents, id, ancestor)
  {
    var current, seen := Some(id), {};
    ghost var n, universe := 0, {id} + parents.Values;
    while current.Some? && current.value !in seen
      invariant current == Up(parents, id, n) && (current.Some? ==> current.value in universe)
      invariant seen <= universe && ancestor !in seen && ClosedBut(parents, seen, current)
      invariant if n == 0 then seen == {} else id in seen
      decreases |universe - seen|
    {
      var at := current.value;
      if at == ancestor { return true; }
      assert universe - (seen + {at}) < universe - seen by { assert at in universe - seen; }
      Smaller(universe - (seen + {at}), universe - seen);
      seen := seen + {at};
      current := if at in parents then Some(parents[at]) else None;
      n := n + 1;
    }
    below := false;
    forall m: nat ensures Up(parents, id, m) != Some(ancestor) {
      StaysInside(parents, seen, id, m);
    }
  }

  lemma Smaller<T>(a: set<T>, b: set<T>)
    requires a < b
    ensures |a| < |b|
  {
    assert b == a + (b - a) && b - a != {};
  }

  // ---- Placement ----

  predicate IsCandidate(c: Span, span: Span) {
    c.id != span.id && c.raw.IsContainer() && c.raw.Contains(span.raw)
  }

  /** No candidate among those placed is shorter. */
  ghost predicate IsTightest(placed: seq<Span>, span: Span, best: Span) {
    && best in placed && IsCandidate(best, span)
    && forall c <- placed :: IsCandidate(c, span) ==> best.raw.duration <= c.raw.duration
  }

  /** Of those as short, none but the root starts later. */
  ghost predicate IsLatest(placed: seq<Span>, span: Span, best: Span) {
    forall c <- placed :: IsCandidate(c, span) && c.raw.duration == best.raw.duration && c.id != ROOT && best.id != ROOT ==>
      c.raw.startedAt <= best.raw.startedAt
  }

  /** The root, then containers earliest first, then the rest. */
  ghost predicate RootFirst(placed: seq<Span>) {
    && placed != [] && placed[0].id == ROOT && ContainersFirst(placed[1..])
    && forall i | 1 <= i < |placed| :: placed[i].id != ROOT
  }

  /** What one more candidate does to the best so far: of two as short, the one that starts later or is deeper wins. */
  ghost function Preferred(parents: Parents, best: Option<Span>, candidate: Span): Option<Span> {
    if best.None? || candidate.raw.duration < best.value.raw.duration then Some(candidate)
    else if candidate.raw.duration == best.value.raw.duration
            && (candidate.raw.startedAt > best.value.raw.startedAt || Descends(parents, candidate.id, best.value.id)) then Some(candidate)
    else best
  }

  /** The container chosen among those placed, in the order they were. */
  ghost function Choice(placed: seq<Span>, parents: Parents, span: Span): Option<Span> {
    if placed == [] then None else
    var best, last := Choice(placed[..|placed| - 1], parents, span), placed[|placed| - 1];
    if IsCandidate(last, span) then Preferred(parents, best, last) else best
  }

  method Better(best: Option<Span>, candidate: Span, parents: Parents) returns (better: Option<Span>)
    ensures better == Preferred(parents, best, candidate)
  {
    better := best;
    if best.None? || candidate.raw.duration < best.value.raw.duration {
      better := Some(candidate);
    } else if candidate.raw.duration == best.value.raw.duration {
      var deeper := DescendsFrom(parents, candidate.id, best.value.id);
      if candidate.raw.startedAt > best.value.raw.startedAt || deeper {
        better := Some(candidate);
      }
    }
  }

  method Enclosing(placed: seq<Span>, parents: Parents, span: Span) returns (best: Option<Span>)
    ensures best == Choice(placed, parents, span)
  {
    best := None;
    for i := 0 to |placed|
      invariant best == Choice(placed[..i], parents, span)
    {
      assert placed[..i + 1][..i] == placed[..i];
      if IsCandidate(placed[i], span) {
        best := Better(best, placed[i], parents);
      }
    }
    assert placed[..|placed|] == placed;
  }

  /** The choice is a tightest candidate, of those one that starts last; there is none when no container encloses the span. */
  lemma {:induction false} ChoiceIsTightest(placed: seq<Span>, parents: Parents, span: Span)
    requires RootFirst(placed)
    ensures var best := Choice(placed, parents, span);
            && (best.None? ==> forall c <- placed :: !IsCandidate(c, span))
            && (best.Some? ==> IsTightest(placed, span, best.value) && IsLatest(placed, span, best.value))
  {
    ChoiceSoFar(placed, parents, span, |placed|);
    assert placed[..|placed|] == placed;
  }

  lemma {:induction false} ChoiceSoFar(placed: seq<Span>, parents: Parents, span: Span, n: nat)
    requires RootFirst(placed) && n <= |placed|
    ensures var best := Choice(placed[..n], parents, span);
            && (best.None? ==> forall c <- placed[..n] :: !IsCandidate(c, span))
            && (best.Some? ==> IsTightest(placed[..n], span, best.value) && IsLatest(placed[..n], span, best.value))
  {
    hide RootFirst, Descends, IsLatest;
    if n > 0 {
      var i := n - 1;
      ChoiceSoFar(placed, parents, span, i);
      assert placed[..n][..i] == placed[..i] && placed[..n] == placed[..i] + [placed[i]];
      var before := Choice(placed[..i], parents, span);
      if !IsCandidate(placed[i], span) {
        if before.Some? { SkippedIsLatest(placed, i, span, before.value); }
      } else if before.Some? {
        LaterIsLatest(placed, i, span, before.value, Preferred(parents, before, placed[i]).value);
      } else {
        FirstIsLatest(placed[..i], span, placed[i]);
      }
    }
  }

  /** Nothing placed after the choice, and as short, sits below it: the deepest of one window wins. */
  lemma {:induction false} ChoiceIsDeepest(placed: seq<Span>, parents: Parents, span: Span) returns (i: nat)
    requires Choice(placed, parents, span).Some?
    ensures i < |placed| && Choice(placed, parents, span) == Some(placed[i])
    ensures forall j | i < j < |placed| && IsCandidate(placed[j], span) && placed[j].raw.duration == placed[i].raw.duration ::
              !Descends(parents, placed[j].id, placed[i].id)
  {
    hide Descends;
    var n := |placed| - 1;
    if Choice(placed, parents, span) == Some(placed[n]) { return n; }
    i := ChoiceIsDeepest(placed[..n], parents, span);
  }

  lemma SkippedIsLatest(placed: seq<Span>, i: nat, span: Span, best: Span)
    requires i < |placed| && !IsCandidate(placed[i], span) && IsLatest(placed[..i], span, best)
    ensures IsLatest(placed[..i + 1], span, best)
  {
    assert placed[..i + 1] == placed[..i] + [placed[i]];
  }

  lemma FirstIsLatest(placed: seq<Span>, span: Span, best: Span)
    requires forall c <- placed :: !IsCandidate(c, span)
    ensures IsLatest(placed + [best], span, best)
  {
  }

  lemma LaterIsLatest(placed: seq<Span>, i: nat, span: Span, before: Span, best: Span)
    requires RootFirst(placed) && i < |placed| && IsCandidate(placed[i], span)
    requires before in placed[..i] && IsCandidate(before, span) && IsLatest(placed[..i], span, before)
    requires best == before || best == placed[i]
    requires placed[i].raw.duration > before.raw.duration ==> best == before
    requires placed[i].raw.duration == before.raw.duration && placed[i].raw.startedAt > before.raw.startedAt ==> best == placed[i]
    requires forall c <- placed[..i] :: IsCandidate(c, span) ==> before.raw.duration <= c.raw.duration
    ensures IsLatest(placed[..i + 1], span, best)
  {
    forall c <- placed[..i + 1] | IsCandidate(c, span) && c.raw.duration == best.raw.duration && c.id != ROOT && best.id != ROOT
      ensures c.raw.startedAt <= best.raw.startedAt
    {
      var k :| 0 <= k <= i && placed[k] == c;
      if best == placed[i] && k < i {
        assert placed[1..][k - 1] == c && placed[1..][i - 1] == best;
      }
    }
  }

  /** The reported parent, when it counts: not the span itself, and one of the trace. */
  ghost predicate Honoured(spans: seq<Span>, span: Span) {
    Given(span.raw.parentId).Some? && span.raw.parentId.value != span.id && IdTaken(spans, span.raw.parentId.value)
  }

  /** The parent of a span: as reported, or inferred from those placed before it. */
  ghost predicate IsParent(spans: seq<Span>, placed: seq<Span>, span: Span, parent: string) {
    if Honoured(spans, span) then parent == span.raw.parentId.value
    else if exists best <- placed :: IsTightest(placed, span, best) then
      exists best <- placed :: IsTightest(placed, span, best) && IsLatest(placed, span, best) && parent == best.id
    else parent == ROOT
  }

  /** The parent a span is given. */
  ghost function ParentGiven(spans: seq<Span>, placed: seq<Span>, parents: Parents, span: Span): string {
    if Honoured(spans, span) then span.raw.parentId.value
    else if Choice(placed, parents, span).Some? then Choice(placed, parents, span).value.id else ROOT
  }

  lemma GivenIsParent(spans: seq<Span>, placed: seq<Span>, parents: Parents, span: Span)
    requires RootFirst(placed)
    ensures IsParent(spans, placed, span, ParentGiven(spans, placed, parents, span))
  {
    hide Honoured, RootFirst, Choice;
    ChoiceIsTightest(placed, parents, span);
    var best := Choice(placed, parents, span);
    if best.Some? { assert best.value in placed; }
  }

  /** The parents of the first `n` spans: each is given its own by those placed before it. */
  ghost function Placement(root: Span, order: seq<Span>, n: nat): Parents
    requires n <= |order|
  {
    if n == 0 then map[] else
    var before, span := Placement(root, order, n - 1), order[n - 1];
    before[span.id := ParentGiven(order, [root] + order[..n - 1], before, span)]
  }

  /** The first `n` spans have their parent. */
  ghost predicate PlacedUpTo(root: Span, order: seq<Span>, parents: Parents, n: nat)
    requires n <= |order|
  {
    && parents.Keys == (set s <- order[..n] :: s.id)
    && forall k | 0 <= k < n :: HasParent(root, order, parents, k)
  }

  ghost predicate HasParent(root: Span, order: seq<Span>, parents: Parents, k: nat)
    requires k < |order|
  {
    order[k].id in parents && IsParent(order, [root] + order[..k], order[k], parents[order[k].id])
  }

  ghost predicate Placed(root: Span, order: seq<Span>, parents: Parents) {
    PlacedUpTo(root, order, parents, |order|)
  }

  ghost predicate Distinct(order: seq<Span>) {
    && (forall i, j | 0 <= i < j < |order| :: order[i].id != order[j].id)
    && (forall i | 0 <= i < |order| :: order[i].id != ROOT)
  }

  method ParentOf(used: set<string>, placed: seq<Span>, parents: Parents, span: Span, ghost order: seq<Span>)
    returns (parent: string)
    requires forall id :: id in used <==> IdTaken(order, id)
    ensures parent == ParentGiven(order, placed, parents, span)
  {
    var reported := span.raw.parentId.GetOr("");
    if reported != "" && reported != span.id && reported in used {
      assert Honoured(order, span);
      return reported;
    }
    assert !Honoured(order, span);
    var best := Enclosing(placed, parents, span);
    parent := if best.Some? then best.value.id else ROOT;
  }

  method Place(root: Span, order: seq<Span>) returns (parents: Parents)
    ensures parents == Placement(root, order, |order|)
  {
    hide ParentGiven;
    var used := {ROOT} + set s <- order :: s.id;
    parents := map[];
    var placed := [root];
    for k := 0 to |order|
      invariant placed == [root] + order[..k] && parents == Placement(root, order, k)
    {
      var span := order[k];
      var parent := ParentOf(used, placed, parents, span, order);
      parents := parents[span.id := parent];
      placed := placed + [span];
      assert order[..k + 1] == order[..k] + [span];
    }
  }

  lemma {:induction false} PlacementPlaces(root: Span, order: seq<Span>, n: nat)
    requires root.id == ROOT && Distinct(order) && ContainersFirst(order) && n <= |order|
    ensures PlacedUpTo(root, order, Placement(root, order, n), n)
  {
    hide PlacedUpTo, RootFirst, IsParent, ParentGiven;
    if n == 0 {
      NothingPlaced(root, order);
    } else {
      var k := n - 1;
      var before := Placement(root, order, k);
      PlacementPlaces(root, order, k);
      RootStaysFirst(root, order, k);
      GivenIsParent(order, [root] + order[..k], before, order[k]);
      OneMorePlaced(root, order, before, k, ParentGiven(order, [root] + order[..k], before, order[k]));
    }
  }

  lemma NothingPlaced(root: Span, order: seq<Span>)
    ensures PlacedUpTo(root, order, map[], 0)
  {
  }

  lemma OneMorePlaced(root: Span, order: seq<Span>, parents: Parents, k: nat, parent: string)
    requires Distinct(order) && k < |order| && PlacedUpTo(root, order, parents, k)
    requires IsParent(order, [root] + order[..k], order[k], parent)
    ensures PlacedUpTo(root, order, parents[order[k].id := parent], k + 1)
  {
    hide IsParent;
    assert order[..k + 1] == order[..k] + [order[k]];
    var parents' := parents[order[k].id := parent];
    forall i | 0 <= i < k ensures HasParent(root, order, parents', i) {
      assert HasParent(root, order, parents, i);
    }
  }

  lemma RootStaysFirst(root: Span, order: seq<Span>, k: nat)
    requires root.id == ROOT && Distinct(order) && ContainersFirst(order) && k <= |order|
    ensures RootFirst([root] + order[..k])
  {
    assert ([root] + order[..k])[1..] == order[..k];
  }

  // ---- Whether every span comes out below the root ----

  lemma {:induction false} UpTwice(parents: Parents, id: string, m: nat, n: nat)
    requires Up(parents, id, m).Some?
    ensures Up(parents, id, m + n) == Up(parents, Up(parents, id, m).value, n)
  {
    if n > 0 {
      UpTwice(parents, id, m, n - 1);
    }
  }

  /** A span that is its own ancestor never reaches the root. */
  lemma {:induction false} CycleNeverEnds(parents: Parents, id: string, k: nat, n: nat)
    requires k > 0 && Up(parents, id, k) == Some(id) && ROOT !in parents
    ensures Up(parents, id, n).Some? && Up(parents, id, n) != Some(ROOT)
    decreases n
  {
    if n < k {
      if Up(parents, id, n).None? {
        NoneStays(parents, id, n, k);
      } else if Up(parents, id, n) == Some(ROOT) {
        NoneStays(parents, id, n + 1, k);
      }
    } else {
      CycleNeverEnds(parents, id, k, n - k);
      UpTwice(parents, id, k, n - k);
    }
  }

  lemma {:induction false} NoneStays(parents: Parents, id: string, m: nat, n: nat)
    requires Up(parents, id, m).None? && m <= n
    ensures Up(parents, id, n).None?
  {
    if m < n {
      NoneStays(parents, id, m, n - 1);
    }
  }

  function IndexOf(order: seq<Span>, id: string): (k: nat)
    requires exists s <- order :: s.id == id
    ensures k < |order| && order[k].id == id
  {
    if order[|order| - 1].id == id then |order| - 1 else
    IndexOf(order[..|order| - 1], id)
  }

  /** An inferred parent stands earlier in the order than its child. */
  lemma ParentIsEarlier(root: Span, order: seq<Span>, parents: Parents, k: nat)
    requires root.id == ROOT && Placed(root, order, parents) && k < |order| && order[k].id in parents
    requires parents[order[k].id] != ROOT && !Honoured(order, order[k])
    ensures exists i :: 0 <= i < k && order[i].id == parents[order[k].id]
  {
    assert HasParent(root, order, parents, k);
    var placed := [root] + order[..k];
    var best :| best in placed && IsTightest(placed, order[k], best) && parents[order[k].id] == best.id;
    assert best in order[..k];
  }

  /** A parent is the root or a span of the trace. */
  lemma ParentIsKnown(root: Span, order: seq<Span>, parents: Parents, id: string)
    requires root.id == ROOT && Placed(root, order, parents) && id in parents
    ensures IdTaken(order, parents[id])
  {
    assert exists s <- order :: s.id == id;
    var k := IndexOf(order, id);
    assert HasParent(root, order, parents, k);
    if !Honoured(order, order[k]) && parents[id] != ROOT {
      ParentIsEarlier(root, order, parents, k);
    }
  }

  /** The ids met on the way up, while the root is not reached. */
  ghost function Chain(parents: Parents, id: string, n: nat): seq<string>
    requires forall m: nat :: m <= n ==> Up(parents, id, m).Some?
  {
    seq(n + 1, m requires 0 <= m <= n => Up(parents, id, m).value)
  }

  lemma {:induction false} StrayGoesOn(root: Span, order: seq<Span>, parents: Parents, id: string, n: nat)
    requires root.id == ROOT && Placed(root, order, parents) && id in parents && !Descends(parents, id, ROOT)
    ensures Up(parents, id, n).Some? && Up(parents, id, n).value in parents
  {
    if n > 0 {
      StrayGoesOn(root, order, parents, id, n - 1);
      var x := Up(parents, id, n - 1).value;
      ParentIsKnown(root, order, parents, x);
      assert Up(parents, id, n) != Some(ROOT);
    }
  }

  lemma {:induction false} Repeats(chain: seq<string>, ids: set<string>)
    requires |chain| > |ids| && forall x <- chain :: x in ids
    ensures exists i, j :: 0 <= i < j < |chain| && chain[i] == chain[j]
  {
    var n := |chain| - 1;
    if chain[n] in chain[..n] {
      var i :| 0 <= i < n && chain[..n][i] == chain[n];
    } else {
      Repeats(chain[..n], ids - {chain[n]});
      var i, j :| 0 <= i < j < n && chain[..n][i] == chain[..n][j];
    }
  }

  /** Going up from `id`, some two steps meet the same span. */
  lemma StrayRepeats(root: Span, order: seq<Span>, parents: Parents, id: string) returns (i: nat, j: nat)
    requires root.id == ROOT && Placed(root, order, parents) && id in parents && !Descends(parents, id, ROOT)
    ensures i < j && Up(parents, id, i).Some? && Up(parents, id, i) == Up(parents, id, j)
  {
    var n := |parents.Keys|;
    forall m: nat ensures Up(parents, id, m).Some? && Up(parents, id, m).value in parents {
      StrayGoesOn(root, order, parents, id, m);
    }
    var chain := Chain(parents, id, n);
    forall x <- chain ensures x in parents.Keys {
      var m :| 0 <= m <= n && chain[m] == x;
    }
    Repeats(chain, parents.Keys);
    i, j :| 0 <= i < j < |chain| && chain[i] == chain[j];
  }

  /** Between two such steps, one goes to a reported parent: inferred ones always go to earlier spans. */
  lemma {:induction false} SomeStepIsReported(root: Span, order: seq<Span>, parents: Parents, id: string, i: nat, j: nat) returns (m: nat)
    requires root.id == ROOT && Distinct(order) && Placed(root, order, parents) && id in parents && !Descends(parents, id, ROOT)
    requires i < j && Up(parents, id, i).Some? && Up(parents, id, j).Some?
    requires Position(root, order, parents, id, i) <= Position(root, order, parents, id, j)
    ensures i <= m < j && Up(parents, id, m).Some? && Honoured(order, order[Position(root, order, parents, id, m)])
    decreases j - i
  {
    hide Honoured, IsParent, PlacedUpTo, IndexOf, Distinct;
    var k := Position(root, order, parents, id, j - 1);
    StrayGoesOn(root, order, parents, id, j - 1);
    StrayGoesOn(root, order, parents, id, j);
    if Honoured(order, order[k]) { return j - 1; }
    assert Up(parents, id, j) != Some(ROOT);
    ParentIsEarlier(root, order, parents, k);
    var e :| 0 <= e < k && order[e].id == parents[order[k].id];
    SamePosition(order, e, Position(root, order, parents, id, j));
    m := SomeStepIsReported(root, order, parents, id, i, j - 1);
  }

  lemma SamePosition(order: seq<Span>, i: nat, j: nat)
    requires Distinct(order) && i < |order| && j < |order| && order[i].id == order[j].id
    ensures i == j
  {
  }

  /** Where the span met after `n` steps stands in the order. */
  ghost function Position(root: Span, order: seq<Span>, parents: Parents, id: string, n: nat): (k: nat)
    requires root.id == ROOT && Placed(root, order, parents) && id in parents && !Descends(parents, id, ROOT)
    ensures k < |order| && Up(parents, id, n) == Some(order[k].id)
  {
    StrayGoesOn(root, order, parents, id, n);
    assert exists s <- order :: s.id == Up(parents, id, n).value;
    IndexOf(order, Up(parents, id, n).value)
  }

  /**
   * Exactly when every span comes out below the root: when none reports as its parent a span that
   * comes out below itself. Inferring parents by time closes no cycle on its own.
   */
  lemma RootedUnlessReportedBelow(root: Span, order: seq<Span>, parents: Parents)
    requires root.id == ROOT && Distinct(order) && Placed(root, order, parents)
    ensures (forall s <- order :: Descends(parents, s.id, ROOT))
            <==> (forall s <- order :: Honoured(order, s) ==> !Descends(parents, s.raw.parentId.value, s.id))
  {
    hide IsParent, IdTaken, Up;
    if s :| s in order && Honoured(order, s) && Descends(parents, s.raw.parentId.value, s.id) {
      ReportedBelowIsStray(root, order, parents, s);
    }
    if s :| s in order && !Descends(parents, s.id, ROOT) {
      StrayReportsBelow(root, order, parents, s.id);
    }
  }

  /** Of two spans below each other neither gets to the root. */
  lemma MutuallyBelow(parents: Parents, a: string, b: string)
    requires ROOT !in parents && Descends(parents, a, b) && b in parents && parents[b] == a
    ensures !Descends(parents, a, ROOT) && !Descends(parents, b, ROOT)
  {
    var n: nat :| Up(parents, a, n) == Some(b);
    assert Up(parents, a, n + 1) == Some(a);
    assert Up(parents, b, 0) == Some(b);
    assert Up(parents, b, 1) == Some(a);
    UpTwice(parents, b, 1, n);
    forall j: nat ensures Up(parents, a, j) != Some(ROOT) && Up(parents, b, j) != Some(ROOT) {
      CycleNeverEnds(parents, a, n + 1, j);
      CycleNeverEnds(parents, b, n + 1, j);
    }
  }

  lemma RootHasNoParent(root: Span, order: seq<Span>, parents: Parents)
    requires Distinct(order) && Placed(root, order, parents)
    ensures ROOT !in parents
  {
  }

  lemma ReportedBelowIsStray(root: Span, order: seq<Span>, parents: Parents, s: Span)
    requires root.id == ROOT && Distinct(order) && Placed(root, order, parents)
    requires s in order && Honoured(order, s) && Descends(parents, s.raw.parentId.value, s.id)
    ensures !Descends(parents, s.id, ROOT)
  {
    var k :| 0 <= k < |order| && order[k] == s;
    assert HasParent(root, order, parents, k);
    RootHasNoParent(root, order, parents);
    hide *;
    MutuallyBelow(parents, s.raw.parentId.value, s.id);
  }

  lemma AroundTheCycle(parents: Parents, id: string, i: nat, m: nat, j: nat)
    requires i <= m < j && Up(parents, id, m + 1).Some? && Up(parents, id, i).Some? && Up(parents, id, i) == Up(parents, id, j)
    ensures Descends(parents, Up(parents, id, m + 1).value, Up(parents, id, m).value)
  {
    var next := Up(parents, id, m + 1).value;
    UpTwice(parents, id, m + 1, j - m - 1);
    UpTwice(parents, id, i, m - i);
    UpTwice(parents, next, j - m - 1, m - i);
    assert Up(parents, next, (j - m - 1) + (m - i)) == Up(parents, id, m);
  }

  lemma StrayReportsBelow(root: Span, order: seq<Span>, parents: Parents, id: string)
    requires root.id == ROOT && Distinct(order) && Placed(root, order, parents) && id in parents && !Descends(parents, id, ROOT)
    ensures exists s <- order :: Honoured(order, s) && Descends(parents, s.raw.parentId.value, s.id)
  {
    hide Honoured, Up, Distinct;
    var i, j := StrayRepeats(root, order, parents, id);
    var m := SomeStepIsReported(root, order, parents, id, i, j);
    var k := Position(root, order, parents, id, m);
    HonouredIsNext(root, order, parents, id, m, k);
    AroundTheCycle(parents, id, i, m, j);
    assert order[k] in order;
  }

  lemma HonouredIsNext(root: Span, order: seq<Span>, parents: Parents, id: string, m: nat, k: nat)
    requires Placed(root, order, parents) && k < |order| && Up(parents, id, m) == Some(order[k].id) && Honoured(order, order[k])
    ensures Up(parents, id, m + 1) == Some(order[k].raw.parentId.value)
  {
    assert HasParent(root, order, parents, k);
  }

  lemma ParentBelow(parents: Parents, id: string)
    requires id in parents
    ensures Descends(parents, id, parents[id])
  {
    assert Up(parents, id, 0) == Some(id);
    assert Up(parents, id, 1) == Some(parents[id]);
  }
}
