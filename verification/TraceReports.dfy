/**
 * What producers must report for every span `buildTrace` (build-trace.ts) places to come out below
 * the root, and the windows that show it when they do not.
 */
module TraceReports {
  import opened Options
  import opened TraceSpans
  import opened TraceTree

  // ---- Chains of reports ----

  ghost predicate Rooted(order: seq<Span>, parents: Parents) {
    forall s <- order :: Descends(parents, s.id, ROOT)
  }

  /** The parents reported, of the spans whose report counts. */
  ghost function Reports(order: seq<Span>): (reports: Parents)
    requires Distinct(order)
    ensures forall k | 0 <= k < |order| :: order[k].id in reports <==> Honoured(order, order[k])
    ensures forall k | 0 <= k < |order| && Honoured(order, order[k]) :: reports[order[k].id] == order[k].raw.parentId.value
    ensures forall id <- reports :: exists k :: 0 <= k < |order| && order[k].id == id
  {
    map k | 0 <= k < |order| && Honoured(order, order[k]) :: order[k].id := order[k].raw.parentId.value
  }

  /** The chain of reports from `id` comes to an end, at `anchor`: the root, or a span that reports none. */
  ghost predicate EndsAt(order: seq<Span>, id: string, anchor: string)
    requires Distinct(order)
  {
    anchor !in Reports(order) && Descends(Reports(order), id, anchor)
  }

  ghost predicate IsAnchored(order: seq<Span>, k: nat, anchor: string)
    requires Distinct(order) && k < |order|
  {
    && EndsAt(order, order[k].id, anchor)
    && (order[k].raw.IsContainer() && anchor != ROOT ==> exists i :: 0 <= i <= k && order[i].id == anchor)
  }

  ghost predicate HasAnchor(order: seq<Span>, k: nat)
    requires Distinct(order) && k < |order|
  {
    exists anchor :: IsAnchored(order, k, anchor)
  }

  /**
   * Every chain of reports ends; and that of a container ends at the root, or at a span placed no
   * later than the container.
   */
  ghost predicate Anchored(order: seq<Span>)
    requires Distinct(order)
  {
    forall k | 0 <= k < |order| :: HasAnchor(order, k)
  }

  lemma ReportIsParent(root: Span, order: seq<Span>, parents: Parents, id: string)
    requires Distinct(order) && Placed(root, order, parents) && id in Reports(order)
    ensures id in parents && parents[id] == Reports(order)[id]
  {
    var k :| 0 <= k < |order| && order[k].id == id;
    assert HasParent(root, order, parents, k);
  }

  /** Reports are followed as they are. */
  lemma {:induction false} ReportsAreFollowed(root: Span, order: seq<Span>, parents: Parents, id: string, n: nat)
    requires Distinct(order) && Placed(root, order, parents) && Up(Reports(order), id, n).Some?
    ensures Up(parents, id, n) == Up(Reports(order), id, n)
  {
    hide Placed, Distinct;
    if n > 0 {
      ReportsAreFollowed(root, order, parents, id, n - 1);
      ReportIsParent(root, order, parents, Up(Reports(order), id, n - 1).value);
    }
  }

  lemma DescendsTwice(parents: Parents, a: string, b: string, c: string)
    requires Descends(parents, a, b) && Descends(parents, b, c)
    ensures Descends(parents, a, c)
  {
    var m: nat :| Up(parents, a, m) == Some(b);
    var n: nat :| Up(parents, b, n) == Some(c);
    UpTwice(parents, a, m, n);
  }

  lemma EndsBelow(order: seq<Span>, id: string, anchor: string)
    requires Distinct(order) && EndsAt(order, id, anchor)
    ensures Descends(Reports(order), id, anchor) && anchor !in Reports(order)
  {
  }

  lemma ReportsDescend(root: Span, order: seq<Span>, parents: Parents, id: string, anchor: string)
    requires Distinct(order) && Placed(root, order, parents) && Descends(Reports(order), id, anchor)
    ensures Descends(parents, id, anchor)
  {
    var n: nat :| Up(Reports(order), id, n) == Some(anchor);
    ReportsAreFollowed(root, order, parents, id, n);
  }

  lemma TightestIsCandidate(placed: seq<Span>, span: Span, best: Span)
    requires IsTightest(placed, span, best)
    ensures IsCandidate(best, span)
  {
  }

  /** A parent that is inferred is the root or a container placed earlier. */
  lemma InferredIsContainer(root: Span, order: seq<Span>, parents: Parents, k: nat) returns (i: nat)
    requires root.id == ROOT && Distinct(order) && Placed(root, order, parents) && k < |order|
    requires !Honoured(order, order[k]) && parents[order[k].id] != ROOT
    ensures i < k && order[i].id == parents[order[k].id] && order[i].raw.IsContainer()
  {
    hide Honoured, IsTightest, IsLatest;
    assert HasParent(root, order, parents, k);
    var placed := [root] + order[..k];
    var best :| best in placed && IsTightest(placed, order[k], best) && parents[order[k].id] == best.id;
    TightestIsCandidate(placed, order[k], best);
    assert best in order[..k];
    i :| 0 <= i < k && order[i] == best;
  }

  /** A span whose chain of reports ends at `order[k]` gets to the root when every container before that one does. */
  lemma AnchorIsRooted(root: Span, order: seq<Span>, parents: Parents, id: string, k: nat)
    requires root.id == ROOT && Distinct(order) && Placed(root, order, parents) && k < |order| && EndsAt(order, id, order[k].id)
    requires forall i | 0 <= i < k && order[i].raw.IsContainer() :: Descends(parents, order[i].id, ROOT)
    ensures Descends(parents, id, ROOT)
  {
    hide Descends, Honoured, IsParent;
    ReportsDescend(root, order, parents, id, order[k].id);
    assert HasParent(root, order, parents, k);
    ParentBelow(parents, order[k].id);
    if parents[order[k].id] != ROOT {
      var i := InferredIsContainer(root, order, parents, k);
      DescendsTwice(parents, order[k].id, order[i].id, ROOT);
    }
    DescendsTwice(parents, id, order[k].id, ROOT);
  }

  lemma AnchorIsKnown(order: seq<Span>, k: nat, anchor: string)
    requires Distinct(order) && k < |order| && EndsAt(order, order[k].id, anchor)
    ensures anchor == ROOT || exists i :: 0 <= i < |order| && order[i].id == anchor
  {
    hide Distinct;
    var n: nat :| Up(Reports(order), order[k].id, n) == Some(anchor);
    if n > 0 {
      var x := Up(Reports(order), order[k].id, n - 1).value;
      var j :| 0 <= j < |order| && order[j].id == x;
      assert Honoured(order, order[j]);
    }
  }

  lemma {:induction false} AnchoredContainers(root: Span, order: seq<Span>, parents: Parents, k: nat)
    requires root.id == ROOT && Distinct(order) && Placed(root, order, parents) && Anchored(order)
    requires k < |order| && order[k].raw.IsContainer()
    ensures Descends(parents, order[k].id, ROOT)
    decreases k
  {
    hide PlacedUpTo, EndsAt, Descends, Distinct;
    assert HasAnchor(order, k);
    var anchor :| IsAnchored(order, k, anchor);
    if anchor == ROOT {
      EndsBelow(order, order[k].id, anchor);
      ReportsDescend(root, order, parents, order[k].id, ROOT);
    } else {
      var i :| 0 <= i <= k && order[i].id == anchor;
      forall j | 0 <= j < i && order[j].raw.IsContainer() ensures Descends(parents, order[j].id, ROOT) {
        AnchoredContainers(root, order, parents, j);
      }
      AnchorIsRooted(root, order, parents, order[k].id, i);
    }
  }

  /** So reported, every span comes out below the root, whatever the windows. */
  lemma AnchoredIsRooted(root: Span, order: seq<Span>, parents: Parents)
    requires root.id == ROOT && Distinct(order) && Placed(root, order, parents) && Anchored(order)
    ensures Rooted(order, parents)
  {
    hide PlacedUpTo, EndsAt, Descends, Distinct;
    forall s | s in order ensures Descends(parents, s.id, ROOT) {
      var k :| 0 <= k < |order| && order[k] == s;
      assert HasAnchor(order, k);
      var anchor :| IsAnchored(order, k, anchor);
      AnchorIsKnown(order, k, anchor);
      if anchor == ROOT {
        EndsBelow(order, order[k].id, anchor);
        ReportsDescend(root, order, parents, order[k].id, ROOT);
      } else {
        var i :| 0 <= i < |order| && order[i].id == anchor;
        forall j | 0 <= j < i && order[j].raw.IsContainer() ensures Descends(parents, order[j].id, ROOT) {
          AnchoredContainers(root, order, parents, j);
        }
        AnchorIsRooted(root, order, parents, order[k].id, i);
      }
    }
  }

  lemma RootReportsNone(order: seq<Span>)
    requires Distinct(order)
    ensures ROOT !in Reports(order)
  {
  }

  /** A chain of reports that never ends never reaches the root, whatever the windows. */
  lemma EndlessIsStray(root: Span, order: seq<Span>, parents: Parents, id: string)
    requires root.id == ROOT && Distinct(order) && Placed(root, order, parents)
    requires forall anchor :: !EndsAt(order, id, anchor)
    ensures !Descends(parents, id, ROOT)
  {
    hide Placed, Distinct;
    forall n: nat ensures Up(parents, id, n) != Some(ROOT) {
      EndlessGoesOn(order, id, n);
      ReportsAreFollowed(root, order, parents, id, n);
      var x := Up(Reports(order), id, n).value;
      RootReportsNone(order);
    }
  }

  lemma {:induction false} EndlessGoesOn(order: seq<Span>, id: string, n: nat)
    requires Distinct(order) && forall anchor :: !EndsAt(order, id, anchor)
    ensures Up(Reports(order), id, n).Some? && Up(Reports(order), id, n).value in Reports(order)
  {
    hide Distinct;
    if n > 0 { EndlessGoesOn(order, id, n - 1); }
    var x := Up(Reports(order), id, n).value;
    assert Descends(Reports(order), id, x);
    assert !EndsAt(order, id, x);
  }

  /** A container is lost when its chain of reports ends at a span that starts in it, and in no container as short. */
  lemma AdoptedAnchorIsStray(root: Span, order: seq<Span>, parents: Parents, k: nat, m: nat)
    requires root.id == ROOT && Distinct(order) && Placed(root, order, parents)
    requires k < m < |order| && EndsAt(order, order[k].id, order[m].id) && IsCandidate(order[k], order[m])
    requires forall c | c in [root] + order[..m] && c != order[k] && IsCandidate(c, order[m]) :: c.raw.duration > order[k].raw.duration
    ensures !Descends(parents, order[k].id, ROOT) && !Descends(parents, order[m].id, ROOT)
  {
    AdoptedBy(root, order, parents, k, m);
    ReportsDescend(root, order, parents, order[k].id, order[m].id);
    RootHasNoParent(root, order, parents);
    hide *;
    MutuallyBelow(parents, order[k].id, order[m].id);
  }

  lemma AdoptedBy(root: Span, order: seq<Span>, parents: Parents, k: nat, m: nat)
    requires Distinct(order) && Placed(root, order, parents)
    requires k < m < |order| && order[m].id !in Reports(order) && IsCandidate(order[k], order[m])
    requires forall c | c in [root] + order[..m] && c != order[k] && IsCandidate(c, order[m]) :: c.raw.duration > order[k].raw.duration
    ensures order[m].id in parents && parents[order[m].id] == order[k].id
  {
    hide IsCandidate, Honoured, IsLatest;
    assert HasParent(root, order, parents, m);
    var placed := [root] + order[..m];
    assert placed[k + 1] == order[k] && order[k] in placed;
    assert IsTightest(placed, order[m], order[k]);
    var best :| best in placed && IsTightest(placed, order[m], best) && parents[order[m].id] == best.id;
    assert best.raw.duration <= order[k].raw.duration;
  }

  /**
   * Nothing else keeps a cycle out: a span that reports no parent, and a container that names it as
   * its own and starts within the tolerance after it, end up below each other, and neither below
   * the root.
   */
  lemma ToleranceClosesACycle()
    ensures var x := Span("x", RawSpan(Some("x"), None, "custom", "step", false, None, 0, 1000), 0);
            var c := Span("c", RawSpan(Some("c"), Some("x"), "custom", "batch", false, Some(true), 300, 500), 1);
            var root := Span(ROOT, RawSpan(None, None, "entrypoint", "GET /", false, None, 0, 10000), -1);
            && PlacingOrder([x, c]) == [c, x]
            && forall parents | Placed(root, [c, x], parents) :: !Descends(parents, "x", ROOT) && !Descends(parents, "c", ROOT)
  {
    var x := Span("x", RawSpan(Some("x"), None, "custom", "step", false, None, 0, 1000), 0);
    var c := Span("c", RawSpan(Some("c"), Some("x"), "custom", "batch", false, Some(true), 300, 500), 1);
    var root := Span(ROOT, RawSpan(None, None, "entrypoint", "GET /", false, None, 0, 10000), -1);
    TwoInOrder(x, c);
    forall parents | Placed(root, [c, x], parents) ensures !Descends(parents, "x", ROOT) && !Descends(parents, "c", ROOT) {
      SecondAdoptsFirst(root, c, x, parents);
    }
  }

  lemma TwoInOrder(a: Span, b: Span)
    requires !Before(Placing, b, a) && !a.raw.IsContainer() && b.raw.IsContainer()
    ensures PlacingOrder([a, b]) == [b, a]
  {
    assert [a, b][..1] == [a] && [a][..0] == [] && [a][1..] == [];
    assert Insert(Placing, [], a) == [a];
    assert Sort(Placing, [a]) == Insert(Placing, Sort(Placing, []), a);
    assert Insert(Placing, [a], b) == [a] + Insert(Placing, [], b);
    var both := [a, b];
    assert Sort(Placing, both) == both;
    assert both[1..] == [b] && [b][1..] == [];
    assert Only([b], true) == [b] + Only([], true) && Only([b], false) == Only([], false);
    assert Only(both, true) == [b] && Only(both, false) == [a] + Only([b], false);
  }

  lemma SecondAdoptsFirst(root: Span, c: Span, x: Span, parents: Parents)
    requires root.id == ROOT && c.id != x.id && c.id != ROOT && x.id != ROOT && Placed(root, [c, x], parents)
    requires Given(c.raw.parentId) == Some(x.id) && Given(x.raw.parentId).None?
    requires IsCandidate(c, x) && c.raw.duration < root.raw.duration
    ensures !Descends(parents, x.id, ROOT) && !Descends(parents, c.id, ROOT)
  {
    var order := [c, x];
    SecondAnchorsFirst(order);
    var placed := [root] + order[..1];
    assert placed == [root, c];
    forall s | s in placed && s != c && IsCandidate(s, x) ensures s.raw.duration > c.raw.duration {
      assert s in [root, c];
    }
    hide *;
    AdoptedAnchorIsStray(root, order, parents, 0, 1);
  }

  lemma SecondAnchorsFirst(order: seq<Span>)
    requires |order| == 2 && Distinct(order)
    requires Given(order[0].raw.parentId) == Some(order[1].id) && Given(order[1].raw.parentId).None?
    ensures EndsAt(order, order[0].id, order[1].id)
  {
    assert order[1] in order;
    var reports := Reports(order);
    assert reports[order[0].id] == order[1].id;
    ParentBelow(reports, order[0].id);
  }

  // ---- Windows that show it when they do not ----

  /** The same spans with the same reports, timed otherwise. */
  ghost predicate TimedOtherwise(order: seq<Span>, order': seq<Span>) {
    |order'| == |order| && forall i | 0 <= i < |order| :: IsRetimed(order[i], order'[i])
  }

  ghost predicate IsRetimed(s: Span, s': Span) {
    s' == s.(raw := s.raw.(startedAt := s'.raw.startedAt, duration := s'.raw.duration))
  }

  function Retimed(s: Span, startedAt: int, duration: nat): Span {
    s.(raw := s.raw.(startedAt := startedAt, duration := duration))
  }

  /** `order[k]` is open when `order[m]` starts, and so is only what lasts longer. */
  function Windowed(order: seq<Span>, k: nat, m: nat): (order': seq<Span>)
    ensures |order'| == |order|
  {
    var long := |order| + 4 * EPSILON;
    seq(|order|, i requires 0 <= i < |order| =>
      if i < k then Retimed(order[i], i, long + 1)
      else if i == k then Retimed(order[i], i, long)
      else if i < m then Retimed(order[i], i, 0)
      else Retimed(order[i], i + 4 * EPSILON, 0))
  }

  /** Each starts after all before it. */
  ghost predicate StartsGrow(spans: seq<Span>) {
    forall i, j | 0 <= i < j < |spans| :: spans[i].raw.startedAt < spans[j].raw.startedAt
  }

  lemma LastStartsLast(spans: seq<Span>)
    requires spans != [] && StartsGrow(spans)
    ensures var n := |spans| - 1;
            StartsGrow(spans[..n]) && (forall s <- spans[..n] :: s.raw.startedAt < spans[n].raw.startedAt) && spans == spans[..n] + [spans[n]]
  {
  }

  lemma {:induction false} SortedStaysSorted(spans: seq<Span>)
    requires StartsGrow(spans)
    ensures Sort(Placing, spans) == spans
  {
    hide StartsGrow, Insert;
    if spans != [] {
      var n := |spans| - 1;
      LastStartsLast(spans);
      SortedStaysSorted(spans[..n]);
      InsertLast(spans[..n], spans[n]);
    }
  }

  lemma {:induction false} InsertLast(spans: seq<Span>, x: Span)
    requires forall s <- spans :: s.raw.startedAt < x.raw.startedAt
    ensures Insert(Placing, spans, x) == spans + [x]
  {
    if spans != [] {
      InsertLast(spans[1..], x);
      assert spans == [spans[0]] + spans[1..];
    }
  }

  lemma {:induction false} OnlyOthers(spans: seq<Span>, containers: bool)
    requires forall s <- spans :: s.raw.IsContainer() == containers
    ensures Only(spans, containers) == spans && Only(spans, !containers) == []
  {
    if spans != [] {
      assert spans == [spans[0]] + spans[1..];
      OnlyOthers(spans[1..], containers);
    }
  }

  lemma {:induction false} SplitStaysSplit(spans: seq<Span>)
    requires forall i, j | 0 <= i < j < |spans| && spans[j].raw.IsContainer() :: spans[i].raw.IsContainer()
    ensures Only(spans, true) + Only(spans, false) == spans
  {
    if spans != [] {
      var rest := spans[1..];
      assert spans == [spans[0]] + rest;
      if spans[0].raw.IsContainer() {
        assert forall j | 0 <= j < |rest| :: rest[j] == spans[j + 1];
        SplitStaysSplit(rest);
      } else {
        OnlyOthers(spans, false);
      }
    }
  }

  lemma WindowedIsPlaced(order: seq<Span>, k: nat, m: nat)
    requires ContainersFirst(order)
    ensures TimedOtherwise(order, Windowed(order, k, m)) && PlacingOrder(Windowed(order, k, m)) == Windowed(order, k, m)
  {
    var order' := Windowed(order, k, m);
    forall i | 0 <= i < |order| ensures order'[i].raw.IsContainer() == order[i].raw.IsContainer() && IsRetimed(order[i], order'[i]) {
    }
    SortedStaysSorted(order');
    SplitStaysSplit(order');
  }

  lemma SameReports(order: seq<Span>, order': seq<Span>)
    requires Distinct(order) && TimedOtherwise(order, order')
    ensures Distinct(order') && Reports(order') == Reports(order)
  {
    forall i | 0 <= i < |order| ensures order[i].id == order'[i].id && order[i].raw.parentId == order'[i].raw.parentId {
      assert IsRetimed(order[i], order'[i]);
    }
    forall id ensures IdTaken(order, id) <==> IdTaken(order', id) {
      if s :| s in order && s.id == id {
        var i :| 0 <= i < |order| && order[i] == s;
        assert order'[i] in order';
      }
      if s :| s in order' && s.id == id {
        var i :| 0 <= i < |order'| && order'[i] == s;
        assert order[i] in order;
      }
    }
  }

  function WideRoot(order: seq<Span>): Span {
    Span(ROOT, RawSpan(None, None, "entrypoint", "", false, None, 0, |order| + 4 * EPSILON + 1), -1)
  }

  /** Badly reported, there are windows for which some span does not come out below the root. */
  lemma UnanchoredIsStray(order: seq<Span>, k: nat) returns (order': seq<Span>, id: string)
    requires Distinct(order) && ContainersFirst(order) && k < |order| && !HasAnchor(order, k)
    ensures TimedOtherwise(order, order') && PlacingOrder(order') == order' && exists s <- order' :: s.id == id
    ensures !Descends(Placement(WideRoot(order), order', |order'|), id, ROOT)
  {
    hide Placed, Distinct, EndsAt, Descends, ContainersFirst, PlacingOrder, Placement, TimedOtherwise;
    var root := WideRoot(order);
    id := order[k].id;
    if anchor :| EndsAt(order, id, anchor) {
      assert !IsAnchored(order, k, anchor);
      AnchorIsKnown(order, k, anchor);
      var m :| 0 <= m < |order| && order[m].id == anchor;
      assert k < m;
      order' := Windowed(order, k, m);
      Placeable(root, order, k, m);
      WindowsAdopt(root, order, k, m);
      assert EndsAt(order', order'[k].id, order'[m].id) by { SameEnds(order, order', id, anchor); }
      AdoptedAnchorIsStray(root, order', Placement(root, order', |order'|), k, m);
    } else {
      order' := Windowed(order, k, k);
      Placeable(root, order, k, k);
      forall anchor ensures !EndsAt(order', id, anchor) {
        assert !EndsAt(order, id, anchor);
        SameEnds(order, order', id, anchor);
      }
      EndlessIsStray(root, order', Placement(root, order', |order'|), id);
    }
    assert order'[k] in order' && order'[k].id == id;
  }

  lemma SameEnds(order: seq<Span>, order': seq<Span>, id: string, anchor: string)
    requires Distinct(order) && TimedOtherwise(order, order')
    ensures Distinct(order') && (EndsAt(order', id, anchor) <==> EndsAt(order, id, anchor))
  {
    SameReports(order, order');
  }

  lemma Placeable(root: Span, order: seq<Span>, k: nat, m: nat)
    requires root.id == ROOT && Distinct(order) && ContainersFirst(order)
    ensures var order' := Windowed(order, k, m);
            && TimedOtherwise(order, order') && PlacingOrder(order') == order'
            && Distinct(order') && Placed(root, order', Placement(root, order', |order'|))
  {
    var order' := Windowed(order, k, m);
    WindowedIsPlaced(order, k, m);
    SameReports(order, order');
    PlacingOrderPlacesAll(order');
    PlacementPlaces(root, order', |order'|);
  }

  lemma WindowsAdopt(root: Span, order: seq<Span>, k: nat, m: nat)
    requires root == WideRoot(order) && Distinct(order) && k < m < |order| && order[k].raw.IsContainer()
    ensures var order' := Windowed(order, k, m);
            && IsCandidate(order'[k], order'[m])
            && forall c | c in [root] + order'[..m] && c != order'[k] && IsCandidate(c, order'[m]) :: c.raw.duration > order'[k].raw.duration
  {
    var order' := Windowed(order, k, m);
    forall c | c in [root] + order'[..m] && c != order'[k] && IsCandidate(c, order'[m]) ensures c.raw.duration > order'[k].raw.duration {
      if c != root {
        var i :| 0 <= i < m && order'[i] == c;
      }
    }
  }

  /**
   * Exactly so reported does every span come out below the root whatever the windows: for any other
   * reports there are windows, in the same placing order, for which one does not.
   */
  lemma RootedIffAnchored(order: seq<Span>)
    requires Distinct(order) && ContainersFirst(order)
    ensures Anchored(order)
            <==> forall root: Span, order' | root.id == ROOT && TimedOtherwise(order, order') && PlacingOrder(order') == order' ::
                   Rooted(order', Placement(root, order', |order'|))
  {
    hide PlacedUpTo, EndsAt, Descends, PlacingOrder, Placement, TimedOtherwise, Distinct, ContainersFirst;
    if Anchored(order) {
      forall root: Span, order' | root.id == ROOT && TimedOtherwise(order, order') && PlacingOrder(order') == order'
        ensures Rooted(order', Placement(root, order', |order'|))
      {
        AnchoredElsewhere(order, order');
        PlacingOrderPlacesAll(order');
        PlacementPlaces(root, order', |order'|);
        AnchoredIsRooted(root, order', Placement(root, order', |order'|));
      }
    } else {
      var k :| 0 <= k < |order| && !HasAnchor(order, k);
      var order', id := UnanchoredIsStray(order, k);
    }
  }

  lemma AnchoredElsewhere(order: seq<Span>, order': seq<Span>)
    requires Distinct(order) && Anchored(order) && TimedOtherwise(order, order')
    ensures Distinct(order') && Anchored(order')
  {
    hide EndsAt;
    SameReports(order, order');
    forall k | 0 <= k < |order'| ensures HasAnchor(order', k) {
      assert IsRetimed(order[k], order'[k]);
      assert HasAnchor(order, k);
      var anchor :| IsAnchored(order, k, anchor);
      SameEnds(order, order', order[k].id, anchor);
      if order[k].raw.IsContainer() && anchor != ROOT {
        var i :| 0 <= i <= k && order[i].id == anchor;
        assert IsRetimed(order[i], order'[i]);
      }
      assert IsAnchored(order', k, anchor);
    }
  }
}
