/**
 * `buildTrace` (build-trace.ts) from reported spans to the trace shown: ids, parents, order and
 * windows together.
 */
module BuildTrace {
  import opened Options
  import opened TraceReports
  import opened TraceSpans
  import opened TraceTree
  import opened TraceWindows

  /** The window a span was reported with. */
  function Reported(s: Span): Window {
    Window(s.raw.startedAt, s.raw.End())
  }

  /** The root lasts as long as the entrypoint did, or as its spans were observed to; never less than nothing. */
  ghost predicate IsRoot(root: Span, title: string, startTime: int, duration: Option<int>, raw: seq<RawSpan>) {
    && root.id == ROOT && root.raw.kind == "entrypoint" && root.raw.title == title && root.raw.IsContainer()
    && root.raw.startedAt == startTime && root.raw.duration >= 0
    && (duration.Some? ==> root.raw.duration == if duration.value >= 0 then duration.value else 0)
    && (duration.None? ==>
          && (forall s <- raw :: s.End() <= root.raw.End())
          && (root.raw.duration == 0 || exists s <- raw :: s.End() == root.raw.End()))
  }

  method RootSpan(title: string, startTime: int, duration: Option<int>, raw: seq<RawSpan>) returns (root: Span)
    ensures IsRoot(root, title, startTime, duration, raw)
  {
    var observedEnd := startTime;
    for i := 0 to |raw|
      invariant observedEnd >= startTime && forall s <- raw[..i] :: s.End() <= observedEnd
      invariant observedEnd == startTime || exists s <- raw[..i] :: s.End() == observedEnd
    {
      assert raw[..i + 1] == raw[..i] + [raw[i]];
      if raw[i].End() > observedEnd { observedEnd := raw[i].End(); }
    }
    assert raw[..|raw|] == raw;
    var rootDuration := duration.GetOr(observedEnd - startTime);
    root := Span(ROOT, RawSpan(None, None, "entrypoint", title, false, None, startTime, if rootDuration > 0 then rootDuration else 0), -1);
  }

  /** The root first, then every span, earliest first, under its parent. */
  ghost predicate Shows(trace: seq<TraceSpan>, root: Span, shown: seq<Span>, parents: Parents) {
    && |trace| == |shown| + 1
    && trace[0].id == ROOT && trace[0].parentId == None && trace[0].kind == root.raw.kind && trace[0].title == root.raw.title
    && (forall i, j | 0 <= i < j < |trace| :: trace[i] != trace[j])
    && forall i | 0 <= i < |shown| ::
         && shown[i].id in parents && trace[i + 1].parentId == Some(parents[shown[i].id])
         && trace[i + 1].id == shown[i].id && trace[i + 1].kind == shown[i].raw.kind && trace[i + 1].title == shown[i].raw.title
  }

  ghost function ReportedWindows(root: Span, shown: seq<Span>): seq<Window> {
    [Reported(root)] + seq(|shown|, i requires 0 <= i < |shown| => Reported(shown[i]))
  }

  method Show(root: Span, shown: seq<Span>, parents: Parents) returns (trace: seq<TraceSpan>)
    requires root.id == ROOT && forall s <- shown :: s.id in parents
    ensures Shows(trace, root, shown, parents) && fresh(trace)
    ensures Windows(trace) == ReportedWindows(root, shown)
  {
    var first := new TraceSpan(ROOT, None, root.raw.kind, root.raw.title, root.raw.startedAt, root.raw.duration);
    trace := [first];
    for i := 0 to |shown|
      invariant Shows(trace, root, shown[..i], parents) && fresh(trace)
      invariant forall j | 0 <= j <= i :: trace[j].Value() == ReportedWindows(root, shown)[j]
    {
      var s := shown[i];
      var span := new TraceSpan(s.id, Some(parents[s.id]), s.raw.kind, s.raw.title, s.raw.startedAt, s.raw.duration);
      trace := trace + [span];
    }
    assert shown[..|shown|] == shown;
  }

  /** Each span's parent, by position. */
  ghost predicate Resolved(trace: seq<TraceSpan>, links: Links) {
    && |links| == |trace|
    && forall i | 0 <= i < |trace| ::
         match links[i]
         case Some(p) => p < |trace| && trace[i].parentId == Some(trace[p].id)
         case None => trace[i].parentId.Some? ==> forall p | 0 <= p < |trace| :: trace[p].id != trace[i].parentId.value
  }

  method Resolve(trace: seq<TraceSpan>) returns (links: Links)
    ensures Resolved(trace, links)
  {
    var byId: map<string, nat> := map[];
    for i := 0 to |trace|
      invariant forall id <- byId :: byId[id] < i && trace[byId[id]].id == id
      invariant forall p | 0 <= p < i :: trace[p].id in byId
    {
      byId := byId[trace[i].id := i];
    }
    links := [];
    for i := 0 to |trace|
      invariant |links| == i
      invariant forall j | 0 <= j < i ::
                  links[j] == if trace[j].parentId.Some? && trace[j].parentId.value in byId then Some(byId[trace[j].parentId.value]) else None
    {
      var parentId := trace[i].parentId;
      links := links + [if parentId.Some? && parentId.value in byId then Some(byId[parentId.value]) else None];
    }
  }

  // ---- Descent by id and by position ----

  /** How many steps up the root is. */
  ghost function Height(parents: Parents, id: string): (n: nat)
    requires Descends(parents, id, ROOT)
    ensures Up(parents, id, n) == Some(ROOT)
  {
    var n: nat :| Up(parents, id, n) == Some(ROOT);
    n
  }

  lemma HeightIsUnique(parents: Parents, id: string, n: nat)
    requires ROOT !in parents && Up(parents, id, n) == Some(ROOT)
    ensures Descends(parents, id, ROOT) && Height(parents, id) == n
  {
    var m := Height(parents, id);
    if m < n { NoneStays(parents, id, m + 1, n); }
    if n < m { NoneStays(parents, id, n + 1, m); }
  }

  /** Every id of the trace leads to the root, and no id is shown twice. */
  ghost predicate IsTree(trace: seq<TraceSpan>, parents: Parents) {
    && ROOT !in parents
    && trace != [] && trace[0].id == ROOT && trace[0].parentId == None
    && (forall i, j | 0 <= i < j < |trace| :: trace[i].id != trace[j].id)
    && forall i | 0 <= i < |trace| :: IsNode(trace, parents, i)
  }

  ghost predicate IsNode(trace: seq<TraceSpan>, parents: Parents, i: nat)
    requires i < |trace|
  {
    && Descends(parents, trace[i].id, ROOT)
    && (i > 0 ==> trace[i].id in parents && trace[i].parentId == Some(parents[trace[i].id])
                  && exists p :: 0 <= p < |trace| && trace[p].id == parents[trace[i].id])
  }

  ghost function Heights(trace: seq<TraceSpan>, parents: Parents): (depth: seq<nat>)
    requires IsTree(trace, parents)
    ensures |depth| == |trace|
  {
    seq(|trace|, i requires 0 <= i < |trace| =>
      assert IsNode(trace, parents, i);
      Height(parents, trace[i].id))
  }

  lemma LinkUp(trace: seq<TraceSpan>, parents: Parents, links: Links, i: nat)
    requires IsTree(trace, parents) && Resolved(trace, links) && i < |trace|
    ensures if i == 0 then links[i] == None
            else links[i].Some? && links[i].value < |trace| && Up(parents, trace[i].id, 1) == Some(trace[links[i].value].id)
  {
    assert IsNode(trace, parents, i);
  }

  lemma HeightsAreDepths(trace: seq<TraceSpan>, parents: Parents, links: Links)
    requires IsTree(trace, parents) && Resolved(trace, links)
    ensures IsDepth(links, Heights(trace, parents))
  {
    var depth := Heights(trace, parents);
    forall i | 0 <= i < |links| ensures HasDepth(links, depth, i) {
      LinkUp(trace, parents, links, i);
      if i == 0 {
        HeightIsUnique(parents, ROOT, 0);
      } else {
        var p := links[i].value;
        assert IsNode(trace, parents, p);
        UpTwice(parents, trace[i].id, 1, Height(parents, trace[p].id));
        HeightIsUnique(parents, trace[i].id, 1 + Height(parents, trace[p].id));
      }
    }
  }

  lemma {:induction false} BelowDescends(trace: seq<TraceSpan>, parents: Parents, links: Links, i: nat, a: nat)
    requires IsTree(trace, parents) && Resolved(trace, links) && i < |trace| && a < |trace|
    requires IsDepth(links, Heights(trace, parents)) && Below(links, Heights(trace, parents), i, a)
    ensures Descends(parents, trace[i].id, trace[a].id)
    decreases Heights(trace, parents)[i]
  {
    if i == a {
      assert Up(parents, trace[i].id, 0) == Some(trace[a].id);
    } else {
      LinkUp(trace, parents, links, i);
      assert HasDepth(links, Heights(trace, parents), i);
      var p := links[i].value;
      BelowDescends(trace, parents, links, p, a);
      var n: nat :| Up(parents, trace[p].id, n) == Some(trace[a].id);
      UpTwice(parents, trace[i].id, 1, n);
      assert Up(parents, trace[i].id, 1 + n) == Some(trace[a].id);
    }
  }

  lemma {:induction false} DescendsBelow(trace: seq<TraceSpan>, parents: Parents, links: Links, i: nat, a: nat, n: nat)
    requires IsTree(trace, parents) && Resolved(trace, links) && i < |trace| && a < |trace|
    requires IsDepth(links, Heights(trace, parents)) && Up(parents, trace[i].id, n) == Some(trace[a].id)
    ensures Below(links, Heights(trace, parents), i, a)
    decreases n
  {
    if n > 0 && i != a {
      LinkUp(trace, parents, links, i);
      if i == 0 {
        NoneStays(parents, ROOT, 1, n);
      } else {
        UpTwice(parents, trace[i].id, 1, n - 1);
        DescendsBelow(trace, parents, links, links[i].value, a, n - 1);
        assert HasDepth(links, Heights(trace, parents), i);
      }
    }
  }

  /** Every window is the tightest that covers, as reported, the span and all that descends from it. */
  ghost predicate Enclosed(ids: seq<string>, parents: Parents, reported: seq<Window>, shown: seq<Window>)
    requires |ids| == |reported| == |shown|
  {
    && (forall d, i | 0 <= d < |ids| && 0 <= i < |ids| && Descends(parents, ids[d], ids[i]) ::
          shown[i].Covers(reported[d]) && shown[i].Covers(shown[d]))
    && (forall i | 0 <= i < |ids| :: IsReported(ids, parents, reported, i, shown[i]))
  }

  ghost predicate IsReported(ids: seq<string>, parents: Parents, reported: seq<Window>, i: nat, w: Window)
    requires i < |ids| == |reported|
  {
    && (exists d :: 0 <= d < |ids| && Descends(parents, ids[d], ids[i]) && reported[d].start == w.start)
    && (exists d :: 0 <= d < |ids| && Descends(parents, ids[d], ids[i]) && reported[d].end == w.end)
  }

  ghost function Ids(trace: seq<TraceSpan>): (ids: seq<string>)
    ensures |ids| == |trace|
  {
    seq(|trace|, i requires 0 <= i < |trace| => trace[i].id)
  }

  lemma DescendantIsCovered(trace: seq<TraceSpan>, parents: Parents, links: Links, reported: seq<Window>, shown: seq<Window>,
                            d: nat, i: nat)
    requires IsTree(trace, parents) && Resolved(trace, links) && |trace| == |reported| == |shown|
    requires IsDepth(links, Heights(trace, parents)) && Reconciled(links, Heights(trace, parents), reported, shown)
    requires d < |trace| && i < |trace| && Descends(parents, trace[d].id, trace[i].id)
    ensures shown[i].Covers(reported[d]) && shown[i].Covers(shown[d])
  {
    hide IsTree, Resolved, AllTight;
    var n: nat :| Up(parents, trace[d].id, n) == Some(trace[i].id);
    DescendsBelow(trace, parents, links, d, i, n);
  }

  lemma WindowIsReported(trace: seq<TraceSpan>, parents: Parents, links: Links, reported: seq<Window>, i: nat, w: Window)
    requires IsTree(trace, parents) && Resolved(trace, links) && |trace| == |reported| && i < |trace|
    requires IsDepth(links, Heights(trace, parents)) && IsTight(links, Heights(trace, parents), reported, i, w)
    ensures IsReported(Ids(trace), parents, reported, i, w)
  {
    hide IsTree, Resolved, Descends, Below;
    var depth := Heights(trace, parents);
    var s :| 0 <= s < |links| && Below(links, depth, s, i) && reported[s].start == w.start;
    var e :| 0 <= e < |links| && Below(links, depth, e, i) && reported[e].end == w.end;
    BelowDescends(trace, parents, links, s, i);
    BelowDescends(trace, parents, links, e, i);
  }

  lemma ReconciledEncloses(trace: seq<TraceSpan>, parents: Parents, links: Links, reported: seq<Window>, shown: seq<Window>)
    requires IsTree(trace, parents) && Resolved(trace, links) && |trace| == |reported| == |shown|
    requires IsDepth(links, Heights(trace, parents)) && Reconciled(links, Heights(trace, parents), reported, shown)
    ensures Enclosed(Ids(trace), parents, reported, shown)
  {
    hide IsTree, IsDepth, Descends, IsTight, IsReported;
    var ids := Ids(trace);
    forall d, i | 0 <= d < |ids| && 0 <= i < |ids| && Descends(parents, ids[d], ids[i])
      ensures shown[i].Covers(reported[d]) && shown[i].Covers(shown[d])
    {
      DescendantIsCovered(trace, parents, links, reported, shown, d, i);
    }
    forall i | 0 <= i < |ids| ensures IsReported(ids, parents, reported, i, shown[i]) {
      WindowIsReported(trace, parents, links, reported, i, shown[i]);
    }
  }

  // ---- All together ----

  lemma ShownParentIsShown(trace: seq<TraceSpan>, root: Span, order: seq<Span>, shown: seq<Span>, parents: Parents, i: nat)
    requires root.id == ROOT && Placed(root, order, parents) && multiset(order) == multiset(shown)
    requires Shows(trace, root, shown, parents) && i < |shown|
    ensures exists p :: 0 <= p < |trace| && trace[p].id == parents[shown[i].id]
  {
    hide PlacedUpTo;
    var parent := parents[shown[i].id];
    ParentIsKnown(root, order, parents, shown[i].id);
    if parent == ROOT {
      assert trace[0].id == parent;
    } else {
      var s :| s in order && s.id == parent;
      assert s in multiset(order);
      assert s in shown;
      var p :| 0 <= p < |shown| && shown[p] == s;
      assert trace[p + 1].id == parent;
    }
  }

  lemma ShownDescends(root: Span, order: seq<Span>, shown: seq<Span>, parents: Parents, i: nat)
    requires Rooted(order, parents) && multiset(order) == multiset(shown) && i < |shown|
    ensures Descends(parents, shown[i].id, ROOT)
  {
    hide Descends;
    assert shown[i] in multiset(shown);
    assert shown[i] in order;
  }

  lemma ShownIsNode(trace: seq<TraceSpan>, root: Span, order: seq<Span>, shown: seq<Span>, parents: Parents, i: nat)
    requires root.id == ROOT && Placed(root, order, parents) && Rooted(order, parents)
    requires Shows(trace, root, shown, parents) && multiset(order) == multiset(shown) && i < |trace|
    ensures IsNode(trace, parents, i)
  {
    hide Descends, Rooted, PlacedUpTo;
    if i == 0 {
      RootIsItsOwn(parents);
    } else {
      assert shown[i - 1].id in parents && trace[i].id == shown[i - 1].id;
      ShownDescends(root, order, shown, parents, i - 1);
      ShownParentIsShown(trace, root, order, shown, parents, i - 1);
    }
  }

  lemma ShowsATree(trace: seq<TraceSpan>, root: Span, raw: seq<RawSpan>, spans: seq<Span>, parents: Parents)
    requires root.id == ROOT && Identified(spans, raw) && Placed(root, PlacingOrder(spans), parents)
    requires Shows(trace, root, Sort(Showing, spans), parents) && Rooted(PlacingOrder(spans), parents)
    ensures IsTree(trace, parents)
  {
    hide Rooted, Identified, HasParent, IsNode;
    var order, shown := PlacingOrder(spans), Sort(Showing, spans);
    SortedIdsAreDistinct(spans, raw);
    forall i | 0 <= i < |trace| ensures IsNode(trace, parents, i) {
      ShownIsNode(trace, root, order, shown, parents, i);
    }
    forall i, j | 0 <= i < j < |trace| ensures trace[i].id != trace[j].id {
      assert trace[j].id == shown[j - 1].id && (i > 0 ==> trace[i].id == shown[i - 1].id);
    }
    forall s <- order ensures s.id != ROOT {
      var k :| 0 <= k < |order| && order[k] == s;
    }
  }

  lemma RootIsItsOwn(parents: Parents)
    ensures Descends(parents, ROOT, ROOT)
  {
    assert Up(parents, ROOT, 0) == Some(ROOT);
  }

  /** Sorting shows and places the same spans, each with its own id. */
  lemma SortedIdsAreDistinct(spans: seq<Span>, raw: seq<RawSpan>)
    requires Identified(spans, raw)
    ensures Distinct(Sort(Showing, spans)) && Distinct(PlacingOrder(spans))
    ensures multiset(Sort(Showing, spans)) == multiset(PlacingOrder(spans)) == multiset(spans)
  {
    IdsAreDistinct(spans, raw);
    SortSorts(Showing, spans);
    PlacingOrderPlacesAll(spans);
    SameSpansAreDistinct(spans, Sort(Showing, spans));
    SameSpansAreDistinct(spans, PlacingOrder(spans));
  }

  lemma SameSpansAreDistinct(spans: seq<Span>, order: seq<Span>)
    requires Distinct(spans) && multiset(order) == multiset(spans)
    ensures Distinct(order)
  {
    forall i | 0 <= i < |order| ensures order[i].id != ROOT {
      assert order[i] in multiset(order);
      assert order[i] in spans;
    }
    forall i, j | 0 <= i < j < |order| ensures order[i].id != order[j].id {
      if order[i].id == order[j].id {
        assert order[i] in multiset(spans) && order[j] in multiset(spans);
        assert order[i] in spans && order[j] in spans;
        assert order[i] == order[j];
        TwiceIsTwo(order, i, j);
        OnceIsOne(spans, order[i]);
      }
    }
  }

  lemma TwiceIsTwo(order: seq<Span>, i: nat, j: nat)
    requires i < j < |order| && order[i] == order[j]
    ensures multiset(order)[order[i]] >= 2
  {
    assert order == order[..j] + [order[j]] + order[j + 1..];
    assert order[i] in order[..j];
  }

  lemma {:induction false} OnceIsOne(spans: seq<Span>, s: Span)
    requires Distinct(spans)
    ensures multiset(spans)[s] <= 1
  {
    if spans != [] {
      var n := |spans| - 1;
      OnceIsOne(spans[..n], s);
      assert spans == spans[..n] + [spans[n]];
    }
  }

  /**
   * The trace holds the root and every span reported, each once and under an id of its own, earliest
   * first. Windows are only widened; when every span descends from the root, each becomes the
   * tightest around all that descends from it.
   */
  method BuildTrace(title: string, startTime: int, duration: Option<int>, raw: seq<RawSpan>)
    returns (trace: seq<TraceSpan>, ghost root: Span, ghost spans: seq<Span>, ghost parents: Parents)
    ensures IsRoot(root, title, startTime, duration, raw) && fresh(trace)
    ensures Identified(spans, raw) && parents == Placement(root, PlacingOrder(spans), |PlacingOrder(spans)|)
    ensures Distinct(PlacingOrder(spans)) && (Anchored(PlacingOrder(spans)) ==> Rooted(PlacingOrder(spans), parents))
    ensures Shows(trace, root, Sort(Showing, spans), parents)
    ensures Sorted(Showing, Sort(Showing, spans)) && multiset(Sort(Showing, spans)) == multiset(spans)
    ensures Widened(ReportedWindows(root, Sort(Showing, spans)), Windows(trace))
    ensures Rooted(PlacingOrder(spans), parents) ==>
              Enclosed(Ids(trace), parents, ReportedWindows(root, Sort(Showing, spans)), Windows(trace))
  {
    hide Identified, IsTree, Enclosed, Sorted, Rooted, Anchored, PlacedUpTo, Distinct, Reconciled, IsDepth, ContainersFirst;
    var top := RootSpan(title, startTime, duration, raw);
    var identified := Identify(raw);
    var order, shown := PlacingOrder(identified), Sort(Showing, identified);
    PlacingOrderPlacesAll(identified);
    SortSorts(Showing, identified);
    SortedIdsAreDistinct(identified, raw);
    var placed := Place(top, order);
    PlacementPlaces(top, order, |order|);
    if Anchored(order) { AnchoredIsRooted(top, order, placed); }
    EverySpanIsPlaced(top, identified, order, shown, placed);
    trace := Show(top, shown, placed);
    root, spans, parents := top, identified, placed;
    var links := Resolve(trace);
    ghost var depth := [];
    if Rooted(order, placed) {
      ShowsATree(trace, top, raw, identified, placed);
      HeightsAreDepths(trace, placed, links);
      depth := Heights(trace, placed);
    }
    ResolvedInRange(trace, links);
    Reconcile(trace, links, depth);
    if Rooted(order, placed) {
      ReconciledEncloses(trace, placed, links, ReportedWindows(top, shown), Windows(trace));
    }
  }

  lemma EverySpanIsPlaced(root: Span, spans: seq<Span>, order: seq<Span>, shown: seq<Span>, parents: Parents)
    requires Placed(root, order, parents) && multiset(order) == multiset(spans) == multiset(shown)
    ensures forall s <- shown :: s.id in parents
  {
    forall s <- shown ensures s.id in parents {
      assert s in multiset(order);
      assert s in order;
    }
  }

  lemma ResolvedInRange(trace: seq<TraceSpan>, links: Links)
    requires Resolved(trace, links)
    ensures InRange(links)
  {
  }
}
