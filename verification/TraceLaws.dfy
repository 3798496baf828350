/**
 * The order and the parents `buildTrace` (build-trace.ts) gives, in terms of the fields producers
 * report alone.
 */
module TraceLaws {
  import opened Options
  import opened TraceSpans
  import opened TraceTree

  // ---- Who adopts by time ----

  /** Outside the lifecycle band, a span that says it is a container, or says nothing and is an entrypoint or a GraphQL field. */
  predicate Adopts(s: RawSpan) {
    && !s.lifecycle
    && (s.container == Some(true) || (s.container == None && (s.kind == "entrypoint" || s.kind == "graphql-field")))
  }

  /** Within half a millisecond, `child` starts while `s` is open. */
  predicate IsOpenAt(s: RawSpan, child: RawSpan) {
    s.startedAt - 500 <= child.startedAt <= s.startedAt + s.duration + 500
  }

  predicate MayAdopt(c: Span, s: Span) {
    c.id != s.id && Adopts(c.raw) && IsOpenAt(c.raw, s.raw)
  }

  lemma AdoptsIsContainer(s: RawSpan)
    ensures s.IsContainer() <==> Adopts(s)
  {
  }

  lemma MayAdoptIsCandidate(c: Span, s: Span)
    ensures IsCandidate(c, s) <==> MayAdopt(c, s)
  {
  }

  /** A span names its parent when it reports another span of the trace, or the root. */
  ghost predicate NamesParent(order: seq<Span>, s: Span) {
    && s.raw.parentId.Some? && s.raw.parentId.value != "" && s.raw.parentId.value != s.id
    && (s.raw.parentId.value == "root" || exists t <- order :: t.id == s.raw.parentId.value)
  }

  lemma NamedIsHonoured(order: seq<Span>, s: Span)
    ensures Honoured(order, s) <==> NamesParent(order, s)
  {
  }

  /** The parent time gives: of those placed before that may adopt the span a shortest, and of the shortest a latest; else the root. */
  ghost predicate IsInferred(placed: seq<Span>, s: Span, parent: string) {
    if exists c <- placed :: MayAdopt(c, s) then exists best <- placed :: IsBest(placed, s, best) && parent == best.id
    else parent == "root"
  }

  ghost predicate IsBest(placed: seq<Span>, s: Span, best: Span) {
    && MayAdopt(best, s)
    && forall c <- placed | MayAdopt(c, s) ::
         && best.raw.duration <= c.raw.duration
         && (c.raw.duration == best.raw.duration && c.id != "root" && best.id != "root" ==> c.raw.startedAt <= best.raw.startedAt)
  }

  lemma BestIsTightest(placed: seq<Span>, s: Span, best: Span)
    requires IsTightest(placed, s, best) && IsLatest(placed, s, best)
    ensures IsBest(placed, s, best) && best in placed
  {
    forall c: Span ensures IsCandidate(c, s) <==> MayAdopt(c, s) { MayAdoptIsCandidate(c, s); }
    hide IsCandidate, MayAdopt;
  }

  /** In every placement, a parent named is the parent, and any other is inferred from what was placed before. */
  lemma ParentsAre(root: Span, order: seq<Span>, k: nat)
    requires root.id == ROOT && Distinct(order) && ContainersFirst(order) && k < |order|
    ensures var parents, s := Placement(root, order, |order|), order[k];
            && s.id in parents
            && (NamesParent(order, s) ==> parents[s.id] == s.raw.parentId.value)
            && (!NamesParent(order, s) ==> IsInferred([root] + order[..k], s, parents[s.id]))
  {
    hide Distinct, ContainersFirst, Placement, Honoured, NamesParent, IsTightest, IsLatest, IsBest;
    PlacementPlaces(root, order, |order|);
    assert HasParent(root, order, Placement(root, order, |order|), k);
    NamedIsHonoured(order, order[k]);
    if !NamesParent(order, order[k]) {
      InferredIs(order, [root] + order[..k], order[k], Placement(root, order, |order|)[order[k].id]);
    }
  }

  lemma InferredIs(order: seq<Span>, placed: seq<Span>, s: Span, parent: string)
    requires IsParent(order, placed, s, parent) && !Honoured(order, s)
    ensures IsInferred(placed, s, parent)
  {
    if exists best <- placed :: IsTightest(placed, s, best) {
      var best :| best in placed && IsTightest(placed, s, best) && IsLatest(placed, s, best) && parent == best.id;
      BestIsTightest(placed, s, best);
    } else if exists c <- placed :: MayAdopt(c, s) {
      var c :| c in placed && MayAdopt(c, s);
      SomeTightest(placed, s, c);
    }
  }

  /** Among candidates there is a shortest. */
  lemma {:induction false} SomeTightest(placed: seq<Span>, s: Span, c: Span)
    requires c in placed && MayAdopt(c, s)
    ensures exists best <- placed :: IsTightest(placed, s, best)
  {
    var n := |placed| - 1;
    var before, last := placed[..n], placed[n];
    assert placed == before + [last];
    MayAdoptIsCandidate(c, s);
    if exists d <- before :: MayAdopt(d, s) {
      var d :| d in before && MayAdopt(d, s);
      SomeTightest(before, s, d);
      var best :| best in before && IsTightest(before, s, best);
      assert IsTightest(placed, s, if IsCandidate(last, s) && last.raw.duration < best.raw.duration then last else best);
    } else {
      forall d <- before ensures !IsCandidate(d, s) { MayAdoptIsCandidate(d, s); }
      assert IsTightest(placed, s, last);
    }
  }

  /** A span of the lifecycle band, one that says it is no container, or one of any other kind that says nothing, is never inferred. */
  lemma OthersNeverAdopt(root: Span, order: seq<Span>, k: nat, i: nat)
    requires root.id == ROOT && Distinct(order) && ContainersFirst(order) && k < |order| && i < |order|
    requires !NamesParent(order, order[k])
    requires order[i].raw.lifecycle || order[i].raw.container == Some(false)
             || (order[i].raw.container == None && order[i].raw.kind != "entrypoint" && order[i].raw.kind != "graphql-field")
    ensures order[k].id in Placement(root, order, |order|) && Placement(root, order, |order|)[order[k].id] != order[i].id
  {
    var placed := [root] + order[..k];
    ParentsAre(root, order, k);
    forall c <- placed | c.id == order[i].id ensures !MayAdopt(c, order[k]) {
      if c != root {
        var j :| 0 <= j < k && order[j] == c;
        assert j == i;
      }
    }
  }

  // ---- The orders ----

  /** Placed before: containers first; of either kind the earlier, of two that start together the longer, then the first reported. */
  predicate PlacedBefore(a: Span, b: Span) {
    if Adopts(a.raw) != Adopts(b.raw) then Adopts(a.raw)
    else if a.raw.startedAt != b.raw.startedAt then a.raw.startedAt < b.raw.startedAt
    else if a.raw.duration != b.raw.duration then a.raw.duration > b.raw.duration
    else a.order <= b.order
  }

  lemma NotBeforeIsPlacedBefore(a: Span, b: Span)
    requires a.raw.IsContainer() == b.raw.IsContainer() && !Before(Placing, b, a)
    ensures PlacedBefore(a, b)
  {
  }

  lemma ContainerIsPlacedBefore(a: Span, b: Span)
    requires a.raw.IsContainer() && !b.raw.IsContainer()
    ensures PlacedBefore(a, b)
  {
  }

  /** One kind, sorted. */
  lemma OnlyIsPlacedBefore(spans: seq<Span>, containers: bool, i: nat, j: nat)
    requires Sorted(Placing, spans) && i < j < |Only(spans, containers)|
    ensures PlacedBefore(Only(spans, containers)[i], Only(spans, containers)[j])
  {
    var only := Only(spans, containers);
    OnlyAre(spans, containers);
    assert only[i] in only && only[j] in only;
    hide Only, Before, PlacedBefore;
    SortedAt(Placing, only, i, j);
    NotBeforeIsPlacedBefore(only[i], only[j]);
  }

  lemma PlacingOrderIs(spans: seq<Span>, i: nat, j: nat)
    requires i < j < |PlacingOrder(spans)|
    ensures PlacedBefore(PlacingOrder(spans)[i], PlacingOrder(spans)[j])
  {
    var byStart, order := Sort(Placing, spans), PlacingOrder(spans);
    var first, second := Only(byStart, true), Only(byStart, false);
    SortSorts(Placing, spans);
    assert order == first + second;
    hide Sort, Only, Sorted, PlacedBefore, PlacingOrder;
    if j < |first| {
      OnlyIsPlacedBefore(byStart, true, i, j);
    } else if i >= |first| {
      OnlyIsPlacedBefore(byStart, false, i - |first|, j - |first|);
    } else {
      OnlyAre(byStart, true);
      OnlyAre(byStart, false);
      assert first[i] in first && second[j - |first|] in second;
      ContainerIsPlacedBefore(first[i], second[j - |first|]);
    }
  }

  /** Shown: the earlier, then the first reported. */
  lemma ShownOrderIs(spans: seq<Span>, i: nat, j: nat)
    requires i < j < |Sort(Showing, spans)|
    ensures var a, b := Sort(Showing, spans)[i], Sort(Showing, spans)[j];
            a.raw.startedAt < b.raw.startedAt || (a.raw.startedAt == b.raw.startedAt && a.order <= b.order)
  {
    SortSorts(Showing, spans);
    SortedAt(Showing, Sort(Showing, spans), i, j);
  }

  /** Of two containers that start together the longer is placed first, so time never puts it below the shorter. */
  lemma LongerIsNeverBelow(root: Span, spans: seq<Span>, a: Span, b: Span)
    requires root.id == ROOT && Distinct(PlacingOrder(spans)) && a in PlacingOrder(spans) && b in PlacingOrder(spans)
    requires Adopts(a.raw) && Adopts(b.raw) && a.raw.startedAt == b.raw.startedAt && a.raw.duration > b.raw.duration
    requires !NamesParent(PlacingOrder(spans), a)
    ensures var order := PlacingOrder(spans);
            a.id in Placement(root, order, |order|) && Placement(root, order, |order|)[a.id] != b.id
  {
    var order := PlacingOrder(spans);
    PlacingOrderPlacesAll(spans);
    hide PlacingOrder, Placement, ContainersFirst, NamesParent;
    var k :| 0 <= k < |order| && order[k] == a;
    var i :| 0 <= i < |order| && order[i] == b;
    if i < k { PlacingOrderIs(spans, i, k); }
    ParentsAre(root, order, k);
    forall c <- [root] + order[..k] ensures c.id != b.id {
      if c != root { var j :| 0 <= j < k && order[j] == c; }
    }
  }
}
