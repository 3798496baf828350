/**
 * `reconcileWindows` (build-trace.ts): every parent's window is widened, deepest spans first, onto
 * the windows of the spans below it.
 */
module TraceWindows {
  import opened Options

  /** A span as shown. Its window is rewritten in place. */
  class TraceSpan {
    const id: string
    const parentId: Option<string>
    const kind: string
    const title: string
    var startedAt: int
    var duration: int

    constructor (id: string, parentId: Option<string>, kind: string, title: string, startedAt: int, duration: int)
      ensures this.id == id && this.parentId == parentId && this.kind == kind && this.title == title
      ensures this.startedAt == startedAt && this.duration == duration
    {
      this.id, this.parentId, this.kind, this.title := id, parentId, kind, title;
      this.startedAt, this.duration := startedAt, duration;
    }

    function Value(): Window
      reads this
    {
      Window(startedAt, startedAt + duration)
    }
  }

  datatype Window = Window(start: int, end: int) {
    predicate Covers(w: Window) {
      start <= w.start && w.end <= end
    }
  }

  function Union(a: Window, b: Window): Window {
    Window(if b.start < a.start then b.start else a.start, if b.end > a.end then b.end else a.end)
  }

  // ---- Parents by position ----

  type Links = seq<Option<nat>>

  /** Each span's depth under its parents, when they form a forest. */
  ghost predicate IsDepth(parents: Links, depth: seq<nat>) {
    && |depth| == |parents|
    && forall i | 0 <= i < |parents| :: HasDepth(parents, depth, i)
  }

  ghost predicate HasDepth(parents: Links, depth: seq<nat>, i: nat)
    requires i < |parents| == |depth|
  {
    match parents[i]
    case None => depth[i] == 0
    case Some(p) => p < |parents| && depth[i] == depth[p] + 1
  }

  ghost predicate InRange(parents: Links) {
    forall i | 0 <= i < |parents| && parents[i].Some? :: parents[i].value < |parents|
  }

  /** Whether `i` is `ancestor` or sits below it. */
  ghost predicate Below(parents: Links, depth: seq<nat>, i: nat, ancestor: nat)
    requires i < |parents| && IsDepth(parents, depth)
    decreases depth[i]
  {
    assert HasDepth(parents, depth, i);
    i == ancestor || (parents[i].Some? && Below(parents, depth, parents[i].value, ancestor))
  }

  lemma {:induction false} BelowBelow(parents: Links, depth: seq<nat>, i: nat, j: nat, k: nat)
    requires i < |parents| && j < |parents| && IsDepth(parents, depth)
    requires Below(parents, depth, i, j) && Below(parents, depth, j, k)
    ensures Below(parents, depth, i, k)
    decreases depth[i]
  {
    assert HasDepth(parents, depth, i);
    if i != j {
      BelowBelow(parents, depth, parents[i].value, j, k);
    }
  }

  // ---- Depths ----

  ghost function Positions(n: nat): (all: set<nat>)
    ensures forall k: nat :: k in all <==> k < n
  {
    if n == 0 then {} else Positions(n - 1) + {n - 1}
  }

  /** The span `n` steps above `i`, if there are that many. */
  ghost function Above(parents: Links, i: nat, n: nat): (above: Option<nat>)
    requires i < |parents| && InRange(parents)
    ensures above.Some? ==> above.value < |parents|
  {
    if n == 0 then Some(i) else
    match Above(parents, i, n - 1)
    case None => None
    case Some(x) => parents[x]
  }

  /** The `n` steps above `i` all meet spans not met before, and the next meets none or one that was. */
  ghost predicate ClimbsOnce(parents: Links, i: nat, n: nat)
    requires i < |parents| && InRange(parents)
  {
    && MeetsNew(parents, i, n)
    && (Above(parents, i, n + 1).None? || exists m: nat :: m <= n && Above(parents, i, m) == Above(parents, i, n + 1))
  }

  ghost predicate MeetsNew(parents: Links, i: nat, n: nat)
    requires i < |parents| && InRange(parents)
  {
    forall k: nat, m: nat | k < m <= n :: Above(parents, i, m).Some? && Above(parents, i, k) != Above(parents, i, m)
  }

  ghost predicate IsMet(parents: Links, i: nat, n: nat, x: nat)
    requires i < |parents| && InRange(parents)
  {
    exists m: nat :: m <= n && Above(parents, i, m) == Some(x)
  }

  /** After `n` steps up: all that was met, nothing twice, and what comes next. */
  ghost predicate HasClimbed(parents: Links, i: nat, n: nat, seen: set<nat>, next: Option<nat>)
    requires i < |parents| && InRange(parents)
  {
    MeetsNew(parents, i, n) && next == Above(parents, i, n + 1) && forall x :: x in seen <==> IsMet(parents, i, n, x)
  }

  /** On the way to a depth, what was met is deeper than what comes. */
  ghost predicate Descending(parents: Links, depth: seq<nat>, i: nat, n: nat, seen: set<nat>, next: Option<nat>)
    requires i < |parents| && (forall x <- seen :: x < |parents|) && (next.Some? ==> next.value < |parents|)
  {
    IsDepth(parents, depth) ==>
      && depth[i] == n + (if next.Some? then depth[next.value] + 1 else 0)
      && (next.Some? ==> forall s <- seen :: depth[s] > depth[next.value])
  }

  /** The number of ancestors of a span; a cycle is followed once. */
  method DepthOf(parents: Links, i: nat, ghost depth: seq<nat>) returns (d: nat)
    requires i < |parents| && InRange(parents)
    ensures ClimbsOnce(parents, i, d)
    ensures IsDepth(parents, depth) ==> d == depth[i]
  {
    d := 0;
    var current: Option<nat>, seen: set<nat> := parents[i], {i};
    ghost var all := Positions(|parents|);
    ClimbStarts(parents, i);
    assert Descending(parents, depth, i, 0, seen, current) by {
      assert IsDepth(parents, depth) ==> HasDepth(parents, depth, i);
    }
    while current.Some? && current.value !in seen
      invariant seen <= all && (current.Some? ==> current.value < |parents|)
      invariant HasClimbed(parents, i, d, seen, current)
      invariant Descending(parents, depth, i, d, seen, current)
      decreases |all - seen|
    {
      var at := current.value;
      Fewer(all, seen, at);
      OneMoreUp(parents, i, d, seen, at);
      OneLessDeep(parents, depth, i, d, seen, at);
      hide HasClimbed, Descending;
      seen := seen + {at};
      d := d + 1;
      current := parents[at];
    }
    ClimbEnds(parents, i, d, seen, current);
  }

  lemma ClimbStarts(parents: Links, i: nat)
    requires i < |parents| && InRange(parents)
    ensures HasClimbed(parents, i, 0, {i}, parents[i])
  {
    assert Above(parents, i, 0) == Some(i);
    assert IsMet(parents, i, 0, i);
  }

  lemma NotMet(parents: Links, i: nat, n: nat, x: nat, k: nat)
    requires i < |parents| && InRange(parents) && !IsMet(parents, i, n, x) && k <= n
    ensures Above(parents, i, k) != Some(x)
  {
  }

  lemma OneMoreMet(parents: Links, i: nat, n: nat, x: nat)
    requires i < |parents| && InRange(parents)
    ensures IsMet(parents, i, n + 1, x) <==> IsMet(parents, i, n, x) || Above(parents, i, n + 1) == Some(x)
  {
    hide Above;
    if IsMet(parents, i, n, x) {
      var m: nat :| m <= n && Above(parents, i, m) == Some(x);
      assert m <= n + 1;
    }
  }

  lemma MeetsOneMore(parents: Links, i: nat, n: nat, x: nat)
    requires i < |parents| && InRange(parents) && MeetsNew(parents, i, n)
    requires Above(parents, i, n + 1) == Some(x) && !IsMet(parents, i, n, x)
    ensures MeetsNew(parents, i, n + 1)
  {
    forall k: nat, m: nat | k < m <= n + 1 ensures Above(parents, i, m).Some? && Above(parents, i, k) != Above(parents, i, m) {
      if m == n + 1 { NotMet(parents, i, n, x, k); }
    }
  }

  lemma OneMoreUp(parents: Links, i: nat, d: nat, seen: set<nat>, at: nat)
    requires i < |parents| && InRange(parents) && HasClimbed(parents, i, d, seen, Some(at)) && at !in seen
    ensures at < |parents| && HasClimbed(parents, i, d + 1, seen + {at}, parents[at])
  {
    assert !IsMet(parents, i, d, at);
    MeetsOneMore(parents, i, d, at);
    forall x ensures x in seen + {at} <==> IsMet(parents, i, d + 1, x) {
      OneMoreMet(parents, i, d, x);
    }
    assert Above(parents, i, d + 2) == parents[at];
  }

  lemma OneLessDeep(parents: Links, depth: seq<nat>, i: nat, d: nat, seen: set<nat>, at: nat)
    requires i < |parents| && InRange(parents) && at < |parents| && forall x <- seen :: x < |parents|
    requires Descending(parents, depth, i, d, seen, Some(at))
    ensures Descending(parents, depth, i, d + 1, seen + {at}, parents[at])
  {
    assert IsDepth(parents, depth) ==> HasDepth(parents, depth, at);
  }

  lemma ClimbEnds(parents: Links, i: nat, d: nat, seen: set<nat>, next: Option<nat>)
    requires i < |parents| && InRange(parents) && HasClimbed(parents, i, d, seen, next)
    requires next.Some? ==> next.value in seen
    ensures ClimbsOnce(parents, i, d)
  {
    if next.Some? { assert IsMet(parents, i, d, next.value); }
  }

  lemma Fewer(all: set<nat>, seen: set<nat>, x: nat)
    requires x in all && x !in seen
    ensures |all - (seen + {x})| < |all - seen|
  {
    assert all - seen == (all - (seen + {x})) + {x};
  }

  method Depths(parents: Links, ghost depth: seq<nat>) returns (ds: seq<nat>)
    requires InRange(parents)
    ensures |ds| == |parents| && (IsDepth(parents, depth) ==> ds == depth)
  {
    ds := [];
    for i := 0 to |parents|
      invariant |ds| == i && (IsDepth(parents, depth) ==> ds == depth[..i])
    {
      var d := DepthOf(parents, i, depth);
      ds := ds + [d];
    }
  }

  function DepthAt(ds: seq<nat>, i: nat): nat {
    if i < |ds| then ds[i] else 0
  }

  /** Deepest first, as they came on ties. */
  function DeepestFirst(ds: seq<nat>, n: nat): seq<nat> {
    if n == 0 then [] else InsertDeep(ds, DeepestFirst(ds, n - 1), n - 1)
  }

  function InsertDeep(ds: seq<nat>, order: seq<nat>, x: nat): seq<nat> {
    if order == [] || DepthAt(ds, order[0]) < DepthAt(ds, x) then [x] + order
    else [order[0]] + InsertDeep(ds, order[1..], x)
  }

  ghost predicate Deepest(ds: seq<nat>, order: seq<nat>) {
    order == [] || ((forall i <- order[1..] :: DepthAt(ds, i) <= DepthAt(ds, order[0])) && Deepest(ds, order[1..]))
  }

  lemma {:induction false} InsertDeepOrders(ds: seq<nat>, order: seq<nat>, x: nat)
    requires Deepest(ds, order)
    ensures Deepest(ds, InsertDeep(ds, order, x)) && multiset(InsertDeep(ds, order, x)) == multiset(order) + multiset{x}
  {
    assert order != [] ==> order == [order[0]] + order[1..];
    if order == [] || DepthAt(ds, order[0]) < DepthAt(ds, x) {
      assert ([x] + order)[1..] == order;
    } else {
      InsertDeepOrders(ds, order[1..], x);
      var rest := InsertDeep(ds, order[1..], x);
      assert ([order[0]] + rest)[1..] == rest;
      forall i <- rest ensures DepthAt(ds, i) <= DepthAt(ds, order[0]) {
        assert i in multiset(order[1..]) + multiset{x};
      }
    }
  }

  /** Every position below `n` appears once. */
  ghost predicate Once(order: seq<nat>, n: nat) {
    forall i: nat :: multiset(order)[i] == if i < n then 1 else 0
  }

  lemma NoneYet(ds: seq<nat>)
    ensures Deepest(ds, []) && Once([], 0)
  {
  }

  lemma OnceMore(order: seq<nat>, order': seq<nat>, n: nat)
    requires Once(order, n) && multiset(order') == multiset(order) + multiset{n}
    ensures Once(order', n + 1)
  {
  }

  lemma {:induction false} DeepestFirstOrders(ds: seq<nat>, n: nat)
    ensures Deepest(ds, DeepestFirst(ds, n)) && Once(DeepestFirst(ds, n), n)
  {
    hide InsertDeep, Deepest, Once;
    NoneYet(ds);
    if n > 0 {
      var before := DeepestFirst(ds, n - 1);
      DeepestFirstOrders(ds, n - 1);
      var last: nat := n - 1;
      InsertDeepOrders(ds, before, last);
      OnceMore(before, InsertDeep(ds, before, last), last);
    }
  }

  lemma {:induction false} DeepestAt(ds: seq<nat>, order: seq<nat>, i: nat, j: nat)
    requires Deepest(ds, order) && i <= j < |order|
    ensures DepthAt(ds, order[j]) <= DepthAt(ds, order[i])
  {
    if i == 0 {
      assert j > 0 ==> order[1..][j - 1] in order[1..];
    } else {
      DeepestAt(ds, order[1..], i - 1, j - 1);
    }
  }

  // ---- The pass ----

  ghost function Windows(spans: seq<TraceSpan>): (ws: seq<Window>)
    reads spans
    ensures |ws| == |spans| && forall i | 0 <= i < |spans| :: ws[i] == spans[i].Value()
  {
    seq(|spans|, i requires 0 <= i < |spans| reads spans => spans[i].Value())
  }

  /** Windows are only ever widened. */
  ghost predicate Widened(before: seq<Window>, after: seq<Window>) {
    |before| == |after| && forall i | 0 <= i < |before| :: after[i].Covers(before[i])
  }

  /** Both ends of a window are those of some span below it. */
  ghost predicate IsTight(parents: Links, depth: seq<nat>, before: seq<Window>, i: nat, w: Window)
    requires i < |parents| == |before| && IsDepth(parents, depth)
  {
    && (exists d :: 0 <= d < |parents| && Below(parents, depth, d, i) && before[d].start == w.start)
    && (exists d :: 0 <= d < |parents| && Below(parents, depth, d, i) && before[d].end == w.end)
  }

  ghost predicate AllTight(parents: Links, depth: seq<nat>, before: seq<Window>, after: seq<Window>)
    requires |parents| == |before| == |after| && IsDepth(parents, depth)
  {
    forall i | 0 <= i < |parents| :: IsTight(parents, depth, before, i, after[i])
  }

  /** The spans of a prefix of the order are covered by their parents. */
  ghost predicate Covered(parents: Links, order: seq<nat>, k: nat, after: seq<Window>)
    requires k <= |order| && |after| == |parents|
  {
    forall j | 0 <= j < k :: IsCovered(parents, order[j], after)
  }

  ghost predicate IsCovered(parents: Links, x: nat, after: seq<Window>)
    requires |after| == |parents|
  {
    x < |parents| && parents[x].Some? && parents[x].value < |parents| ==> after[parents[x].value].Covers(after[x])
  }

  /** Widening a parent onto one child moves no window already covered. */
  lemma StepCovers(parents: Links, depth: seq<nat>, order: seq<nat>, k: nat, ws: seq<Window>, p: nat)
    requires IsDepth(parents, depth) && Deepest(depth, order) && k < |order| && |ws| == |parents|
    requires order[k] < |parents| && parents[order[k]] == Some(p) && p < |parents| && Covered(parents, order, k, ws)
    ensures Covered(parents, order, k + 1, ws[p := Union(ws[p], ws[order[k]])])
  {
    assert HasDepth(parents, depth, order[k]);
    forall j | 0 <= j <= k ensures IsCovered(parents, order[j], ws[p := Union(ws[p], ws[order[k]])]) {
      DeepestAt(depth, order, j, k);
      assert j < k ==> IsCovered(parents, order[j], ws);
    }
  }

  lemma StepIsTight(parents: Links, depth: seq<nat>, before: seq<Window>, ws: seq<Window>, x: nat, p: nat)
    requires |parents| == |before| == |ws| && IsDepth(parents, depth) && AllTight(parents, depth, before, ws)
    requires x < |parents| && parents[x] == Some(p) && p < |parents|
    ensures AllTight(parents, depth, before, ws[p := Union(ws[p], ws[x])])
  {
    assert IsTight(parents, depth, before, x, ws[x]) && IsTight(parents, depth, before, p, ws[p]);
    assert HasDepth(parents, depth, x) && Below(parents, depth, p, p) && Below(parents, depth, x, p);
    var s :| 0 <= s < |parents| && Below(parents, depth, s, x) && before[s].start == ws[x].start;
    var e :| 0 <= e < |parents| && Below(parents, depth, e, x) && before[e].end == ws[x].end;
    BelowBelow(parents, depth, s, x, p);
    BelowBelow(parents, depth, e, x, p);
    assert IsTight(parents, depth, before, p, Union(ws[p], ws[x]));
  }

  method Widen(spans: seq<TraceSpan>, parent: nat, child: nat)
    requires parent < |spans| && child < |spans| && forall i, j | 0 <= i < j < |spans| :: spans[i] != spans[j]
    modifies spans[parent]
    ensures Windows(spans) == old(Windows(spans))[parent := Union(old(spans[parent].Value()), old(spans[child].Value()))]
  {
    var p, s := spans[parent], spans[child];
    var start := if s.startedAt < p.startedAt then s.startedAt else p.startedAt;
    var end := if s.startedAt + s.duration > p.startedAt + p.duration then s.startedAt + s.duration else p.startedAt + p.duration;
    p.startedAt := start;
    p.duration := end - start;
  }

  /** What the pass does to the windows of a forest: each becomes the tightest that covers its subtree. */
  ghost predicate Reconciled(parents: Links, depth: seq<nat>, before: seq<Window>, after: seq<Window>)
    requires |parents| == |before| == |after| && IsDepth(parents, depth)
  {
    && AllTight(parents, depth, before, after)
    && forall d, i | 0 <= d < |parents| && 0 <= i < |parents| && Below(parents, depth, d, i) :: after[i].Covers(before[d]) && after[i].Covers(after[d])
  }

  /** The state of the pass after `k` spans; what it says of a forest holds only of one. */
  ghost predicate Pass(parents: Links, depth: seq<nat>, order: seq<nat>, k: nat, before: seq<Window>, ws: seq<Window>)
    requires k <= |order| && |parents| == |before| == |ws|
  {
    && Widened(before, ws)
    && (IsDepth(parents, depth) ==> AllTight(parents, depth, before, ws) && Covered(parents, order, k, ws))
  }

  lemma PassStep(parents: Links, depth: seq<nat>, order: seq<nat>, k: nat, before: seq<Window>, ws: seq<Window>, p: nat)
    requires k < |order| && |parents| == |before| == |ws| && Pass(parents, depth, order, k, before, ws)
    requires order[k] < |parents| && parents[order[k]] == Some(p) && p < |parents|
    requires IsDepth(parents, depth) ==> Deepest(depth, order)
    ensures Pass(parents, depth, order, k + 1, before, ws[p := Union(ws[p], ws[order[k]])])
  {
    if IsDepth(parents, depth) {
      StepCovers(parents, depth, order, k, ws, p);
      StepIsTight(parents, depth, before, ws, order[k], p);
    }
  }

  method Reconcile(spans: seq<TraceSpan>, parents: Links, ghost depth: seq<nat>)
    requires |parents| == |spans| && InRange(parents) && forall i, j | 0 <= i < j < |spans| :: spans[i] != spans[j]
    modifies spans
    ensures Widened(old(Windows(spans)), Windows(spans))
    ensures IsDepth(parents, depth) ==> Reconciled(parents, depth, old(Windows(spans)), Windows(spans))
  {
    hide Deepest, IsDepth, IsTight, Below, Reconciled, IsCovered;
    var ds := Depths(parents, depth);
    var order := DeepestFirst(ds, |spans|);
    DeepestFirstOrders(ds, |spans|);
    ghost var before := Windows(spans);
    if IsDepth(parents, depth) { TightAtFirst(parents, depth, before); }
    for k := 0 to |order|
      invariant Pass(parents, depth, order, k, before, Windows(spans))
    {
      var x := order[k];
      assert x in multiset(order);
      if parents[x].Some? {
        PassStep(parents, depth, order, k, before, Windows(spans), parents[x].value);
        Widen(spans, parents[x].value, x);
      } else {
        NothingToWiden(parents, depth, order, k, before, Windows(spans));
      }
    }
    if IsDepth(parents, depth) { CoveredCoversAll(parents, depth, order, before, Windows(spans)); }
  }

  lemma NothingToWiden(parents: Links, depth: seq<nat>, order: seq<nat>, k: nat, before: seq<Window>, ws: seq<Window>)
    requires k < |order| && |parents| == |before| == |ws| && Pass(parents, depth, order, k, before, ws)
    requires order[k] < |parents| && parents[order[k]].None?
    ensures Pass(parents, depth, order, k + 1, before, ws)
  {
  }

  lemma TightAtFirst(parents: Links, depth: seq<nat>, ws: seq<Window>)
    requires |parents| == |ws| && IsDepth(parents, depth)
    ensures AllTight(parents, depth, ws, ws)
  {
    forall i | 0 <= i < |parents| ensures IsTight(parents, depth, ws, i, ws[i]) {
      assert Below(parents, depth, i, i);
    }
  }

  lemma CoveredCoversAll(parents: Links, depth: seq<nat>, order: seq<nat>, before: seq<Window>, after: seq<Window>)
    requires |parents| == |before| == |after| && IsDepth(parents, depth) && Widened(before, after)
    requires Covered(parents, order, |order|, after) && AllTight(parents, depth, before, after)
    requires Once(order, |parents|)
    ensures Reconciled(parents, depth, before, after)
  {
    hide Covered, Once, IsCovered, Below, IsDepth, Widened, IsTight;
    EachIsCovered(parents, order, after);
    forall d, i | 0 <= d < |parents| && 0 <= i < |parents| && Below(parents, depth, d, i)
      ensures after[i].Covers(before[d]) && after[i].Covers(after[d])
    {
      BelowIsCovered(parents, depth, after, d, i);
      WidenedAt(before, after, d);
    }
  }

  lemma WidenedAt(before: seq<Window>, after: seq<Window>, d: nat)
    requires |before| == |after| && Widened(before, after) && d < |before|
    ensures after[d].Covers(before[d])
  {
  }

  lemma EachIsCovered(parents: Links, order: seq<nat>, ws: seq<Window>)
    requires |parents| == |ws| && Covered(parents, order, |order|, ws) && Once(order, |parents|)
    ensures forall x: nat | x < |parents| :: IsCovered(parents, x, ws)
  {
    forall x: nat | x < |parents| ensures IsCovered(parents, x, ws) {
      assert x in multiset(order);
      var j :| 0 <= j < |order| && order[j] == x;
    }
  }

  lemma {:induction false} BelowIsCovered(parents: Links, depth: seq<nat>, after: seq<Window>, d: nat, i: nat)
    requires |parents| == |after| && IsDepth(parents, depth) && d < |parents| && i < |parents| && Below(parents, depth, d, i)
    requires forall x: nat | x < |parents| :: IsCovered(parents, x, after)
    ensures after[i].Covers(after[d])
    decreases depth[d]
  {
    assert HasDepth(parents, depth, d);
    if d != i {
      assert IsCovered(parents, d, after);
      BelowIsCovered(parents, depth, after, parents[d].value, i);
    }
  }
}
