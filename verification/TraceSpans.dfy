/**
 * The spans `buildTrace` (build-trace.ts) assembles: what a producer reports, the id each one is
 * given, and the orders they are placed and shown in. Times are whole microseconds, the precision
 * every reading is rounded to.
 */
module TraceSpans {
  import opened Decimals
  import opened Options

  const ROOT := "root"

  /** Tolerance, half a millisecond, when testing containment. */
  const EPSILON := 500

  const CONTAINER_KINDS := {"entrypoint", "graphql-field"}

  /** A span as reported: `id` and `parentId` when the producer knows them, `container` when it says so. */
  datatype RawSpan = RawSpan(
    id: Option<string>,
    parentId: Option<string>,
    kind: string,
    title: string,
    lifecycle: bool,
    container: Option<bool>,
    startedAt: int,
    duration: int)
  {
    function End(): int {
      startedAt + duration
    }

    /** Whether the span may adopt others by time; the lifecycle band never does. */
    predicate IsContainer() {
      !lifecycle && container.GetOr(kind in CONTAINER_KINDS)
    }

    /** Whether `child` starts inside this span's window. */
    predicate Contains(child: RawSpan) {
      startedAt - EPSILON <= child.startedAt <= End() + EPSILON
    }
  }

  /** A span with its id; `order` grows with the order of emission. */
  datatype Span = Span(id: string, raw: RawSpan, order: int)

  /** An id or parent id that is absent or empty counts for nothing. */
  function Given(id: Option<string>): Option<string> {
    if id == Some("") then None else id
  }

  // ---- Ids ----

  function Synthetic(kind: string, n: nat): string {
    kind + "-" + Decimal(n)
  }

  lemma SyntheticIsInjective(kind: string, m: nat, n: nat)
    requires Synthetic(kind, m) == Synthetic(kind, n)
    ensures m == n
  {
    var k := |kind| + 1;
    assert Decimal(m) == Synthetic(kind, m)[k..] && Decimal(n) == Synthetic(kind, n)[k..];
    DecimalIsInjective(m, n);
  }

  ghost predicate IdTaken(spans: seq<Span>, id: string) {
    id == ROOT || exists s <- spans :: s.id == id
  }

  /** Whether span `i` keeps the id it reports: the first to report it does. */
  ghost predicate KeepsId(spans: seq<Span>, raw: seq<RawSpan>, i: nat)
    requires i < |raw| && i <= |spans|
  {
    Given(raw[i].id).Some? && !IdTaken(spans[..i], raw[i].id.value)
  }

  /** The first number not used up when span `i` is given its own. */
  ghost function NextOrder(spans: seq<Span>, i: nat): int
    requires i <= |spans|
  {
    if i == 0 then 0 else spans[i - 1].order + 1
  }

  /** A number that is the next, or for a span without an id the next that makes one nobody has. */
  ghost predicate IsIdentified(spans: seq<Span>, raw: seq<RawSpan>, i: nat)
    requires i < |raw| && i < |spans|
  {
    && spans[i].raw == raw[i] && !IdTaken(spans[..i], spans[i].id)
    && (KeepsId(spans, raw, i) ==> spans[i].id == raw[i].id.value && spans[i].order == NextOrder(spans, i))
    && (!KeepsId(spans, raw, i) ==>
          && 0 <= NextOrder(spans, i) <= spans[i].order
          && spans[i].id == raw[i].kind + "-" + Decimal(spans[i].order)
          && forall m: nat | NextOrder(spans, i) <= m < spans[i].order :: IdTaken(spans[..i], Synthetic(raw[i].kind, m)))
  }

  ghost predicate Identified(spans: seq<Span>, raw: seq<RawSpan>) {
    && |spans| == |raw|
    && (forall i | 0 <= i < |raw| :: IsIdentified(spans, raw, i))
    && (forall i | 0 <= i < |raw| :: spans[i].order >= 0)
  }

  /** The ids `kind-n`, `n` from `counter` on, that are used: there are fewer as `counter` grows. */
  ghost function Ahead(used: set<string>, kind: string, counter: nat): set<string> {
    set id <- used | IsAhead(id, kind, counter)
  }

  ghost predicate IsAhead(id: string, kind: string, counter: nat) {
    exists n: nat :: n >= counter && id == Synthetic(kind, n)
  }

  lemma AheadShrinks(used: set<string>, kind: string, counter: nat)
    requires Synthetic(kind, counter) in used
    ensures |Ahead(used, kind, counter + 1)| < |Ahead(used, kind, counter)|
  {
    var id := Synthetic(kind, counter);
    var now, next := Ahead(used, kind, counter), Ahead(used, kind, counter + 1);
    assert IsAhead(id, kind, counter);
    if id in next {
      var n: nat :| n >= counter + 1 && id == Synthetic(kind, n);
      SyntheticIsInjective(kind, n, counter);
    }
    assert next <= now - {id} by {
      forall other | other in next ensures IsAhead(other, kind, counter) {
      }
    }
    Subset(next, now - {id});
  }

  lemma Subset<T>(a: set<T>, b: set<T>)
    requires a <= b
    ensures |a| <= |b|
  {
    if a != b {
      var rest := b - a;
      assert b == a + rest;
    }
  }

  method FreshId(used: set<string>, kind: string, start: nat) returns (id: string, counter: nat)
    ensures id !in used && counter >= start && id == Synthetic(kind, counter)
    ensures forall m: nat | start <= m < counter :: Synthetic(kind, m) in used
  {
    counter := start;
    id := Synthetic(kind, counter);
    while id in used
      invariant counter >= start && id == Synthetic(kind, counter)
      invariant forall m: nat | start <= m < counter :: Synthetic(kind, m) in used
      decreases |Ahead(used, kind, counter)|
    {
      AheadShrinks(used, kind, counter);
      counter := counter + 1;
      id := Synthetic(kind, counter);
    }
  }

  lemma OneMoreIdentified(spans: seq<Span>, raw: seq<RawSpan>, span: Span)
    requires Identified(spans, raw) && span.order >= 0 && IsIdentified(spans + [span], raw + [span.raw], |spans|)
    ensures Identified(spans + [span], raw + [span.raw])
  {
    var spans', raw' := spans + [span], raw + [span.raw];
    forall i | 0 <= i < |raw'| ensures IsIdentified(spans', raw', i) && spans'[i].order >= 0 {
      if i < |raw| {
        assert IsIdentified(spans, raw, i);
        assert spans'[..i] == spans[..i] && NextOrder(spans', i) == NextOrder(spans, i);
      }
    }
  }

  /** The id and number of one more span. */
  method IdFor(used: set<string>, span: RawSpan, next: nat) returns (id: string, order: nat)
    ensures id !in used && next <= order
    ensures Given(span.id).Some? && span.id.value !in used ==> id == span.id.value && order == next
    ensures !(Given(span.id).Some? && span.id.value !in used) ==>
              id == Synthetic(span.kind, order) && forall m: nat | next <= m < order :: Synthetic(span.kind, m) in used
  {
    id, order := span.id.GetOr(""), next;
    if id == "" || id in used {
      id, order := FreshId(used, span.kind, next);
    }
  }

  method Identify(raw: seq<RawSpan>) returns (spans: seq<Span>)
    ensures Identified(spans, raw)
  {
    var used, counter: nat := {ROOT}, 0;
    spans := [];
    for i := 0 to |raw|
      invariant |spans| == i && counter == NextOrder(spans, i) && Identified(spans, raw[..i])
      invariant forall id :: id in used <==> IdTaken(spans, id)
    {
      var id, order := IdFor(used, raw[i], counter);
      assert raw[..i + 1] == raw[..i] + [raw[i]];
      LastIdentified(spans, raw[..i], Span(id, raw[i], order), counter);
      OneMoreIdentified(spans, raw[..i], Span(id, raw[i], order));
      OneMoreTaken(spans, Span(id, raw[i], order));
      hide Identified, IdTaken, IsIdentified, Synthetic;
      used := used + {id};
      spans := spans + [Span(id, raw[i], order)];
      counter := order + 1;
    }
    assert raw[..|raw|] == raw;
  }

  lemma LastIdentified(spans: seq<Span>, raw: seq<RawSpan>, span: Span, next: int)
    requires |spans| == |raw| && next == NextOrder(spans, |spans|) && 0 <= next <= span.order && !IdTaken(spans, span.id)
    requires Given(span.raw.id).Some? && !IdTaken(spans, span.raw.id.value) ==> span.id == span.raw.id.value && span.order == next
    requires !(Given(span.raw.id).Some? && !IdTaken(spans, span.raw.id.value)) ==>
               && span.id == Synthetic(span.raw.kind, span.order)
               && forall m: nat | next <= m < span.order :: IdTaken(spans, Synthetic(span.raw.kind, m))
    ensures IsIdentified(spans + [span], raw + [span.raw], |spans|)
  {
    hide IdTaken, Given;
    assert (spans + [span])[..|spans|] == spans;
  }

  lemma OneMoreTaken(spans: seq<Span>, span: Span)
    ensures forall id :: IdTaken(spans + [span], id) <==> IdTaken(spans, id) || id == span.id
  {
    assert span in spans + [span];
  }

  lemma IdsAreDistinct(spans: seq<Span>, raw: seq<RawSpan>)
    requires Identified(spans, raw)
    ensures forall i, j | 0 <= i < j < |spans| :: spans[i].id != spans[j].id
    ensures forall s <- spans :: s.id != ROOT
  {
    forall i | 0 <= i < |spans| ensures !IdTaken(spans[..i], spans[i].id) {
      assert IsIdentified(spans, raw, i);
    }
    forall i, j | 0 <= i < j < |spans| ensures spans[i].id != spans[j].id {
      assert spans[..j][i] == spans[i];
    }
  }

  /** Spans are numbered in the order they were reported. */
  lemma {:induction false} NumbersGrow(spans: seq<Span>, raw: seq<RawSpan>, i: nat, j: nat)
    requires Identified(spans, raw) && i < j < |spans|
    ensures spans[i].order < spans[j].order
    decreases j
  {
    assert IsIdentified(spans, raw, j);
    if i < j - 1 { NumbersGrow(spans, raw, i, j - 1); }
  }
}
