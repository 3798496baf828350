/**
 * The structure `shapeKey` hashes (mongoose-schema.collector.ts): what an embedded document holds,
 * relative to where it is embedded. The digest itself is left out; shapes are compared before it.
 */
module SchemaShapes {
  import opened Dotted
  import opened Options
  import opened SchemaSpec

  datatype Shape = Shape(
    name: string,
    typeName: string,
    required: bool,
    target: Option<string>,
    embedded: Option<Embedding>,
    children: seq<Shape>)

  /** `path.slice(n)`. */
  function Slice(s: string, n: nat): string {
    if n <= |s| then s[n..] else ""
  }

  function TargetOf(ref: Option<Ref>): Option<string> {
    if ref.Some? then Some(ref.value.target) else None
  }

  /** `describe`, over the children found under `prefix`. */
  function Describe(fields: seq<Field>, prefix: string): (shapes: seq<Shape>)
    ensures |shapes| == |fields|
    ensures forall i | 0 <= i < |fields| :: shapes[i] == DescribeField(fields[i], prefix)
    decreases fields, 0
  {
    if fields == [] then [] else [DescribeField(fields[0], prefix)] + Describe(fields[1..], prefix)
  }

  function DescribeField(f: Field, prefix: string): Shape
    decreases f, 1
  {
    Shape(Slice(f.path, |prefix|), f.typeName, f.required, TargetOf(f.ref), f.embedded, ShapeOf(f))
  }

  /** The structure hashed for a field. */
  function ShapeOf(f: Field): seq<Shape>
    decreases f, 0
  {
    Describe(f.children, f.path + ".")
  }

  /** Two documents hold the same: same relative names, types, requiredness, targets and nesting, throughout. */
  ghost predicate SameContents(a: seq<Field>, p: string, b: seq<Field>, q: string)
    decreases a
  {
    && |a| == |b|
    && forall i | 0 <= i < |a| ::
         && Slice(a[i].path, |p|) == Slice(b[i].path, |q|)
         && a[i].typeName == b[i].typeName && a[i].required == b[i].required && a[i].embedded == b[i].embedded
         && TargetOf(a[i].ref) == TargetOf(b[i].ref)
         && SameContents(a[i].children, a[i].path + ".", b[i].children, b[i].path + ".")
  }

  /** Two shapes are equal exactly when the documents hold the same. */
  lemma {:induction false} ShapesAreContents(a: seq<Field>, p: string, b: seq<Field>, q: string)
    ensures Describe(a, p) == Describe(b, q) <==> SameContents(a, p, b, q)
    decreases a
  {
    if |a| == |b| {
      forall i | 0 <= i < |a|
        ensures ShapeOf(a[i]) == ShapeOf(b[i])
                <==> SameContents(a[i].children, a[i].path + ".", b[i].children, b[i].path + ".")
      {
        ShapesAreContents(a[i].children, a[i].path + ".", b[i].children, b[i].path + ".");
      }
      if Describe(a, p) == Describe(b, q) {
        forall i | 0 <= i < |a| ensures DescribeField(a[i], p) == DescribeField(b[i], q) {
          assert Describe(a, p)[i] == Describe(b, q)[i];
        }
      }
    }
  }

  // ---- A shape does not depend on where it is embedded ----

  /** The paths of one schema, or of two that declare the same, expanded under two prefixes. */
  ghost predicate Alike(es: seq<Entry>, prefix: string, es': seq<Entry>, prefix': string) {
    |es| == |es'| && forall i | 0 <= i < |es| :: AlikeEntry(es[i], prefix, es'[i], prefix')
  }

  ghost predicate AlikeEntry(e: Entry, prefix: string, e': Entry, prefix': string) {
    && e.segments == e'.segments
    && e.field.path == prefix + Join(e.segments) && e'.field.path == prefix' + Join(e.segments)
    && e.field.typeName == e'.field.typeName && e.field.required == e'.field.required
    && TargetOf(e.field.ref) == TargetOf(e'.field.ref) && e.field.embedded == e'.field.embedded
    && ShapeOf(e.field) == ShapeOf(e'.field)
  }

  lemma {:induction false} AlikeKids(es: seq<Entry>, es': seq<Entry>, p: seq<string>)
    requires |es| == |es'| && forall i | 0 <= i < |es| :: es[i].segments == es'[i].segments
    ensures Kids(es, p) == Kids(es', p) && Height(es) == Height(es')
  {
    if es != [] {
      AlikeKids(es[..|es| - 1], es'[..|es| - 1], p);
    }
  }

  /** Where the children of prefix `p` start. */
  ghost function BaseOf(prefix: string, p: seq<string>): string {
    if p == [] then prefix else prefix + Join(p) + "."
  }

  lemma {:induction false} SubtreesAreAlike(es: seq<Entry>, prefix: string, es': seq<Entry>, prefix': string, p: seq<string>)
    requires Alike(es, prefix, es', prefix')
    ensures Describe(Subtree(es, p, prefix), BaseOf(prefix, p)) == Describe(Subtree(es', p, prefix'), BaseOf(prefix', p))
    decreases Height(es) - |p|
  {
    AlikeKids(es, es', p);
    var items := Kids(es, p);
    var a, b := Subtree(es, p, prefix), Subtree(es', p, prefix');
    forall i | 0 <= i < |items|
      ensures DescribeField(a[i], BaseOf(prefix, p)) == DescribeField(b[i], BaseOf(prefix', p))
    {
      SubtreeAt(es, p, prefix, i);
      SubtreeAt(es', p, prefix', i);
      match items[i]
      case Leaf(n) =>
        assert AlikeEntry(es[n], prefix, es'[n], prefix');
        SliceRelocated(prefix, prefix', p, es[n].segments);
      case Object(q) =>
        SubtreesAreAlike(es, prefix, es', prefix', q);
        SliceRelocated(prefix, prefix', p, q);
        assert BaseOf(prefix, q) == prefix + Join(q) + "." && BaseOf(prefix', q) == prefix' + Join(q) + ".";
    }
  }

  lemma SliceRelocated(prefix: string, prefix': string, p: seq<string>, q: seq<string>)
    ensures Slice(prefix + Join(q), |BaseOf(prefix, p)|) == Slice(prefix' + Join(q), |BaseOf(prefix', p)|)
  {
    var rest := if p == [] then "" else Join(p) + ".";
    assert BaseOf(prefix, p) == prefix + rest && BaseOf(prefix', p) == prefix' + rest;
    if |rest| <= |Join(q)| {
      assert (prefix + Join(q))[|prefix| + |rest|..] == Join(q)[|rest|..];
      assert (prefix' + Join(q))[|prefix'| + |rest|..] == Join(q)[|rest|..];
    }
  }

  // ---- Schemas that declare the same ----

  /** One embedded document or an array of them, of a type, required or not, referring to something: all that is shown but its name. */
  predicate DeclareAlike(t: PathType, t': PathType) {
    && t.TypeName() == t'.TypeName() && t.isRequired == t'.isRequired
    && TargetOf(t.Relation()) == TargetOf(t'.Relation())
    && t.schema.Some? == t'.schema.Some?
  }

  type Twins = set<(SchemaId, SchemaId)>

  /**
   * Pairs of schemas whose paths agree one by one, in name and in all that is shown of them, and
   * embed pairs again: a schema and itself, or one built afresh from the same declarations.
   */
  ghost predicate AreTwins(g: Graph, twins: Twins) {
    forall p <- twins :: p.0 in g && p.1 in g && AgreeThroughout(g, twins, p.0, p.1)
  }

  ghost predicate AgreeThroughout(g: Graph, twins: Twins, s: SchemaId, s': SchemaId)
    requires s in g && s' in g
  {
    |g[s]| == |g[s']| && forall i | 0 <= i < |g[s]| :: AgreeAt(g, twins, s, s', i)
  }

  ghost predicate AgreeAt(g: Graph, twins: Twins, s: SchemaId, s': SchemaId, i: nat)
    requires s in g && s' in g && i < |g[s]| == |g[s']|
  {
    var (key, t), (key', t') := g[s][i], g[s'][i];
    key == key' && DeclareAlike(t, t') && (t.schema.Some? ==> (t.schema.value, t'.schema.value) in twins)
  }

  lemma TwinsAgreeAt(g: Graph, twins: Twins, s: SchemaId, s': SchemaId, i: nat)
    requires AreTwins(g, twins) && (s, s') in twins && s in g && i < |g[s]|
    ensures s' in g && i < |g[s']| && |g[s]| == |g[s']| && AgreeAt(g, twins, s, s', i)
  {
    assert AgreeThroughout(g, twins, (s, s').0, (s, s').1);
  }

  // ---- Ways down ----

  /** A way down from a schema: at each, the position of a path that embeds the next. */
  ghost predicate IsWay(g: Graph, s: SchemaId, way: seq<nat>)
    requires Closed(g) && s in g
    decreases |way|
  {
    way == [] || (Embeds(g, s, way[0]) && IsWay(g, EmbeddedAt(g, s, way[0]), way[1..]))
  }

  predicate Embeds(g: Graph, s: SchemaId, i: nat)
    requires s in g
  {
    i < |g[s]| && g[s][i].1.schema.Some?
  }

  function EmbeddedAt(g: Graph, s: SchemaId, i: nat): (e: SchemaId)
    requires Closed(g) && s in g && Embeds(g, s, i)
    ensures e in g
  {
    g[s][i].1.schema.value
  }

  /** The schemas met on a way down, the first included. */
  ghost function Met(g: Graph, s: SchemaId, way: seq<nat>): (met: seq<SchemaId>)
    requires Closed(g) && s in g && IsWay(g, s, way)
    ensures |met| == |way| + 1 && forall x <- met :: x in g
    decreases |way|
  {
    [s] + if way == [] then [] else Met(g, EmbeddedAt(g, s, way[0]), way[1..])
  }

  /** A way down that ends at a schema with paths to show. */
  ghost predicate IsShown(g: Graph, s: SchemaId, way: seq<nat>)
    requires Closed(g) && s in g
  {
    IsWay(g, s, way) && g[Met(g, s, way)[|way|]] != []
  }

  /** Whether the guard lets the expansion go all the way: no schema met twice or already an ancestor, none too deep. */
  ghost predicate IsEntered(met: seq<SchemaId>, ancestors: set<SchemaId>) {
    && (forall i, j | 0 <= i < j < |met| :: met[i] != met[j])
    && (forall i | 0 <= i < |met| :: met[i] !in ancestors)
    && |ancestors| + |met| <= MAX_DEPTH
  }

  /** The guard cuts alike: every way to a schema with paths is entered in both places, or in neither. */
  ghost predicate CutsAlike(g: Graph, s: SchemaId, a: set<SchemaId>, s': SchemaId, b: set<SchemaId>)
    requires Closed(g) && s in g && s' in g
  {
    forall way | IsShown(g, s, way) && IsWay(g, s', way) :: IsEntered(Met(g, s, way), a) <==> IsEntered(Met(g, s', way), b)
  }

  predicate Opens(s: SchemaId, ancestors: set<SchemaId>) {
    s !in ancestors && |ancestors| < MAX_DEPTH
  }

  lemma EnteredFurther(s: SchemaId, rest: seq<SchemaId>, ancestors: set<SchemaId>)
    ensures IsEntered([s] + rest, ancestors) <==> Opens(s, ancestors) && IsEntered(rest, ancestors + {s})
  {
    var met := [s] + rest;
    if IsEntered(met, ancestors) {
      assert met[0] == s;
      assert forall i | 0 <= i < |rest| :: rest[i] == met[i + 1];
    }
    if Opens(s, ancestors) && IsEntered(rest, ancestors + {s}) {
      assert forall i | 0 < i < |met| :: met[i] == rest[i - 1];
    }
  }

  lemma EnteredFirst(s: SchemaId, ancestors: set<SchemaId>)
    ensures IsEntered([s], ancestors) <==> Opens(s, ancestors)
  {
    assert [s][0] == s;
  }

  /** One step further down. */
  lemma WayFurther(g: Graph, s: SchemaId, i: nat, rest: seq<nat>)
    requires Closed(g) && s in g && Embeds(g, s, i) && IsWay(g, EmbeddedAt(g, s, i), rest)
    ensures IsWay(g, s, [i] + rest) && Met(g, s, [i] + rest) == [s] + Met(g, EmbeddedAt(g, s, i), rest)
    ensures IsShown(g, s, [i] + rest) <==> IsShown(g, EmbeddedAt(g, s, i), rest)
  {
    var way := [i] + rest;
    assert way[0] == i && way[1..] == rest;
  }

  lemma WayIsFurther(g: Graph, s: SchemaId, way: seq<nat>)
    requires Closed(g) && s in g && IsWay(g, s, way) && way != []
    ensures Embeds(g, s, way[0]) && IsWay(g, EmbeddedAt(g, s, way[0]), way[1..])
    ensures Met(g, s, way) == [s] + Met(g, EmbeddedAt(g, s, way[0]), way[1..])
    ensures IsShown(g, s, way) <==> IsShown(g, EmbeddedAt(g, s, way[0]), way[1..])
  {
    assert way == [way[0]] + way[1..];
    WayFurther(g, s, way[0], way[1..]);
  }

  /** No way down shows anything unless the schema it starts from has paths. */
  lemma ShownHasPaths(g: Graph, s: SchemaId, way: seq<nat>)
    requires Closed(g) && s in g && IsShown(g, s, way)
    ensures g[s] != []
  {
  }

  /** The ways down from twins are the same. */
  lemma {:induction false} TwinWays(g: Graph, twins: Twins, s: SchemaId, s': SchemaId, way: seq<nat>)
    requires Closed(g) && AreTwins(g, twins) && (s, s') in twins && s in g && s' in g && IsWay(g, s, way)
    ensures IsWay(g, s', way)
    ensures forall k | 0 <= k <= |way| :: (Met(g, s, way)[k], Met(g, s', way)[k]) in twins
    decreases |way|
  {
    if way != [] {
      var i, rest := way[0], way[1..];
      WayIsFurther(g, s, way);
      TwinsAgreeAt(g, twins, s, s', i);
      var e, e' := EmbeddedAt(g, s, i), EmbeddedAt(g, s', i);
      TwinWays(g, twins, e, e', rest);
      assert way == [i] + rest;
      WayFurther(g, s', i, rest);
      forall k | 0 <= k <= |way| ensures (Met(g, s, way)[k], Met(g, s', way)[k]) in twins {
        if k > 0 { assert (Met(g, e, rest)[k - 1], Met(g, e', rest)[k - 1]) in twins; }
      }
    }
  }

  lemma CutsAlikeOpens(g: Graph, s: SchemaId, a: set<SchemaId>, s': SchemaId, b: set<SchemaId>)
    requires Closed(g) && s in g && s' in g && CutsAlike(g, s, a, s', b) && g[s] != []
    ensures Opens(s, a) <==> Opens(s', b)
  {
    assert IsShown(g, s, []) && IsWay(g, s', []);
    assert Met(g, s, []) == [s] && Met(g, s', []) == [s'];
    EnteredFirst(s, a);
    EnteredFirst(s', b);
  }

  lemma CutsAlikeBelow(g: Graph, s: SchemaId, a: set<SchemaId>, s': SchemaId, b: set<SchemaId>, i: nat)
    requires Closed(g) && s in g && s' in g && CutsAlike(g, s, a, s', b) && Embeds(g, s, i) && Embeds(g, s', i)
    requires Opens(s, a) && Opens(s', b)
    ensures CutsAlike(g, EmbeddedAt(g, s, i), a + {s}, EmbeddedAt(g, s', i), b + {s'})
  {
    hide IsEntered, IsShown, Opens;
    var e, e' := EmbeddedAt(g, s, i), EmbeddedAt(g, s', i);
    forall rest | IsShown(g, e, rest) && IsWay(g, e, rest) && IsWay(g, e', rest)
      ensures IsEntered(Met(g, e, rest), a + {s}) <==> IsEntered(Met(g, e', rest), b + {s'})
    {
      WayFurther(g, s, i, rest);
      WayFurther(g, s', i, rest);
      EnteredFurther(s, Met(g, e, rest), a);
      EnteredFurther(s', Met(g, e', rest), b);
    }
    forall rest | IsShown(g, e, rest) ensures IsWay(g, e, rest) { ShownIsWay(g, e, rest); }
  }

  lemma ShownIsWay(g: Graph, s: SchemaId, way: seq<nat>)
    requires Closed(g) && s in g && IsShown(g, s, way)
    ensures IsWay(g, s, way)
  {
  }

  lemma NoPathsNoFields(g: Graph, schema: SchemaId, prefix: string, ancestors: set<SchemaId>)
    requires Closed(g) && schema in g
    ensures Fields(g, schema, prefix, ancestors) == [] <==> g[schema] == []
  {
    var es := Entries(g, schema, prefix, ancestors);
    if g[schema] != [] { KidIn(es, [], 0); }
  }

  /** Every path shows up at every level it goes through. */
  lemma {:induction false} KidIn(es: seq<Entry>, p: seq<string>, n: nat)
    requires n < |es| && p < es[n].segments
    ensures var segments := es[n].segments;
            (if |segments| == |p| + 1 then Leaf(n) else Object(segments[..|p| + 1])) in Kids(es, p)
  {
    var last := |es| - 1;
    if n < last {
      KidIn(es[..last], p, n);
    }
  }

  // ---- Cut alike, structured alike ----

  /** Every schema embedded by the paths of two twins is cut alike below them. */
  ghost predicate CutsAlikeInside(g: Graph, s: SchemaId, a: set<SchemaId>, s': SchemaId, b: set<SchemaId>)
    requires Closed(g) && s in g && s' in g
  {
    forall i: nat | Embeds(g, s, i) && Embeds(g, s', i) :: CutsAlike(g, EmbeddedAt(g, s, i), a, EmbeddedAt(g, s', i), b)
  }

  lemma {:induction false} CutAlikeFields(g: Graph, twins: Twins, s: SchemaId, prefix: string, a: set<SchemaId>, s': SchemaId, prefix': string, b: set<SchemaId>)
    requires Closed(g) && AreTwins(g, twins) && (s, s') in twins && s in g && s' in g && CutsAlikeInside(g, s, a, s', b)
    ensures Describe(Fields(g, s, prefix, a), prefix) == Describe(Fields(g, s', prefix', b), prefix')
    decreases Remaining(a), 1
  {
    assert AgreeThroughout(g, twins, (s, s').0, (s, s').1);
    var es, es' := Entries(g, s, prefix, a), Entries(g, s', prefix', b);
    hide CutsAlike, ShapeOf, AreTwins;
    forall i | 0 <= i < |es| ensures AlikeEntry(es[i], prefix, es'[i], prefix') {
      EntryAt(g, s, prefix, a, i);
      EntryAt(g, s', prefix', b, i);
      assert AgreeAt(g, twins, s, s', i);
      var (key, t) := g[s][i];
      var (_, t') := g[s'][i];
      assert t.schema.Some? ==> Embeds(g, s, i) && Embeds(g, s', i);
      CutAlikeField(g, twins, prefix + key, t, a, prefix' + key, t', b);
    }
    SubtreesAreAlike(es, prefix, es', prefix', []);
  }

  ghost predicate EmbedTwins(g: Graph, twins: Twins, t: PathType, t': PathType) {
    t.schema.Some? == t'.schema.Some? &&
    (t.schema.Some? ==> t.schema.value in g && t'.schema.value in g && (t.schema.value, t'.schema.value) in twins)
  }

  lemma {:induction false} CutAlikeField(g: Graph, twins: Twins, path: string, t: PathType, a: set<SchemaId>, path': string, t': PathType, b: set<SchemaId>)
    requires Closed(g) && AreTwins(g, twins) && EmbedTwins(g, twins, t, t')
    requires t.schema.Some? ==> CutsAlike(g, t.schema.value, a, t'.schema.value, b)
    ensures ShapeOf(LeafField(g, path, t, a)) == ShapeOf(LeafField(g, path', t', b))
    decreases Remaining(a), 0
  {
    if t.schema.Some? {
      var s, s' := t.schema.value, t'.schema.value;
      assert AgreeThroughout(g, twins, (s, s').0, (s, s').1);
      NoPathsNoFields(g, s, path + ".", a + {s});
      NoPathsNoFields(g, s', path' + ".", b + {s'});
      if g[s] != [] { CutsAlikeOpens(g, s, a, s', b); }
      hide CutsAlike, AreTwins, AgreeThroughout;
      if Opens(s, a) && Opens(s', b) {
        forall i: nat | Embeds(g, s, i) && Embeds(g, s', i)
          ensures CutsAlike(g, EmbeddedAt(g, s, i), a + {s}, EmbeddedAt(g, s', i), b + {s'})
        {
          CutsAlikeBelow(g, s, a, s', b, i);
        }
        CutAlikeFields(g, twins, s, path + ".", a + {s}, s', path' + ".", b + {s'});
      }
    }
  }

  // ---- And only then ----

  lemma KidsAreAlike(es: seq<Entry>, prefix: string, es': seq<Entry>, prefix': string, p: seq<string>, item: Item)
    requires |es| == |es'| && forall i | 0 <= i < |es| :: es[i].segments == es'[i].segments
    requires Describe(Subtree(es, p, prefix), BaseOf(prefix, p)) == Describe(Subtree(es', p, prefix'), BaseOf(prefix', p))
    requires item in Kids(es, p)
    ensures item in Kids(es', p) && ShapeOf(FieldOf(es, item, p, prefix)) == ShapeOf(FieldOf(es', item, p, prefix'))
  {
    AlikeKids(es, es', p);
    var k :| 0 <= k < |Kids(es, p)| && Kids(es, p)[k] == item;
    SubtreeAt(es, p, prefix, k);
    SubtreeAt(es', p, prefix', k);
    hide Kids, Subtree, FieldOf, BaseOf, ShapeOf;
    assert Describe(Subtree(es, p, prefix), BaseOf(prefix, p))[k] == Describe(Subtree(es', p, prefix'), BaseOf(prefix', p))[k];
  }

  lemma ObjectHolds(es: seq<Entry>, prefix: string, p: seq<string>, q: seq<string>)
    requires Object(q) in Kids(es, p)
    ensures ShapeOf(FieldOf(es, Object(q), p, prefix)) == Describe(Subtree(es, q, prefix), BaseOf(prefix, q))
  {
    assert Fits(es, p, Object(q));
  }

  /** One structure at a level is one structure for each path below it. */
  lemma {:induction false} EntriesAreAlike(es: seq<Entry>, prefix: string, es': seq<Entry>, prefix': string, p: seq<string>, n: nat)
    requires |es| == |es'| && forall i | 0 <= i < |es| :: es[i].segments == es'[i].segments
    requires n < |es| && p < es[n].segments
    requires Describe(Subtree(es, p, prefix), BaseOf(prefix, p)) == Describe(Subtree(es', p, prefix'), BaseOf(prefix', p))
    ensures ShapeOf(es[n].field) == ShapeOf(es'[n].field)
    decreases |es[n].segments| - |p|
  {
    hide Kids, Subtree, BaseOf, Describe, ShapeOf;
    KidIn(es, p, n);
    if |es[n].segments| == |p| + 1 {
      KidsAreAlike(es, prefix, es', prefix', p, Leaf(n));
    } else {
      var q := es[n].segments[..|p| + 1];
      KidsAreAlike(es, prefix, es', prefix', p, Object(q));
      ObjectHolds(es, prefix, p, q);
      ObjectHolds(es', prefix', p, q);
      EntriesAreAlike(es, prefix, es', prefix', q, n);
    }
  }

  lemma FieldsShow(g: Graph, twins: Twins, s: SchemaId, prefix: string, a: set<SchemaId>, s': SchemaId, prefix': string, b: set<SchemaId>, i: nat)
    requires Closed(g) && AreTwins(g, twins) && (s, s') in twins && s in g && s' in g && i < |g[s]| == |g[s']|
    requires Describe(Fields(g, s, prefix, a), prefix) == Describe(Fields(g, s', prefix', b), prefix')
    ensures ShapeOf(LeafField(g, prefix + g[s][i].0, g[s][i].1, a)) == ShapeOf(LeafField(g, prefix' + g[s'][i].0, g[s'][i].1, b))
  {
    var es, es' := Entries(g, s, prefix, a), Entries(g, s', prefix', b);
    hide ShapeOf, LeafField, Describe, AreTwins, DeclareAlike;
    forall k | 0 <= k < |es| ensures es[k].segments == es'[k].segments {
      EntryAt(g, s, prefix, a, k);
      EntryAt(g, s', prefix', b, k);
      TwinsAgreeAt(g, twins, s, s', k);
    }
    EntryAt(g, s, prefix, a, i);
    EntryAt(g, s', prefix', b, i);
    assert [] < es[i].segments;
    EntriesAreAlike(es, prefix, es', prefix', [], i);
  }

  /** Where the guard cuts one expansion and not the other, the structures differ. */
  lemma {:induction false} FieldShows(g: Graph, twins: Twins, path: string, t: PathType, a: set<SchemaId>, path': string, t': PathType, b: set<SchemaId>, way: seq<nat>)
    requires Closed(g) && AreTwins(g, twins) && EmbedTwins(g, twins, t, t') && t.schema.Some?
    requires IsShown(g, t.schema.value, way) && IsWay(g, t'.schema.value, way)
    requires ShapeOf(LeafField(g, path, t, a)) == ShapeOf(LeafField(g, path', t', b))
    ensures IsEntered(Met(g, t.schema.value, way), a) <==> IsEntered(Met(g, t'.schema.value, way), b)
    decreases |way|
  {
    var s, s' := t.schema.value, t'.schema.value;
    assert AgreeThroughout(g, twins, (s, s').0, (s, s').1);
    ShownHasPaths(g, s, way);
    NoPathsNoFields(g, s, path + ".", a + {s});
    NoPathsNoFields(g, s', path' + ".", b + {s'});
    assert Opens(s, a) <==> Opens(s', b);
    if way == [] {
      assert Met(g, s, way) == [s] && Met(g, s', way) == [s'];
      EnteredFirst(s, a);
      EnteredFirst(s', b);
    } else {
      var i, rest := way[0], way[1..];
      WayIsFurther(g, s, way);
      WayIsFurther(g, s', way);
      var met, met' := Met(g, EmbeddedAt(g, s, i), rest), Met(g, EmbeddedAt(g, s', i), rest);
      EnteredFurther(s, met, a);
      EnteredFurther(s', met', b);
      if Opens(s, a) {
        assert Describe(Fields(g, s, path + ".", a + {s}), path + ".") == Describe(Fields(g, s', path' + ".", b + {s'}), path' + ".");
        hide AreTwins, Describe, ShapeOf, LeafField, AgreeThroughout;
        FieldsShow(g, twins, s, path + ".", a + {s}, s', path' + ".", b + {s'}, i);
        TwinsAgreeAt(g, twins, s, s', i);
        FieldShows(g, twins, path + "." + g[s][i].0, g[s][i].1, a + {s}, path' + "." + g[s'][i].0, g[s'][i].1, b + {s'}, rest);
      }
    }
  }

  /**
   * Two embeddings of schemas that declare the same, one schema or two, under any paths and below any
   * ancestors, have one structure exactly when every way down to a schema with paths is let through
   * by the guard in both places, or in neither.
   */
  lemma ShapesAgreeIffCutAlike(g: Graph, twins: Twins, path: string, t: PathType, a: set<SchemaId>, path': string, t': PathType, b: set<SchemaId>)
    requires Closed(g) && AreTwins(g, twins) && EmbedTwins(g, twins, t, t') && t.schema.Some?
    ensures ShapeOf(LeafField(g, path, t, a)) == ShapeOf(LeafField(g, path', t', b))
            <==> forall way | IsShown(g, t.schema.value, way) ::
                   && IsWay(g, t'.schema.value, way)
                   && (IsEntered(Met(g, t.schema.value, way), a) <==> IsEntered(Met(g, t'.schema.value, way), b))
  {
    var s, s' := t.schema.value, t'.schema.value;
    hide IsEntered, AreTwins, ShapeOf, LeafField, Met;
    forall way | IsShown(g, s, way) ensures IsWay(g, s', way) {
      TwinWays(g, twins, s, s', way);
    }
    if ShapeOf(LeafField(g, path, t, a)) == ShapeOf(LeafField(g, path', t', b)) {
      forall way | IsShown(g, s, way) && IsWay(g, s', way) ensures IsEntered(Met(g, s, way), a) <==> IsEntered(Met(g, s', way), b) {
        FieldShows(g, twins, path, t, a, path', t', b, way);
      }
    } else if CutsAlike(g, s, a, s', b) {
      CutAlikeField(g, twins, path, t, a, path', t', b);
    }
  }

  // ---- What follows ----

  /** Every schema is a twin of itself. */
  ghost function Identity(g: Graph): Twins {
    set s | s in g :: (s, s)
  }

  lemma IdentityIsTwins(g: Graph)
    requires Closed(g)
    ensures AreTwins(g, Identity(g)) && forall s <- g :: (s, s) in Identity(g)
  {
    forall s <- g ensures AgreeThroughout(g, Identity(g), s, s) {
      forall i | 0 <= i < |g[s]| ensures AgreeAt(g, Identity(g), s, s, i) {
      }
    }
  }

  /** Expanding one schema under any two prefixes, with the same ancestors, gives the same structure. */
  lemma ShapeIsRelocatable(g: Graph, schema: SchemaId, prefix: string, prefix': string, ancestors: set<SchemaId>)
    requires Closed(g) && schema in g
    ensures Describe(Fields(g, schema, prefix, ancestors), prefix) == Describe(Fields(g, schema, prefix', ancestors), prefix')
  {
    IdentityIsTwins(g);
    hide AreTwins, Identity, IsEntered, IsShown;
    CutAlikeFields(g, Identity(g), schema, prefix, ancestors, schema, prefix', ancestors);
  }

  /** The shape of an embedding field is that of the schema it embeds, whatever else differs. */
  lemma EmbeddedShape(g: Graph, path: string, t: PathType, path': string, t': PathType, ancestors: set<SchemaId>)
    requires Closed(g) && t.schema == t'.schema && (t.schema.Some? ==> t.schema.value in g)
    ensures ShapeOf(LeafField(g, path, t, ancestors)) == ShapeOf(LeafField(g, path', t', ancestors))
  {
    IdentityIsTwins(g);
    hide AreTwins, Identity, IsEntered, IsShown;
    CutAlikeField(g, Identity(g), path, t, ancestors, path', t', ancestors);
  }

  /** No schema has two twins: the second family is the first under other ids. */
  ghost predicate IsRenaming(twins: Twins) {
    forall p <- twins, q <- twins :: p.0 == q.0 <==> p.1 == q.1
  }

  /** What is being expanded of one family is, under its other id, what is being expanded of the other. */
  ghost predicate SameAncestors(twins: Twins, a: set<SchemaId>, b: set<SchemaId>) {
    forall p <- twins :: p.0 in a <==> p.1 in b
  }

  /** The schemas on one side of the pairs. */
  ghost function Firsts(twins: Twins): set<SchemaId> {
    set p <- twins :: p.0
  }

  ghost function Seconds(twins: Twins): set<SchemaId> {
    set p <- twins :: p.1
  }

  /** A family, entered whole, stays within the depth the guard allows. */
  predicate HasRoom(family: set<SchemaId>, ancestors: set<SchemaId>) {
    |ancestors| + |family - ancestors| <= MAX_DEPTH
  }

  lemma {:induction false} DistinctFit(route: seq<SchemaId>, room: set<SchemaId>)
    requires (forall i, j | 0 <= i < j < |route| :: route[i] != route[j]) && forall x <- route :: x in room
    ensures |route| <= |room|
  {
    if route != [] {
      var n := |route| - 1;
      DistinctFit(route[..n], room - {route[n]});
    }
  }

  lemma EnteredAlike(twins: Twins, met: seq<SchemaId>, a: set<SchemaId>, met': seq<SchemaId>, b: set<SchemaId>)
    requires |met| == |met'| && (forall k | 0 <= k < |met| :: (met[k], met'[k]) in twins)
    requires IsRenaming(twins) && SameAncestors(twins, a, b) && HasRoom(Firsts(twins), a) && HasRoom(Seconds(twins), b)
    ensures IsEntered(met, a) <==> IsEntered(met', b)
  {
    forall i, j | 0 <= i < j < |met| ensures met[i] == met[j] <==> met'[i] == met'[j] {
      var p, q := (met[i], met'[i]), (met[j], met'[j]);
      assert p in twins && q in twins;
    }
    forall i | 0 <= i < |met| ensures (met[i] in a <==> met'[i] in b) && met[i] in Firsts(twins) && met'[i] in Seconds(twins) {
      var p := (met[i], met'[i]);
      assert p in twins;
    }
    if IsEntered(met, a) { DistinctFit(met', Seconds(twins) - b); }
    if IsEntered(met', b) { DistinctFit(met, Firsts(twins) - a); }
  }

  /**
   * So schemas built afresh from the same declarations have one structure, as a schema has with
   * itself, wherever the same members of their families are already being expanded and neither place
   * is too deep: ancestors of other families make no difference.
   */
  lemma FreshSchemasShareAShape(g: Graph, twins: Twins, path: string, t: PathType, a: set<SchemaId>, path': string, t': PathType, b: set<SchemaId>)
    requires Closed(g) && AreTwins(g, twins) && EmbedTwins(g, twins, t, t')
    requires IsRenaming(twins) && SameAncestors(twins, a, b) && HasRoom(Firsts(twins), a) && HasRoom(Seconds(twins), b)
    ensures ShapeOf(LeafField(g, path, t, a)) == ShapeOf(LeafField(g, path', t', b))
  {
    if t.schema.Some? {
      var s, s' := t.schema.value, t'.schema.value;
      hide IsEntered, ShapeOf, LeafField, HasRoom, AreTwins, IsRenaming, SameAncestors, IsShown, Met, Firsts, Seconds;
      forall way | IsShown(g, s, way) && IsWay(g, s', way) ensures IsEntered(Met(g, s, way), a) <==> IsEntered(Met(g, s', way), b) {
        ShownIsWay(g, s, way);
        TwinWays(g, twins, s, s', way);
        EnteredAlike(twins, Met(g, s, way), a, Met(g, s', way), b);
      }
    }
    CutAlikeField(g, twins, path, t, a, path', t', b);
  }

  /** What a schema can lead to: itself, and whatever is embedded in what it can lead to. */
  ghost predicate IsFamily(g: Graph, family: set<SchemaId>)
    requires Closed(g)
  {
    family <= g.Keys && forall s <- family, i: nat | s in g && Embeds(g, s, i) :: EmbeddedAt(g, s, i) in family
  }

  /** One schema itself, then, has one structure wherever the same members of its family are being expanded. */
  lemma ShapeDependsOnFamilyOnly(g: Graph, family: set<SchemaId>, path: string, t: PathType, a: set<SchemaId>, path': string, t': PathType, b: set<SchemaId>)
    requires Closed(g) && IsFamily(g, family)
    requires t.schema.Some? && t.schema == t'.schema && t.schema.value in family
    requires family * a == family * b && HasRoom(family, a) && HasRoom(family, b)
    ensures ShapeOf(LeafField(g, path, t, a)) == ShapeOf(LeafField(g, path', t', b))
  {
    var twins: Twins := set s | s in family :: (s, s);
    assert AreTwins(g, twins) by {
      forall s <- family ensures s in g && AgreeThroughout(g, twins, s, s) {
        forall i | 0 <= i < |g[s]| ensures AgreeAt(g, twins, s, s, i) {
          assert g[s][i].1.schema.Some? ==> Embeds(g, s, i) && EmbeddedAt(g, s, i) in family;
        }
      }
    }
    assert Firsts(twins) == family && Seconds(twins) == family by {
      assert forall s <- family :: (s, s) in twins;
    }
    assert SameAncestors(twins, a, b) by {
      assert forall s <- family :: s in family * a <==> s in family * b;
    }
    FreshSchemasShareAShape(g, twins, path, t, a, path', t', b);
  }

  // ---- Three ways to differ ----

  function Embedding(schema: SchemaId): PathType {
    PathType(Some("Embedded"), false, None, None, None, None, Some(schema))
  }

  /** A comment thread: a comment embeds a reply, and a reply embeds a comment. */
  const THREAD: Graph := map[0 := [("reply", Embedding(1))], 1 := [("parent", Embedding(0))]]

  /** Met inside itself, a schema is cut where it is met again: the reply of a comment is not a reply on its own. */
  lemma ShapeDependsOnAncestors(path: string, path': string)
    ensures Closed(THREAD)
    ensures ShapeOf(LeafField(THREAD, path, Embedding(1), {0})) != ShapeOf(LeafField(THREAD, path', Embedding(1), {}))
  {
    IdentityIsTwins(THREAD);
    assert Embeds(THREAD, 1, 0) && EmbeddedAt(THREAD, 1, 0) == 0;
    assert IsWay(THREAD, 0, []) && Met(THREAD, 0, []) == [0] && IsShown(THREAD, 0, []);
    WayFurther(THREAD, 1, 0, []);
    assert [0] + [] == [0] && [1] + [0] == [1, 0];
    assert Met(THREAD, 1, [0]) == [1, 0] && IsShown(THREAD, 1, [0]);
    assert [1, 0][1] == 0 && !IsEntered([1, 0], {0}) && IsEntered([1, 0], {});
    ShapesAgreeIffCutAlike(THREAD, Identity(THREAD), path, Embedding(1), {0}, path', Embedding(1), {});
  }

  /** A tree whose nodes embed their own kind, and a root declared afresh with the same paths. */
  const TREE: Graph := map[0 := [("next", Embedding(0))], 1 := [("next", Embedding(0))]]

  /** Declared the same, but one leads back to itself where the other leads on: no renaming, and two structures. */
  lemma TwinsMetTwice(path: string, path': string)
    ensures Closed(TREE) && TREE[0] == TREE[1] && AreTwins(TREE, {(0, 0), (0, 1)})
    ensures ShapeOf(LeafField(TREE, path, Embedding(0), {})) != ShapeOf(LeafField(TREE, path', Embedding(1), {}))
  {
    var twins: Twins := {(0, 0), (0, 1)};
    assert AgreeAt(TREE, twins, 0, 0, 0) && AgreeAt(TREE, twins, 0, 1, 0);
    assert AreTwins(TREE, twins);
    assert EmbeddedAt(TREE, 0, 0) == 0 && EmbeddedAt(TREE, 1, 0) == 0;
    assert IsWay(TREE, 0, []) && Met(TREE, 0, []) == [0] && IsShown(TREE, 0, []);
    WayFurther(TREE, 0, 0, []);
    WayFurther(TREE, 1, 0, []);
    assert [0] + [] == [0] && [0] + [0] == [0, 0] && [1] + [0] == [1, 0];
    assert [0, 0][0] == [0, 0][1] && !IsEntered([0, 0], {}) && IsEntered([1, 0], {});
    ShapesAgreeIffCutAlike(TREE, twins, path, Embedding(0), {}, path', Embedding(1), {});
  }

  /** Eight schemas down nothing is expanded, whatever its family: any schema with paths then has another structure. */
  lemma DepthCuts(g: Graph, path: string, t: PathType, path': string, t': PathType, deep: set<SchemaId>, shallow: set<SchemaId>)
    requires Closed(g) && t.schema.Some? && t.schema == t'.schema && t.schema.value in g && g[t.schema.value] != []
    requires |deep| >= MAX_DEPTH && Opens(t.schema.value, shallow)
    ensures ShapeOf(LeafField(g, path, t, deep)) != ShapeOf(LeafField(g, path', t', shallow))
  {
    var s := t.schema.value;
    IdentityIsTwins(g);
    assert IsWay(g, s, []) && Met(g, s, []) == [s] && IsShown(g, s, []);
    EnteredFirst(s, deep);
    EnteredFirst(s, shallow);
    hide AreTwins, Identity;
    ShapesAgreeIffCutAlike(g, Identity(g), path, t, deep, path', t', shallow);
  }
}
