/**
 * The tree of fields of a mongoose schema (mongoose-schema.collector.ts), on values.
 *
 * A schema is a list of dotted paths. Paths sharing a prefix are folded under one `Object` node per
 * prefix; an embedded document's schema is expanded in place. Schemas refer to one another by
 * identity, so a graph of them may be cyclic.
 */
module SchemaSpec {
  import opened Dotted
  import opened Options

  const MAX_DEPTH := 8

  type SchemaId = nat

  /** What is read off one path of a schema. `elementInstance` and `elementRef` describe an array's element. */
  datatype PathType = PathType(
    instance: Option<string>,
    isRequired: bool,
    defaultValue: Option<string>,
    ref: Option<string>,
    elementInstance: Option<string>,
    elementRef: Option<string>,
    schema: Option<SchemaId>)
  {
    predicate IsArray() {
      instance == Some("Array")
    }

    /** `typeOf`. */
    function PlainTypeName(): string {
      if !IsArray() then instance.GetOr("Mixed")
      else if elementInstance.GetOr("") != "" then elementInstance.value + "[]"
      else "Array"
    }

    /** The type shown: an embedded schema replaces the plain one. */
    function TypeName(): string {
      if schema.None? then PlainTypeName() else if IsArray() then "Subdocument[]" else "Subdocument"
    }

    /** `relationRef`. */
    function Relation(): Option<Ref> {
      if ref.Some? then Some(Ref(ref.value, IsArray()))
      else if elementRef.Some? then Some(Ref(elementRef.value, true))
      else None
    }
  }

  datatype Ref = Ref(target: string, many: bool)

  datatype Embedding = One | Many

  datatype Field = Field(
    path: string,
    typeName: string,
    required: bool,
    defaultValue: Option<string>,
    ref: Option<Ref>,
    embedded: Option<Embedding>,
    children: seq<Field>)

  /** The paths of every schema, in declaration order. */
  type Graph = map<SchemaId, seq<(string, PathType)>>

  ghost predicate Closed(g: Graph) {
    forall s <- g :: forall i | 0 <= i < |g[s]| && g[s][i].1.schema.Some? :: g[s][i].1.schema.value in g
  }

  // ---- One level: the items under a prefix, in order of first appearance ----

  /** A path of the schema, split, with the field it becomes. */
  datatype Entry = Entry(segments: seq<string>, field: Field)

  /** A node of one level: the entry at a position, or the object folded from a proper prefix. */
  datatype Item = Leaf(i: nat) | Object(prefix: seq<string>)

  /** The length of the longest path. */
  function Height(es: seq<Entry>): (h: nat)
    ensures forall e <- es :: |e.segments| <= h
  {
    if es == [] then 0 else
    var h, n := Height(es[..|es| - 1]), |es[|es| - 1].segments|;
    if n > h then n else h
  }

  predicate Fits(es: seq<Entry>, p: seq<string>, item: Item) {
    match item
    case Leaf(i) => i < |es| && p < es[i].segments && |es[i].segments| == |p| + 1
    case Object(q) => p < q && |q| == |p| + 1 && |q| < Height(es)
  }

  /** The children of prefix `p` ([] for the roots). */
  function Kids(es: seq<Entry>, p: seq<string>): (items: seq<Item>)
    ensures forall item <- items :: Fits(es, p, item)
  {
    if es == [] then [] else
    var n := |es| - 1;
    AddKid(Kids(es[..n], p), n, es[n].segments, p)
  }

  /** What one more path, at position `n`, adds to the children of `p`. */
  function AddKid(items: seq<Item>, n: nat, segments: seq<string>, p: seq<string>): seq<Item> {
    if !(p < segments) then items
    else if |segments| == |p| + 1 then items + [Leaf(n)]
    else if Object(segments[..|p| + 1]) in items then items
    else items + [Object(segments[..|p| + 1])]
  }

  /** The fields under prefix `p`. */
  function Subtree(es: seq<Entry>, p: seq<string>, prefix: string): (fields: seq<Field>)
    ensures |fields| == |Kids(es, p)|
    decreases Height(es) - |p|, 2
  {
    FieldsOfItems(es, Kids(es, p), p, prefix)
  }

  function FieldsOfItems(es: seq<Entry>, items: seq<Item>, p: seq<string>, prefix: string): (fields: seq<Field>)
    requires forall item <- items :: item in Kids(es, p)
    ensures |fields| == |items|
    decreases Height(es) - |p|, 1
  {
    seq(|items|, i requires 0 <= i < |items| => FieldOf(es, items[i], p, prefix))
  }

  function FieldOf(es: seq<Entry>, item: Item, p: seq<string>, prefix: string): Field
    requires item in Kids(es, p)
    decreases Height(es) - |p|, 0
  {
    match item
    case Leaf(i) => es[i].field
    case Object(q) => ObjectField(prefix + Join(q), Subtree(es, q, prefix))
  }

  lemma SubtreeAt(es: seq<Entry>, p: seq<string>, prefix: string, i: nat)
    requires i < |Kids(es, p)|
    ensures Kids(es, p)[i] in Kids(es, p) && Subtree(es, p, prefix)[i] == FieldOf(es, Kids(es, p)[i], p, prefix)
  {
    assert Subtree(es, p, prefix) == FieldsOfItems(es, Kids(es, p), p, prefix);
  }

  function ObjectField(path: string, children: seq<Field>): Field {
    Field(path, "Object", false, None, None, Some(One), children)
  }

  // ---- Expanding schemas ----

  /** How many more schemas may be entered below `ancestors`. */
  function Remaining(ancestors: set<SchemaId>): nat {
    if |ancestors| < MAX_DEPTH then MAX_DEPTH - |ancestors| else 0
  }

  /** `fieldsOf`. */
  function Fields(g: Graph, schema: SchemaId, prefix: string, ancestors: set<SchemaId>): seq<Field>
    requires Closed(g) && schema in g
    decreases Remaining(ancestors), 2
  {
    Subtree(Entries(g, schema, prefix, ancestors), [], prefix)
  }

  function Entries(g: Graph, schema: SchemaId, prefix: string, ancestors: set<SchemaId>): (es: seq<Entry>)
    requires Closed(g) && schema in g
    ensures |es| == |g[schema]|
    decreases Remaining(ancestors), 1
  {
    var paths := g[schema];
    seq(|paths|, i requires 0 <= i < |paths| =>
      Entry(Split(paths[i].0), LeafField(g, prefix + paths[i].0, paths[i].1, ancestors)))
  }

  /** `fieldOf`: a schema already entered, or too deep, is not expanded. */
  function LeafField(g: Graph, path: string, t: PathType, ancestors: set<SchemaId>): Field
    requires Closed(g) && (t.schema.Some? ==> t.schema.value in g)
    decreases Remaining(ancestors), 0
  {
    Field(
      path, t.TypeName(), t.isRequired, t.defaultValue, t.Relation(),
      if t.schema.None? then None else if t.IsArray() then Some(Many) else Some(One),
      if t.schema.Some? && t.schema.value !in ancestors && |ancestors| < MAX_DEPTH then
        Fields(g, t.schema.value, path + ".", ancestors + {t.schema.value})
      else [])
  }

  lemma EntryAt(g: Graph, schema: SchemaId, prefix: string, ancestors: set<SchemaId>, i: nat)
    requires Closed(g) && schema in g && i < |g[schema]|
    ensures Entries(g, schema, prefix, ancestors)[i]
            == Entry(Split(g[schema][i].0), LeafField(g, prefix + g[schema][i].0, g[schema][i].1, ancestors))
  {
  }

  /** `flatten`. */
  datatype Row = Row(field: Field, depth: nat)

  function Flatten(fields: seq<Field>, depth: nat): seq<Row>
    decreases fields
  {
    if fields == [] then []
    else [Row(fields[0], depth)] + Flatten(fields[0].children, depth + 1) + Flatten(fields[1..], depth)
  }
}
