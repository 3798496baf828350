/**
 * The names in the structure `shapeKey` hashes (mongoose-schema.collector.ts): what equal structures
 * say about the paths documents hold, and about the keys their schemas declare.
 */
module SchemaNames {
  import opened Dotted
  import opened Options
  import opened SchemaSpec
  import opened SchemaShapes
  import SchemaLaws

  // ---- Relative names, at every depth ----

  /** Every path is its prefix and some rest, throughout. */
  ghost predicate Extend(fields: seq<Field>, p: string)
    decreases fields
  {
    forall i | 0 <= i < |fields| :: p <= fields[i].path && Extend(fields[i].children, fields[i].path + ".")
  }

  /** The rest of one path after its prefix is the rest of the other after its own. */
  ghost predicate NamedAlike(f: Field, p: string, h: Field, q: string) {
    forall x: string, y: string | f.path == p + x && h.path == q + y :: x == y
  }

  ghost predicate ShownAlike(f: Field, h: Field) {
    && f.typeName == h.typeName && f.required == h.required && f.embedded == h.embedded
    && f.ref.Some? == h.ref.Some? && (f.ref.Some? ==> f.ref.value.target == h.ref.value.target)
  }

  /** Two documents with the same fields under the same relative names, throughout. */
  ghost predicate SameDocuments(a: seq<Field>, p: string, b: seq<Field>, q: string)
    decreases a
  {
    && |a| == |b|
    && forall i | 0 <= i < |a| ::
         && NamedAlike(a[i], p, b[i], q) && ShownAlike(a[i], b[i])
         && SameDocuments(a[i].children, a[i].path + ".", b[i].children, b[i].path + ".")
  }

  lemma RestsAreSlices(f: Field, p: string, h: Field, q: string)
    requires p <= f.path && q <= h.path
    ensures NamedAlike(f, p, h, q) <==> Slice(f.path, |p|) == Slice(h.path, |q|)
  {
    var x, y := f.path[|p|..], h.path[|q|..];
    assert f.path == p + x && h.path == q + y;
    forall x', y' | f.path == p + x' && h.path == q + y' ensures x' == x && y' == y {
      assert (p + x')[|p|..] == x' && (q + y')[|q|..] == y';
    }
  }

  /** Two structures are equal exactly when the documents hold the same fields under the same names, at every depth. */
  lemma {:induction false} StructuresAreDocuments(a: seq<Field>, p: string, b: seq<Field>, q: string)
    requires Extend(a, p) && Extend(b, q)
    ensures Describe(a, p) == Describe(b, q) <==> SameDocuments(a, p, b, q)
  {
    ShapesAreContents(a, p, b, q);
    ContentsAreDocuments(a, p, b, q);
  }

  lemma {:induction false} ContentsAreDocuments(a: seq<Field>, p: string, b: seq<Field>, q: string)
    requires Extend(a, p) && Extend(b, q)
    ensures SameContents(a, p, b, q) <==> SameDocuments(a, p, b, q)
    decreases a
  {
    if |a| == |b| {
      forall i | 0 <= i < |a|
        ensures NamedAlike(a[i], p, b[i], q) <==> Slice(a[i].path, |p|) == Slice(b[i].path, |q|)
        ensures SameContents(a[i].children, a[i].path + ".", b[i].children, b[i].path + ".")
                <==> SameDocuments(a[i].children, a[i].path + ".", b[i].children, b[i].path + ".")
      {
        RestsAreSlices(a[i], p, b[i], q);
        ContentsAreDocuments(a[i].children, a[i].path + ".", b[i].children, b[i].path + ".");
      }
      hide NamedAlike, Slice, Extend;
    }
  }

  lemma {:induction false} ExtendingPathsExtend(fields: seq<Field>, p: string)
    requires SchemaLaws.PathsExtend(fields) && forall f <- fields :: p <= f.path
    ensures Extend(fields, p)
    decreases fields
  {
    forall i | 0 <= i < |fields| ensures Extend(fields[i].children, fields[i].path + ".") {
      assert fields[i] in fields;
      ExtendingPathsExtend(fields[i].children, fields[i].path + ".");
    }
  }

  lemma FieldsExtendTheirPrefix(g: Graph, s: SchemaId, prefix: string, ancestors: set<SchemaId>)
    requires Closed(g) && s in g
    ensures Extend(Fields(g, s, prefix, ancestors), prefix)
  {
    SchemaLaws.FieldsExtend(g, s, prefix, ancestors);
    ExtendingPathsExtend(Fields(g, s, prefix, ancestors), prefix);
  }

  // ---- What is shown of a path ----

  /** Its type, requiredness, default and reference, and how it embeds a document, from what it declares. */
  lemma PathsShowWhatTheyDeclare(g: Graph, path: string, t: PathType, ancestors: set<SchemaId>)
    requires Closed(g) && (t.schema.Some? ==> t.schema.value in g)
    ensures var f, many := LeafField(g, path, t, ancestors), t.instance == Some("Array");
            && f.path == path && f.required == t.isRequired && f.defaultValue == t.defaultValue
            && (t.schema.Some? ==> f.typeName == (if many then "Subdocument[]" else "Subdocument") && f.embedded == Some(if many then Many else One))
            && (t.schema.None? ==> f.embedded == None && f.children == [])
            && (t.schema.Some? && t.schema.value !in ancestors && |ancestors| < 8 ==>
                  f.children == Fields(g, t.schema.value, path + ".", ancestors + {t.schema.value}))
            && (t.schema.Some? && (t.schema.value in ancestors || |ancestors| >= 8) ==> f.children == [])
            && (t.schema.None? && t.instance == None ==> f.typeName == "Mixed")
            && (t.schema.None? && t.instance.Some? && !many ==> f.typeName == t.instance.value)
            && (t.schema.None? && many && t.elementInstance.Some? && t.elementInstance.value != "" ==> f.typeName == t.elementInstance.value + "[]")
            && (t.schema.None? && many && (t.elementInstance == None || t.elementInstance == Some("")) ==> f.typeName == "Array")
            && (t.ref.Some? ==> f.ref.Some? && f.ref.value.target == t.ref.value && f.ref.value.many == many)
            && (t.ref == None && t.elementRef.Some? ==> f.ref.Some? && f.ref.value.target == t.elementRef.value && f.ref.value.many)
            && (t.ref == None && t.elementRef == None ==> f.ref == None)
  {
  }

  // ---- The keys a structure tells ----

  /** The dotted names of the paths at one level of a structure, folded objects opened up. */
  function LeafNames(shapes: seq<Shape>, above: string): seq<string>
    decreases shapes
  {
    if shapes == [] then [] else
    var s := shapes[0];
    (if s.typeName == "Object" && s.embedded == Some(One) then LeafNames(s.children, above + s.name + ".") else [above + s.name])
    + LeafNames(shapes[1..], above)
  }

  /** The paths among the items of a level, in order. */
  ghost function LeafKeys(es: seq<Entry>, items: seq<Item>): seq<string> {
    if items == [] then [] else
    (match items[0] case Leaf(i) => if i < |es| then [Join(es[i].segments)] else [] case Object(_) => [])
    + LeafKeys(es, items[1..])
  }

  lemma {:induction false} LeafKeysConcat(es: seq<Entry>, a: seq<Item>, b: seq<Item>)
    ensures LeafKeys(es, a + b) == LeafKeys(es, a) + LeafKeys(es, b)
  {
    if a == [] {
      assert a + b == b;
    } else {
      assert (a + b)[1..] == a[1..] + b;
      LeafKeysConcat(es, a[1..], b);
    }
  }

  /** The paths of one schema where they stand; none of them passes for a folded object. */
  ghost predicate Stand(es: seq<Entry>, prefix: string) {
    forall i | 0 <= i < |es| :: StandsAt(es[i], prefix)
  }

  ghost predicate StandsAt(e: Entry, prefix: string) {
    && e.segments != [] && e.field.path == prefix + Join(e.segments)
    && !(e.field.typeName == "Object" && e.field.embedded == Some(One))
  }

  function AboveOf(p: seq<string>): string {
    if p == [] then "" else Join(p) + "."
  }

  lemma NameBelow(prefix: string, p: seq<string>, q: seq<string>)
    requires p < q
    ensures AboveOf(p) + Slice(prefix + Join(q), |BaseOf(prefix, p)|) == Join(q)
  {
    if p != [] { JoinExtends(p, q); }
    assert BaseOf(prefix, p) == prefix + AboveOf(p);
    hide Join, BaseOf;
    SliceBelow(prefix, AboveOf(p), Join(q));
  }

  lemma SliceBelow(prefix: string, above: string, name: string)
    requires above <= name
    ensures above + Slice(prefix + name, |prefix + above|) == name
  {
    assert (prefix + name)[|prefix| + |above|..] == name[|above|..];
  }

  /** One more item at the head of a level. */
  lemma HeadItem(es: seq<Entry>, items: seq<Item>, p: seq<string>, prefix: string)
    requires items != [] && forall item <- items :: item in Kids(es, p)
    ensures items[0] in Kids(es, p) && forall item <- items[1..] :: item in Kids(es, p)
    ensures FieldsOfItems(es, items, p, prefix) == [FieldOf(es, items[0], p, prefix)] + FieldsOfItems(es, items[1..], p, prefix)
  {
  }

  lemma DescribeHead(f: Field, rest: seq<Field>, prefix: string)
    ensures Describe([f] + rest, prefix) == [DescribeField(f, prefix)] + Describe(rest, prefix)
  {
    assert ([f] + rest)[1..] == rest;
  }

  lemma LeafNamesHead(s: Shape, rest: seq<Shape>, above: string)
    ensures LeafNames([s] + rest, above)
            == (if s.typeName == "Object" && s.embedded == Some(One) then LeafNames(s.children, above + s.name + ".") else [above + s.name])
               + LeafNames(rest, above)
  {
    assert ([s] + rest)[1..] == rest;
  }

  ghost function NamesOf(es: seq<Entry>, item: Item, p: seq<string>, prefix: string): seq<string>
    requires item in Kids(es, p)
  {
    var s := DescribeField(FieldOf(es, item, p, prefix), BaseOf(prefix, p));
    if s.typeName == "Object" && s.embedded == Some(One) then LeafNames(s.children, AboveOf(p) + s.name + ".") else [AboveOf(p) + s.name]
  }

  lemma LeafItemNames(es: seq<Entry>, prefix: string, p: seq<string>, i: nat)
    requires Stand(es, prefix) && Leaf(i) in Kids(es, p)
    ensures NamesOf(es, Leaf(i), p, prefix) == LeafKeys(es, [Leaf(i)])
  {
    assert Fits(es, p, Leaf(i));
    assert StandsAt(es[i], prefix);
    NameBelow(prefix, p, es[i].segments);
    assert [Leaf(i)][1..] == [];
    hide Kids, BaseOf, Slice, Join;
  }

  /** An object folded from a prefix, as described: what is below the prefix. */
  lemma ObjectShape(es: seq<Entry>, prefix: string, p: seq<string>, q: seq<string>)
    requires Object(q) in Kids(es, p)
    ensures var s := DescribeField(FieldOf(es, Object(q), p, prefix), BaseOf(prefix, p));
            && s.typeName == "Object" && s.embedded == Some(One) && q != []
            && s.name == Slice(prefix + Join(q), |BaseOf(prefix, p)|)
            && s.children == Describe(Subtree(es, q, prefix), BaseOf(prefix, q))
  {
    assert Fits(es, p, Object(q));
    hide Kids, Slice, Join, Describe;
  }

  lemma {:induction false} ObjectItemNames(es: seq<Entry>, prefix: string, p: seq<string>, q: seq<string>)
    requires Stand(es, prefix) && Object(q) in Kids(es, p)
    ensures NamesOf(es, Object(q), p, prefix) == LeafKeys(es, [Object(q)] + SchemaLaws.Preorder(es, q))
    decreases Height(es) - |p|, 0
  {
    assert Fits(es, p, Object(q));
    ObjectShape(es, prefix, p, q);
    NameBelow(prefix, p, q);
    LevelNames(es, prefix, q);
    hide Kids, LeafNames, Slice, Join, BaseOf, Describe, DescribeField, Subtree, FieldOf, Stand, Fits;
    assert AboveOf(q) == AboveOf(p) + Slice(prefix + Join(q), |BaseOf(prefix, p)|) + ".";
    LeafKeysConcat(es, [Object(q)], SchemaLaws.Preorder(es, q));
    assert [Object(q)][1..] == [];
  }

  lemma {:induction false} ItemNames(es: seq<Entry>, prefix: string, p: seq<string>, items: seq<Item>)
    requires Stand(es, prefix) && forall item <- items :: item in Kids(es, p)
    ensures LeafNames(Describe(FieldsOfItems(es, items, p, prefix), BaseOf(prefix, p)), AboveOf(p))
            == LeafKeys(es, SchemaLaws.PreorderOf(es, p, items))
    decreases Height(es) - |p|, |items| + 1
  {
    if items != [] {
      var head, rest := items[0], items[1..];
      HeadItem(es, items, p, prefix);
      var f, others := FieldOf(es, head, p, prefix), FieldsOfItems(es, rest, p, prefix);
      DescribeHead(f, others, BaseOf(prefix, p));
      LeafNamesHead(DescribeField(f, BaseOf(prefix, p)), Describe(others, BaseOf(prefix, p)), AboveOf(p));
      ItemNames(es, prefix, p, rest);
      var inside := if head.Object? then SchemaLaws.Preorder(es, head.prefix) else [];
      assert SchemaLaws.PreorderOf(es, p, items) == ([head] + inside) + SchemaLaws.PreorderOf(es, p, rest);
      LeafKeysConcat(es, [head] + inside, SchemaLaws.PreorderOf(es, p, rest));
      match head
      case Leaf(i) => LeafItemNames(es, prefix, p, i);
        assert [head] + inside == [head];
      case Object(q) => ObjectItemNames(es, prefix, p, q);
    }
  }

  lemma {:induction false} LevelNames(es: seq<Entry>, prefix: string, p: seq<string>)
    requires Stand(es, prefix)
    ensures LeafNames(Describe(Subtree(es, p, prefix), BaseOf(prefix, p)), AboveOf(p)) == LeafKeys(es, SchemaLaws.Preorder(es, p))
    decreases Height(es) - |p|, |Kids(es, p)| + 2
  {
    ItemNames(es, prefix, p, Kids(es, p));
  }

  lemma EntriesStand(g: Graph, s: SchemaId, prefix: string, ancestors: set<SchemaId>)
    requires Closed(g) && s in g
    ensures Stand(Entries(g, s, prefix, ancestors), prefix)
  {
    forall i | 0 <= i < |g[s]| ensures StandsAt(Entries(g, s, prefix, ancestors)[i], prefix) {
      EntryAt(g, s, prefix, ancestors, i);
    }
  }

  function KeysOf(g: Graph, s: SchemaId): (keys: seq<string>)
    requires s in g
    ensures |keys| == |g[s]|
  {
    seq(|g[s]|, i requires 0 <= i < |g[s]| => g[s][i].0)
  }

  // ---- Which keys, and in which order ----

  /** Where each path of a schema stands among the items of its level. */
  ghost function Positions(items: seq<Item>): seq<nat> {
    if items == [] then [] else (if items[0].Leaf? then [items[0].i] else []) + Positions(items[1..])
  }

  lemma {:induction false} PositionsHold(items: seq<Item>, i: nat)
    requires SchemaLaws.Distinct(items)
    ensures Times(Positions(items), i) == if Leaf(i) in items then 1 else 0
  {
    if items != [] {
      assert items == [items[0]] + items[1..];
      assert SchemaLaws.Distinct(items[1..]) by {
        forall a, b | 0 <= a < b < |items[1..]| ensures items[1..][a] != items[1..][b] { assert items[a + 1] != items[b + 1]; }
      }
      forall k | 0 <= k < |items[1..]| ensures items[1..][k] != items[0] { assert items[k + 1] != items[0]; }
      PositionsHold(items[1..], i);
      var rest := Positions(items[1..]);
      assert items[0].Leaf? ==> ([items[0].i] + rest)[1..] == rest;
      assert [] + rest == rest;
    }
  }

  lemma {:induction false} KeysAtPositions(es: seq<Entry>, items: seq<Item>)
    requires forall item <- items :: item.Leaf? ==> item.i < |es|
    ensures |LeafKeys(es, items)| == |Positions(items)|
    ensures forall k | 0 <= k < |Positions(items)| :: Positions(items)[k] < |es| && LeafKeys(es, items)[k] == Join(es[Positions(items)[k]].segments)
  {
    if items != [] {
      assert items == [items[0]] + items[1..];
      KeysAtPositions(es, items[1..]);
    }
  }

  /** How often a position stands in a list. */
  ghost function Times(positions: seq<nat>, i: nat): nat {
    if positions == [] then 0 else (if positions[0] == i then 1 else 0) + Times(positions[1..], i)
  }

  /** Every position below `n` once. */
  ghost predicate IsPermutation(positions: seq<nat>, n: nat) {
    |positions| == n && forall i: nat :: Times(positions, i) == if i < n then 1 else 0
  }

  lemma {:induction false} TimesWithout(positions: seq<nat>, k: nat, i: nat)
    requires k < |positions|
    ensures Times(positions, i) == Times(positions[..k] + positions[k + 1..], i) + if positions[k] == i then 1 else 0
  {
    if k == 0 {
      assert positions[..0] + positions[1..] == positions[1..];
    } else {
      TimesWithout(positions[1..], k - 1, i);
      assert (positions[..k] + positions[k + 1..])[1..] == positions[1..][..k - 1] + positions[1..][k..];
    }
  }

  lemma {:induction false} SomewhereOnce(positions: seq<nat>, i: nat) returns (k: nat)
    requires Times(positions, i) > 0
    ensures k < |positions| && positions[k] == i
  {
    if positions[0] == i { return 0; }
    var j := SomewhereOnce(positions[1..], i);
    k := j + 1;
  }

  lemma FirstOccurs(positions: seq<nat>)
    requires positions != []
    ensures Times(positions, positions[0]) > 0
  {
  }

  lemma {:induction false} SizeOf(positions: seq<nat>, n: nat)
    requires forall i: nat :: Times(positions, i) == if i < n then 1 else 0
    ensures |positions| == n
    decreases n
  {
    if n == 0 {
      if positions != [] { FirstOccurs(positions); }
    } else {
      var k := SomewhereOnce(positions, n - 1);
      var rest := positions[..k] + positions[k + 1..];
      forall i: nat ensures Times(rest, i) == if i < n - 1 then 1 else 0 {
        TimesWithout(positions, k, i);
      }
      SizeOf(rest, n - 1);
    }
  }

  lemma PermutationFits(positions: seq<nat>, n: nat)
    requires IsPermutation(positions, n)
    ensures |positions| == n
  {
  }

  /** The order in which the tree of a schema lists its paths. */
  ghost function TreeOrder(g: Graph, s: SchemaId, prefix: string, ancestors: set<SchemaId>): seq<nat>
    requires Closed(g) && s in g
  {
    Positions(SchemaLaws.Preorder(Entries(g, s, prefix, ancestors), []))
  }

  /** In that order, the structure of a schema's documents names each of its paths by its key, each once. */
  lemma StructuresNameKeys(g: Graph, s: SchemaId, prefix: string, ancestors: set<SchemaId>)
    requires Closed(g) && s in g
    ensures var names, order := LeafNames(Describe(Fields(g, s, prefix, ancestors), prefix), ""), TreeOrder(g, s, prefix, ancestors);
            && IsPermutation(order, |g[s]|) && |names| == |g[s]|
            && forall k | 0 <= k < |names| :: order[k] < |g[s]| && names[k] == g[s][order[k]].0
  {
    var es := Entries(g, s, prefix, ancestors);
    var items := SchemaLaws.Preorder(es, []);
    EntriesStand(g, s, prefix, ancestors);
    LevelNames(es, prefix, []);
    SchemaLaws.LevelListsEachPathOnce(g, s, prefix, ancestors, 0);
    forall i: nat ensures Times(Positions(items), i) == if i < |es| then 1 else 0 { PositionsHold(items, i); }
    SizeOf(Positions(items), |es|);
    KeysAtPositions(es, items);
    hide SchemaLaws.Distinct, SchemaLaws.Preorder, LeafNames, LeafKeys, Positions, Describe, Subtree;
    forall k | 0 <= k < |es| ensures Positions(items)[k] < |es| && LeafKeys(es, items)[k] == g[s][Positions(items)[k]].0 {
      EntryAt(g, s, prefix, ancestors, Positions(items)[k]);
    }
  }

  /**
   * Equal structures are of schemas that declare the same keys, each once: one key after the other in
   * the order of the tree; and in the order declared too, when no key is dotted.
   */
  lemma EqualStructuresDeclareTheSameKeys(g: Graph, s: SchemaId, prefix: string, a: set<SchemaId>, s': SchemaId, prefix': string, b: set<SchemaId>)
    requires Closed(g) && s in g && s' in g
    requires Describe(Fields(g, s, prefix, a), prefix) == Describe(Fields(g, s', prefix', b), prefix')
    ensures var order, order' := TreeOrder(g, s, prefix, a), TreeOrder(g, s', prefix', b);
            && |g[s]| == |g[s']| && IsPermutation(order, |g[s]|) && IsPermutation(order', |g[s]|)
            && (forall k | 0 <= k < |g[s]| :: order[k] < |g[s]| && order'[k] < |g[s]| && g[s][order[k]].0 == g[s'][order'[k]].0)
    ensures Undotted(g, s) && Undotted(g, s') ==> forall k | 0 <= k < |g[s]| :: g[s][k].0 == g[s'][k].0
  {
    StructuresNameKeys(g, s, prefix, a);
    StructuresNameKeys(g, s', prefix', b);
    hide TreeOrder, Describe, Fields, IsPermutation, LeafNames;
    var order, order' := TreeOrder(g, s, prefix, a), TreeOrder(g, s', prefix', b);
    assert LeafNames(Describe(Fields(g, s, prefix, a), prefix), "") == LeafNames(Describe(Fields(g, s', prefix', b), prefix'), "");
    PermutationFits(order, |g[s]|);
    PermutationFits(order', |g[s']|);
    if Undotted(g, s) && Undotted(g, s') {
      UndottedInOrder(g, s, prefix, a);
      UndottedInOrder(g, s', prefix', b);
      forall k | 0 <= k < |g[s]| ensures g[s][k].0 == g[s'][k].0 {
        assert order[k] == k && order'[k] == k;
      }
    }
  }

  predicate Undotted(g: Graph, s: SchemaId)
    requires s in g
  {
    forall i | 0 <= i < |g[s]| :: '.' !in g[s][i].0
  }

  lemma JoinedHaveDots(segments: seq<string>)
    requires |segments| > 1
    ensures '.' in Join(segments)
  {
    assert Join(segments)[|segments[0]|] == '.';
  }

  lemma UndottedIsOne(key: string)
    requires '.' !in key
    ensures |Split(key)| == 1
  {
    if |Split(key)| > 1 { JoinedHaveDots(Split(key)); }
  }

  lemma UndottedInOrder(g: Graph, s: SchemaId, prefix: string, ancestors: set<SchemaId>)
    requires Closed(g) && s in g && Undotted(g, s)
    ensures TreeOrder(g, s, prefix, ancestors) == seq(|g[s]|, i => i)
  {
    var es := Entries(g, s, prefix, ancestors);
    forall i | 0 <= i < |es| ensures |es[i].segments| == 1 {
      EntryAt(g, s, prefix, ancestors, i);
      UndottedIsOne(g[s][i].0);
    }
    FlatKids(es);
    FlatPreorder(es, Kids(es, []));
    FlatPositions(|es|, 0);
  }

  function Leaves(from: nat, n: nat): (items: seq<Item>)
    requires from <= n
    ensures |items| == n - from && forall i | 0 <= i < |items| :: items[i] == Leaf(from + i)
  {
    seq(n - from, i requires 0 <= i < n - from => Leaf(from + i))
  }

  lemma {:induction false} FlatKids(es: seq<Entry>)
    requires forall i | 0 <= i < |es| :: |es[i].segments| == 1
    ensures Kids(es, []) == Leaves(0, |es|)
  {
    if es != [] {
      var n := |es| - 1;
      FlatKids(es[..n]);
      assert [] < es[n].segments;
      assert Leaves(0, n + 1) == Leaves(0, n) + [Leaf(n)];
    }
  }

  lemma {:induction false} FlatPreorder(es: seq<Entry>, items: seq<Item>)
    requires (forall item <- items :: item in Kids(es, [])) && forall item <- items :: item.Leaf?
    ensures SchemaLaws.PreorderOf(es, [], items) == items
  {
    if items != [] {
      assert items == [items[0]] + items[1..] && items[0] in items;
      FlatPreorder(es, items[1..]);
      assert [items[0]] + [] + items[1..] == items;
    }
  }

  lemma {:induction false} FlatPositions(n: nat, from: nat)
    requires from <= n
    ensures |Positions(Leaves(from, n))| == n - from && forall i | 0 <= i < n - from :: Positions(Leaves(from, n))[i] == from + i
    decreases n - from
  {
    if from == n {
      assert Leaves(from, n) == [];
    } else {
      FlatPositions(n, from + 1);
      assert Leaves(from, n)[1..] == Leaves(from + 1, n);
      assert Positions(Leaves(from, n)) == [from] + Positions(Leaves(from + 1, n));
    }
  }

  // ---- Dotted keys may change places ----

  const PLAIN := PathType(Some("String"), false, None, None, None, None, None)

  /** Two schemas that declare the same, one with a path between those of a nested object. */
  const APART: Graph := map[
    0 := [("a.x", PLAIN), ("b", PLAIN), ("a.y", PLAIN)],
    1 := [("a.x", PLAIN), ("a.y", PLAIN), ("b", PLAIN)]]

  lemma SplitIs(key: string, segments: seq<string>)
    requires segments != [] && Join(segments) == key && forall s <- segments :: '.' !in s
    ensures Split(key) == segments
  {
    JoinIsInjective(Split(key), segments);
  }

  lemma {:induction false} ThreeKids(es: seq<Entry>, p: seq<string>)
    requires |es| == 3
    ensures Kids(es, p) == AddKid(AddKid(AddKid([], 0, es[0].segments, p), 1, es[1].segments, p), 2, es[2].segments, p)
  {
    assert es[..2][..1] == es[..1] && es[..1][..0] == [];
    assert Kids(es[..1], p) == AddKid([], 0, es[0].segments, p);
    assert Kids(es[..2], p) == AddKid(Kids(es[..1], p), 1, es[1].segments, p);
  }

  lemma TheirSegments()
    ensures Split("a.x") == ["a", "x"] && Split("a.y") == ["a", "y"] && Split("b") == ["b"]
  {
    assert ["a", "x"][1..] == ["x"] && ["a", "y"][1..] == ["y"];
    assert Join(["x"]) == "x" && Join(["y"]) == "y";
    assert Join(["a", "x"]) == "a.x" && Join(["a", "y"]) == "a.y" && Join(["b"]) == "b";
    SplitIs("a.x", ["a", "x"]);
    SplitIs("a.y", ["a", "y"]);
    SplitIs("b", ["b"]);
  }

  lemma EntriesOf(s: SchemaId, i: nat)
    requires s < 2 && i < 3
    ensures Closed(APART) && |Entries(APART, s, "", {})| == 3 && Entries(APART, s, "", {})[i] == EntryOf(APART[s][i].0)
  {
    EntryAt(APART, s, "", {}, i);
  }

  /** So equal structures need not declare a dotted key at the same position. */
  lemma DottedKeysMayChangePlaces()
    ensures Closed(APART) && APART[0][1].0 != APART[1][1].0
    ensures Describe(Fields(APART, 0, "", {}), "") == Describe(Fields(APART, 1, "", {}), "")
  {
    var es, es' := Entries(APART, 0, "", {}), Entries(APART, 1, "", {});
    TheirSegments();
    hide Join, Split, Kids, Subtree, Describe, LeafField, Fields;
    forall i: nat | i < 3 ensures |es| == |es'| == 3 && es[i] == EntryOf(APART[0][i].0) && es'[i] == EntryOf(APART[1][i].0) {
      EntriesOf(0, i);
      EntriesOf(1, i);
    }
    TopKids(es, es');
    NestedKids(es, es');
    SameTrees(es, es');
    FieldsAre(0);
    FieldsAre(1);
  }

  lemma FieldsAre(s: SchemaId)
    requires s < 2
    ensures Closed(APART) && Fields(APART, s, "", {}) == Subtree(Entries(APART, s, "", {}), [], "")
  {
  }

  function EntryOf(key: string): Entry {
    Entry(Split(key), Field(key, "String", false, None, None, None, []))
  }

  lemma TopKids(es: seq<Entry>, es': seq<Entry>)
    requires |es| == |es'| == 3
    requires es[0].segments == es'[0].segments == ["a", "x"] && es[2].segments == es'[1].segments == ["a", "y"]
    requires es[1].segments == es'[2].segments == ["b"]
    ensures Kids(es, []) == [Object(["a"]), Leaf(1)] && Kids(es', []) == [Object(["a"]), Leaf(2)]
  {
    ThreeKids(es, []);
    ThreeKids(es', []);
    assert ["a", "x"][..1] == ["a"] && ["a", "y"][..1] == ["a"];
    assert [] < ["a", "x"] && [] < ["a", "y"] && [] < ["b"];
  }

  lemma NestedKids(es: seq<Entry>, es': seq<Entry>)
    requires |es| == |es'| == 3
    requires es[0].segments == es'[0].segments == ["a", "x"] && es[2].segments == es'[1].segments == ["a", "y"]
    requires es[1].segments == es'[2].segments == ["b"]
    ensures Kids(es, ["a"]) == [Leaf(0), Leaf(2)] && Kids(es', ["a"]) == [Leaf(0), Leaf(1)]
  {
    ThreeKids(es, ["a"]);
    ThreeKids(es', ["a"]);
    assert ["a"] < ["a", "x"] && ["a"] < ["a", "y"] && !(["a"] < ["b"]);
  }

  lemma SameTrees(es: seq<Entry>, es': seq<Entry>)
    requires |es| == |es'| == 3 && es[0].field == es'[0].field && es[2].field == es'[1].field && es[1].field == es'[2].field
    requires Kids(es, []) == [Object(["a"]), Leaf(1)] && Kids(es', []) == [Object(["a"]), Leaf(2)]
    requires Kids(es, ["a"]) == [Leaf(0), Leaf(2)] && Kids(es', ["a"]) == [Leaf(0), Leaf(1)]
    ensures Subtree(es, [], "") == Subtree(es', [], "")
  {
    hide Kids;
    forall i: nat | i < 2 ensures Subtree(es, ["a"], "")[i] == Subtree(es', ["a"], "")[i] {
      SubtreeAt(es, ["a"], "", i);
      SubtreeAt(es', ["a"], "", i);
    }
    assert Subtree(es, ["a"], "") == Subtree(es', ["a"], "");
    forall i: nat | i < 2 ensures Subtree(es, [], "")[i] == Subtree(es', [], "")[i] {
      SubtreeAt(es, [], "", i);
      SubtreeAt(es', [], "", i);
    }
  }
}
