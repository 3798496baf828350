/**
 * What the flattened list of a schema's fields guarantees, for every graph of schemas, cyclic ones
 * included: parents first, paths that extend their parent's, and at each level every path exactly
 * once with one object per proper prefix.
 */
module SchemaLaws {
  import opened Dotted
  import opened Options
  import opened SchemaSpec

  // ---- Parents come first ----

  /** The parent of row `j`: the nearest row before it that is one level up holds its field. */
  ghost predicate IsParent(rows: seq<Row>, i: nat, j: nat)
    requires i < j < |rows|
  {
    && rows[i].depth + 1 == rows[j].depth
    && rows[j].field in rows[i].field.children
    && forall k | i < k < j :: rows[k].depth >= rows[j].depth
  }

  ghost predicate HasParent(rows: seq<Row>, j: nat)
    requires j < |rows|
  {
    exists i: nat :: i < j && IsParent(rows, i, j)
  }

  /** A row stands at depth `d` with one of the fields, or deeper and after its parent. */
  ghost predicate IsPlaced(rows: seq<Row>, fields: seq<Field>, d: nat, j: nat)
    requires j < |rows|
  {
    if rows[j].depth == d then rows[j].field in fields else rows[j].depth > d && HasParent(rows, j)
  }

  /** Rows listed parent-first below depth `d`. */
  ghost predicate ParentFirst(rows: seq<Row>, fields: seq<Field>, d: nat) {
    forall j | 0 <= j < |rows| :: IsPlaced(rows, fields, d, j)
  }

  lemma HasParentWithin(before: seq<Row>, rows: seq<Row>, after: seq<Row>, j: nat)
    requires j < |rows| && HasParent(rows, j)
    ensures HasParent(before + rows + after, |before| + j)
  {
    var i: nat :| i < j && IsParent(rows, i, j);
    var all, n := before + rows + after, |before|;
    forall k | n + i < k < n + j ensures all[k].depth >= all[n + j].depth {
      assert all[k] == rows[k - n];
    }
    assert IsParent(all, n + i, n + j);
  }

  lemma HeadIsParent(head: Field, C: seq<Row>, T: seq<Row>, fields: seq<Field>, d: nat, j: nat)
    requires 0 < j <= |C| && ParentFirst(C, head.children, d + 1)
    ensures IsPlaced([Row(head, d)] + C + T, fields, d, j)
  {
    var rows := [Row(head, d)] + C + T;
    assert rows[j] == C[j - 1] && IsPlaced(C, head.children, d + 1, j - 1);
    if C[j - 1].depth == d + 1 {
      forall k | 0 < k < j ensures rows[k].depth >= d + 1 {
        assert rows[k] == C[k - 1] && IsPlaced(C, head.children, d + 1, k - 1);
      }
      assert IsParent(rows, 0, j);
    } else {
      HasParentWithin([Row(head, d)], C, T, j - 1);
    }
  }

  /** `flatten` lists every node after its parent, at the depth of its number of ancestors. */
  lemma {:induction false} FlattenIsParentFirst(fields: seq<Field>, d: nat)
    ensures ParentFirst(Flatten(fields, d), fields, d)
    decreases fields
  {
    if fields != [] {
      var head, tail := fields[0], fields[1..];
      FlattenIsParentFirst(head.children, d + 1);
      FlattenIsParentFirst(tail, d);
      ConcatIsParentFirst(head, Flatten(head.children, d + 1), Flatten(tail, d), tail, d);
      assert fields == [head] + tail;
    }
  }

  lemma ConcatIsParentFirst(head: Field, C: seq<Row>, T: seq<Row>, tail: seq<Field>, d: nat)
    requires ParentFirst(C, head.children, d + 1) && ParentFirst(T, tail, d)
    ensures ParentFirst([Row(head, d)] + C + T, [head] + tail, d)
  {
    var rows := [Row(head, d)] + C + T;
    forall j | 0 <= j < |rows| ensures IsPlaced(rows, [head] + tail, d, j) {
      if 0 < j <= |C| {
        HeadIsParent(head, C, T, [head] + tail, d, j);
      } else if j > |C| {
        TailHasParents(head, C, T, tail, d, j);
      }
    }
  }

  lemma TailHasParents(head: Field, C: seq<Row>, T: seq<Row>, tail: seq<Field>, d: nat, j: nat)
    requires |C| < j <= |C| + |T| && ParentFirst(T, tail, d)
    ensures IsPlaced([Row(head, d)] + C + T, [head] + tail, d, j)
  {
    var rows, i := [Row(head, d)] + C + T, j - |C| - 1;
    assert rows[j] == T[i] && IsPlaced(T, tail, d, i);
    if T[i].depth > d {
      HasParentWithin([Row(head, d)] + C, T, [], i);
      assert [Row(head, d)] + C + T + [] == rows;
    }
  }

  // ---- Paths extend their parent's ----

  ghost predicate PathsExtend(fields: seq<Field>) {
    forall f <- fields :: (forall c <- f.children :: f.path + "." <= c.path) && PathsExtend(f.children)
  }

  /** Where the fields of a level stand, and that their own children extend them. */
  ghost predicate Located(es: seq<Entry>, prefix: string) {
    forall e <- es :: e.field.path == prefix + Join(e.segments)
                      && (forall c <- e.field.children :: e.field.path + "." <= c.path) && PathsExtend(e.field.children)
  }

  lemma {:induction false} SubtreeExtends(es: seq<Entry>, p: seq<string>, prefix: string)
    requires Located(es, prefix)
    ensures PathsExtend(Subtree(es, p, prefix))
    ensures forall f <- Subtree(es, p, prefix) :: (if p == [] then prefix else prefix + Join(p) + ".") <= f.path
    decreases Height(es) - |p|
  {
    var items, fields := Kids(es, p), Subtree(es, p, prefix);
    forall i | 0 <= i < |items|
      ensures (if p == [] then prefix else prefix + Join(p) + ".") <= fields[i].path
      ensures forall c <- fields[i].children :: fields[i].path + "." <= c.path
      ensures PathsExtend(fields[i].children)
    {
      var item := items[i];
      assert item in items && fields[i] == FieldOf(es, item, p, prefix);
      match item
      case Leaf(n) => if p != [] { JoinExtends(p, es[n].segments); }
      case Object(q) =>
        SubtreeExtends(es, q, prefix);
        if p != [] { JoinExtends(p, q); }
    }
  }

  lemma {:induction false} EntriesAreLocated(g: Graph, schema: SchemaId, prefix: string, ancestors: set<SchemaId>)
    requires Closed(g) && schema in g
    ensures Located(Entries(g, schema, prefix, ancestors), prefix)
    decreases Remaining(ancestors), 0
  {
    var es, paths := Entries(g, schema, prefix, ancestors), g[schema];
    forall i | 0 <= i < |es|
      ensures forall c <- es[i].field.children :: es[i].field.path + "." <= c.path
      ensures PathsExtend(es[i].field.children)
    {
      var t, path := paths[i].1, prefix + paths[i].0;
      assert es[i].field == LeafField(g, path, t, ancestors);
      if t.schema.Some? && t.schema.value !in ancestors && |ancestors| < MAX_DEPTH {
        FieldsExtend(g, t.schema.value, path + ".", ancestors + {t.schema.value});
      }
    }
  }

  /** Every path of an expanded schema starts with its prefix, and extends its parent's path plus a dot. */
  lemma {:induction false} FieldsExtend(g: Graph, schema: SchemaId, prefix: string, ancestors: set<SchemaId>)
    requires Closed(g) && schema in g
    ensures PathsExtend(Fields(g, schema, prefix, ancestors))
    ensures forall f <- Fields(g, schema, prefix, ancestors) :: prefix <= f.path
    decreases Remaining(ancestors), 1
  {
    EntriesAreLocated(g, schema, prefix, ancestors);
    SubtreeExtends(Entries(g, schema, prefix, ancestors), [], prefix);
  }

  // ---- Each level: every path once, one object per proper prefix ----

  ghost predicate Distinct<T>(s: seq<T>) {
    forall i, j | 0 <= i < j < |s| :: s[i] != s[j]
  }

  /** What a level holds below `p`: the paths that extend it, and the proper prefixes of paths that do. */
  ghost predicate Below(es: seq<Entry>, p: seq<string>, item: Item) {
    match item
    case Leaf(i) => i < |es| && p < es[i].segments
    case Object(q) => p < q && exists i :: 0 <= i < |es| && q < es[i].segments
  }

  ghost predicate OneBelow(es: seq<Entry>, p: seq<string>, item: Item) {
    Below(es, p, item) && match item
                          case Leaf(i) => |es[i].segments| == |p| + 1
                          case Object(q) => |q| == |p| + 1
  }

  lemma {:induction false} KidsAreOneBelow(es: seq<Entry>, p: seq<string>, item: Item)
    ensures item in Kids(es, p) <==> OneBelow(es, p, item)
  {
    if es != [] {
      var n := |es| - 1;
      KidsAreOneBelow(es[..n], p, item);
      if item.Object? { OneBelowStep(es, p, item.prefix); }
    }
  }

  /** One more path adds one object below `p` when it goes through it. */
  lemma OneBelowStep(es: seq<Entry>, p: seq<string>, q: seq<string>)
    requires es != []
    ensures var n := |es| - 1;
            OneBelow(es, p, Object(q)) <==>
            (OneBelow(es[..n], p, Object(q))
             || (p < es[n].segments && |es[n].segments| > |p| + 1 && q == es[n].segments[..|p| + 1]))
  {
    var n := |es| - 1;
    var before, segments := es[..n], es[n].segments;
    if OneBelow(before, p, Object(q)) {
      var i :| 0 <= i < |before| && q < before[i].segments;
      assert q < es[i].segments;
    }
    if |segments| > |p| + 1 && p < segments && q == segments[..|p| + 1] {
      assert q < es[n].segments;
    }
    if OneBelow(es, p, Object(q)) {
      var i :| 0 <= i < |es| && q < es[i].segments;
      if i < n { assert q < before[i].segments; } else { assert q == segments[..|p| + 1]; }
    }
  }

  lemma {:induction false} KidsAreDistinct(es: seq<Entry>, p: seq<string>)
    ensures Distinct(Kids(es, p))
  {
    if es != [] {
      var n := |es| - 1;
      KidsAreDistinct(es[..n], p);
      assert Leaf(n) !in Kids(es[..n], p);
    }
  }

  /** The items of a level below `p`, in the order `flatten` lists them. */
  ghost function Preorder(es: seq<Entry>, p: seq<string>): seq<Item>
    decreases Height(es) - |p|, |Kids(es, p)| + 1
  {
    PreorderOf(es, p, Kids(es, p))
  }

  ghost function PreorderOf(es: seq<Entry>, p: seq<string>, items: seq<Item>): seq<Item>
    requires forall item <- items :: item in Kids(es, p)
    decreases Height(es) - |p|, |items|
  {
    if items == [] then [] else
    assert items[0] in Kids(es, p);
    [items[0]] + (if items[0].Object? then Preorder(es, items[0].prefix) else []) + PreorderOf(es, p, items[1..])
  }

  lemma {:induction false} PreorderHolds(es: seq<Entry>, p: seq<string>, item: Item)
    ensures item in Preorder(es, p) <==> Below(es, p, item)
    decreases Height(es) - |p|, |Kids(es, p)| + 1
  {
    PreorderOfHolds(es, p, Kids(es, p), item);
    if Below(es, p, item) {
      var path := if item.Leaf? then es[item.i].segments else item.prefix;
      var q := path[..|p| + 1];
      if |path| == |p| + 1 {
        KidsAreOneBelow(es, p, item);
        assert item in Kids(es, p);
      } else {
        if item.Object? {
          var i :| 0 <= i < |es| && item.prefix < es[i].segments;
          assert q < es[i].segments;
        } else {
          assert q < es[item.i].segments;
        }
        KidsAreOneBelow(es, p, Object(q));
        assert Object(q) in Kids(es, p);
        PreorderHolds(es, q, item);
      }
    }
  }

  lemma {:induction false} PreorderOfHolds(es: seq<Entry>, p: seq<string>, items: seq<Item>, item: Item)
    requires forall k <- items :: k in Kids(es, p)
    ensures item in PreorderOf(es, p, items) <==>
            item in items || exists q :: Object(q) in items && item in Preorder(es, q)
    ensures item in PreorderOf(es, p, items) ==> Below(es, p, item)
    decreases Height(es) - |p|, |items|
  {
    if items != [] {
      var head := items[0];
      assert head in Kids(es, p);
      KidsAreOneBelow(es, p, head);
      PreorderOfHolds(es, p, items[1..], item);
      assert items == [head] + items[1..];
      if head.Object? {
        PreorderHolds(es, head.prefix, item);
        if item in Preorder(es, head.prefix) && item.Object? {
          assert Below(es, head.prefix, item);
        }
      }
    }
  }

  lemma DistinctConcat<T>(a: seq<T>, b: seq<T>)
    requires Distinct(a) && Distinct(b) && forall x <- a :: x !in b
    ensures Distinct(a + b)
  {
    forall i, j | 0 <= i < j < |a + b| ensures (a + b)[i] != (a + b)[j] {
      if i < |a| <= j { assert a[i] in a && b[j - |a|] in b; }
    }
  }

  lemma {:induction false} PreorderIsDistinct(es: seq<Entry>, p: seq<string>)
    ensures Distinct(Preorder(es, p))
    decreases Height(es) - |p|, |Kids(es, p)| + 1
  {
    KidsAreDistinct(es, p);
    PreorderOfIsDistinct(es, p, Kids(es, p));
  }

  lemma {:induction false} PreorderOfIsDistinct(es: seq<Entry>, p: seq<string>, items: seq<Item>)
    requires Distinct(items) && forall k <- items :: k in Kids(es, p)
    ensures Distinct(PreorderOf(es, p, items))
    decreases Height(es) - |p|, |items|
  {
    if items != [] {
      var head, tail := items[0], items[1..];
      assert items == [head] + tail && head !in tail;
      assert head in Kids(es, p);
      PreorderOfIsDistinct(es, p, tail);
      var T := PreorderOf(es, p, tail);
      var H := if head.Object? then Preorder(es, head.prefix) else [];
      if head.Object? { PreorderIsDistinct(es, head.prefix); }
      forall x | x in [head] + H ensures x !in T {
        PreorderOfHolds(es, p, tail, x);
        HeadIsApart(es, p, head, tail, x);
      }
      if head.Object? { PreorderHolds(es, head.prefix, head); }
      DistinctConcat([head], H);
      DistinctConcat([head] + H, T);
    }
  }

  /** What stands under one kid stands under no other. */
  lemma HeadIsApart(es: seq<Entry>, p: seq<string>, head: Item, tail: seq<Item>, x: Item)
    requires forall k <- [head] + tail :: k in Kids(es, p)
    requires head !in tail
    requires x == head || (head.Object? && x in Preorder(es, head.prefix))
    ensures x !in tail && forall q | Object(q) in tail :: x !in Preorder(es, q)
  {
    assert head in [head] + tail;
    KidsAreOneBelow(es, p, head);
    if x != head { PreorderHolds(es, head.prefix, x); }
    KidsAreOneBelow(es, p, x);
    forall q | Object(q) in tail ensures x !in Preorder(es, q) {
      assert Object(q) in [head] + tail;
      KidsAreOneBelow(es, p, Object(q));
      PreorderHolds(es, q, x);
      SamePrefix(es, head, q, x);
    }
  }

  lemma SamePrefix(es: seq<Entry>, head: Item, q: seq<string>, x: Item)
    requires x == head || (head.Object? && Below(es, head.prefix, x))
    requires match head case Leaf(i) => i < |es| && |es[i].segments| == |q| case Object(h) => |h| == |q|
    ensures Below(es, q, x) ==> head == Object(q)
  {
    if Below(es, q, x) && head.Object? && x != head {
      var path := if x.Leaf? then es[x.i].segments else x.prefix;
      assert head.prefix == path[..|q|] == q;
    }
  }

  // ---- The flattened list of a level, row by row ----

  ghost predicate Names(es: seq<Entry>, item: Item) {
    match item
    case Leaf(i) => i < |es| && es[i].segments != []
    case Object(q) => q != []
  }

  ghost function FieldAt(es: seq<Entry>, item: Item, prefix: string): Field
    requires Names(es, item)
  {
    match item
    case Leaf(i) => es[i].field
    case Object(q) => ObjectField(prefix + Join(q), Subtree(es, q, prefix))
  }

  ghost function DepthOf(es: seq<Entry>, item: Item): nat
    requires Names(es, item)
  {
    match item
    case Leaf(i) => |es[i].segments| - 1
    case Object(q) => |q| - 1
  }

  /** The rows of an item: an object alone, a path followed by the rows of the schema it embeds. */
  ghost function RowsOf(es: seq<Entry>, item: Item, prefix: string, base: nat): seq<Row> {
    if !Names(es, item) then [] else
    var field, depth := FieldAt(es, item, prefix), base + DepthOf(es, item);
    if item.Leaf? then [Row(field, depth)] + Flatten(field.children, depth + 1) else [Row(field, depth)]
  }

  lemma KidField(es: seq<Entry>, p: seq<string>, kid: Item, prefix: string)
    requires kid in Kids(es, p)
    ensures Names(es, kid) && DepthOf(es, kid) == |p| && FieldAt(es, kid, prefix) == FieldOf(es, kid, p, prefix)
  {
  }

  ghost function AllRows(es: seq<Entry>, items: seq<Item>, prefix: string, base: nat): seq<Row> {
    if items == [] then [] else RowsOf(es, items[0], prefix, base) + AllRows(es, items[1..], prefix, base)
  }

  lemma {:induction false} AllRowsConcat(es: seq<Entry>, a: seq<Item>, b: seq<Item>, prefix: string, base: nat)
    ensures AllRows(es, a + b, prefix, base) == AllRows(es, a, prefix, base) + AllRows(es, b, prefix, base)
  {
    if a == [] {
      assert a + b == b;
    } else {
      assert (a + b)[1..] == a[1..] + b;
      AllRowsConcat(es, a[1..], b, prefix, base);
    }
  }

  /** The flattened fields of some kids of `p` are the rows of the items below them. */
  ghost predicate FlattensTo(es: seq<Entry>, p: seq<string>, kids: seq<Item>, prefix: string, base: nat)
    requires forall k <- kids :: k in Kids(es, p)
  {
    Flatten(FieldsOfItems(es, kids, p, prefix), base + |p|) == AllRows(es, PreorderOf(es, p, kids), prefix, base)
  }

  lemma {:induction false} FlattenItems(es: seq<Entry>, p: seq<string>, kids: seq<Item>, prefix: string, base: nat)
    requires forall k <- kids :: k in Kids(es, p)
    ensures FlattensTo(es, p, kids, prefix, base)
    decreases Height(es) - |p|, |kids|
  {
    if kids != [] {
      var head, tail := kids[0], kids[1..];
      assert kids == [head] + tail && head in Kids(es, p);
      FlattenItems(es, p, tail, prefix, base);
      if head.Object? {
        FlattenItems(es, head.prefix, Kids(es, head.prefix), prefix, base);
        FlattenObject(es, p, head, tail, prefix, base);
      } else {
        FlattenLeaf(es, p, head, tail, prefix, base);
      }
    }
  }

  lemma FlattenCons(es: seq<Entry>, p: seq<string>, head: Item, tail: seq<Item>, prefix: string, d: nat)
    requires head in Kids(es, p) && (forall k <- tail :: k in Kids(es, p)) && forall k <- [head] + tail :: k in Kids(es, p)
    ensures var field := FieldAt(es, head, prefix);
            Flatten(FieldsOfItems(es, [head] + tail, p, prefix), d)
            == [Row(field, d)] + (Flatten(field.children, d + 1) + Flatten(FieldsOfItems(es, tail, p, prefix), d))
  {
    KidField(es, p, head, prefix);
    var fields := FieldsOfItems(es, [head] + tail, p, prefix);
    assert fields[1..] == FieldsOfItems(es, tail, p, prefix);
  }

  lemma HeadRows(es: seq<Entry>, p: seq<string>, head: Item, prefix: string, base: nat)
    requires head in Kids(es, p)
    ensures Names(es, head)
    ensures var field, d := FieldAt(es, head, prefix), base + |p|;
            RowsOf(es, head, prefix, base)
            == if head.Leaf? then [Row(field, d)] + Flatten(field.children, d + 1) else [Row(field, d)]
  {
    hide Flatten, Kids, FieldAt, DepthOf;
    KidField(es, p, head, prefix);
  }

  lemma FlattenLeaf(es: seq<Entry>, p: seq<string>, head: Item, tail: seq<Item>, prefix: string, base: nat)
    requires head.Leaf? && head in Kids(es, p) && forall k <- [head] + tail :: k in Kids(es, p)
    requires (forall k <- tail :: k in Kids(es, p)) && FlattensTo(es, p, tail, prefix, base)
    ensures FlattensTo(es, p, [head] + tail, prefix, base)
  {
    hide Flatten, AllRows, RowsOf, FieldsOfItems, PreorderOf, Kids, FieldAt;
    var d, field, T := base + |p|, FieldAt(es, head, prefix), PreorderOf(es, p, tail);
    HeadRows(es, p, head, prefix, base);
    calc {
      Flatten(FieldsOfItems(es, [head] + tail, p, prefix), d);
      { FlattenCons(es, p, head, tail, prefix, d); }
      [Row(field, d)] + (Flatten(field.children, d + 1) + AllRows(es, T, prefix, base));
      ([Row(field, d)] + Flatten(field.children, d + 1)) + AllRows(es, T, prefix, base);
      RowsOf(es, head, prefix, base) + AllRows(es, T, prefix, base);
      { AllRowsCons(es, head, T, prefix, base); }
      AllRows(es, [head] + T, prefix, base);
      { PreorderCons(es, p, head, tail); assert [] + T == T; }
      AllRows(es, PreorderOf(es, p, [head] + tail), prefix, base);
    }
  }

  lemma FlattenObject(es: seq<Entry>, p: seq<string>, head: Item, tail: seq<Item>, prefix: string, base: nat)
    requires head.Object? && head in Kids(es, p) && forall k <- [head] + tail :: k in Kids(es, p)
    requires (forall k <- tail :: k in Kids(es, p)) && FlattensTo(es, p, tail, prefix, base)
    requires FlattensTo(es, head.prefix, Kids(es, head.prefix), prefix, base)
    ensures FlattensTo(es, p, [head] + tail, prefix, base)
  {
    hide Flatten, AllRows, RowsOf, FieldsOfItems, PreorderOf, Kids, FieldAt;
    var d, field := base + |p|, FieldAt(es, head, prefix);
    HeadRows(es, p, head, prefix, base);
    calc {
      Flatten(FieldsOfItems(es, [head] + tail, p, prefix), d);
      { FlattenCons(es, p, head, tail, prefix, d); }
      [Row(field, d)] + (Flatten(field.children, d + 1) + Flatten(FieldsOfItems(es, tail, p, prefix), d));
      { ObjectChildren(es, head, prefix, base, d + 1); }
      RowsOf(es, head, prefix, base)
      + (AllRows(es, Preorder(es, head.prefix), prefix, base) + AllRows(es, PreorderOf(es, p, tail), prefix, base));
      { PreorderRows(es, p, head, tail, prefix, base); }
      AllRows(es, PreorderOf(es, p, [head] + tail), prefix, base);
    }
  }

  lemma ObjectChildren(es: seq<Entry>, head: Item, prefix: string, base: nat, d: nat)
    requires head.Object? && head.prefix != [] && d == base + |head.prefix|
    requires FlattensTo(es, head.prefix, Kids(es, head.prefix), prefix, base)
    ensures Flatten(FieldAt(es, head, prefix).children, d) == AllRows(es, Preorder(es, head.prefix), prefix, base)
  {
    var kids := Kids(es, head.prefix);
    assert FieldAt(es, head, prefix).children == FieldsOfItems(es, kids, head.prefix, prefix);
  }

  lemma PreorderCons(es: seq<Entry>, p: seq<string>, head: Item, tail: seq<Item>)
    requires head in Kids(es, p) && (forall k <- tail :: k in Kids(es, p)) && forall k <- [head] + tail :: k in Kids(es, p)
    ensures PreorderOf(es, p, [head] + tail)
            == [head] + ((if head.Object? then Preorder(es, head.prefix) else []) + PreorderOf(es, p, tail))
  {
    assert ([head] + tail)[1..] == tail;
  }

  lemma AllRowsCons(es: seq<Entry>, head: Item, rest: seq<Item>, prefix: string, base: nat)
    ensures AllRows(es, [head] + rest, prefix, base) == RowsOf(es, head, prefix, base) + AllRows(es, rest, prefix, base)
  {
    assert ([head] + rest)[1..] == rest;
  }

  lemma PreorderRows(es: seq<Entry>, p: seq<string>, head: Item, tail: seq<Item>, prefix: string, base: nat)
    requires head.Object? && head in Kids(es, p) && forall k <- [head] + tail :: k in Kids(es, p)
    requires forall k <- tail :: k in Kids(es, p)
    ensures AllRows(es, PreorderOf(es, p, [head] + tail), prefix, base)
            == RowsOf(es, head, prefix, base)
               + (AllRows(es, Preorder(es, head.prefix), prefix, base) + AllRows(es, PreorderOf(es, p, tail), prefix, base))
  {
    var H, T := Preorder(es, head.prefix), PreorderOf(es, p, tail);
    PreorderCons(es, p, head, tail);
    AllRowsCons(es, head, H + T, prefix, base);
    AllRowsConcat(es, H, T, prefix, base);
  }

  /**
   * `flatten` over a level: one row per path and one object row per distinct proper prefix of a
   * path, each exactly once, at the depth of its number of segments; the rows of an embedded
   * schema come right after the path that embeds it.
   */
  lemma LevelListsEachPathOnce(g: Graph, schema: SchemaId, prefix: string, ancestors: set<SchemaId>, base: nat)
    requires Closed(g) && schema in g
    ensures var es := Entries(g, schema, prefix, ancestors);
            var items := Preorder(es, []);
            && Distinct(items)
            && (forall i: nat :: Leaf(i) in items <==> i < |es|)
            && (forall q :: Object(q) in items <==> q != [] && exists i :: 0 <= i < |es| && q < es[i].segments)
            && (forall item <- items :: Below(es, [], item))
            && Flatten(Fields(g, schema, prefix, ancestors), base) == AllRows(es, items, prefix, base)
  {
    var es := Entries(g, schema, prefix, ancestors);
    PreorderIsDistinct(es, []);
    LevelItems(es);
    forall item <- Preorder(es, []) ensures Below(es, [], item) {
      PreorderHolds(es, [], item);
    }
    FlattenItems(es, [], Kids(es, []), prefix, base);
  }

  lemma LevelItems(es: seq<Entry>)
    requires forall e <- es :: e.segments != []
    ensures forall i: nat :: Leaf(i) in Preorder(es, []) <==> i < |es|
    ensures forall q :: Object(q) in Preorder(es, []) <==> q != [] && exists i :: 0 <= i < |es| && q < es[i].segments
  {
    forall i: nat ensures Leaf(i) in Preorder(es, []) <==> i < |es| {
      PreorderHolds(es, [], Leaf(i));
    }
    forall q ensures Object(q) in Preorder(es, []) <==> q != [] && exists i :: 0 <= i < |es| && q < es[i].segments {
      PreorderHolds(es, [], Object(q));
    }
  }

  /** The rows of a whole model, as `mapModel` reads them: parents first, each path under its parent's. */
  lemma ModelRowsAreNested(g: Graph, schema: SchemaId, j: nat)
    requires Closed(g) && schema in g && j < |Flatten(Fields(g, schema, "", {schema}), 0)|
    ensures var fields := Fields(g, schema, "", {schema});
            var rows := Flatten(fields, 0);
            if rows[j].depth == 0 then rows[j].field in fields
            else exists i: nat :: i < j && IsParent(rows, i, j) && rows[i].field.path + "." <= rows[j].field.path
  {
    var fields := Fields(g, schema, "", {schema});
    var rows := Flatten(fields, 0);
    FlattenIsParentFirst(fields, 0);
    FieldsExtend(g, schema, "", {schema});
    assert IsPlaced(rows, fields, 0, j);
    if rows[j].depth > 0 {
      var i: nat :| i < j && IsParent(rows, i, j);
      RowsExtend(fields, 0, i);
    }
  }

  lemma {:induction false} RowsExtend(fields: seq<Field>, d: nat, i: nat)
    requires PathsExtend(fields) && i < |Flatten(fields, d)|
    ensures forall c <- Flatten(fields, d)[i].field.children :: Flatten(fields, d)[i].field.path + "." <= c.path
    decreases fields
  {
    var C := Flatten(fields[0].children, d + 1);
    assert fields[0] in fields;
    if 0 < i <= |C| {
      RowsExtend(fields[0].children, d + 1, i - 1);
    } else if i > |C| {
      RowsExtend(fields[1..], d, i - |C| - 1);
    }
  }
}
