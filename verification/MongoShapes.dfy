/**
 * The shape of a Mongo argument and the fingerprint made of it (build-mongo-command.ts): two
 * operations share a fingerprint when they only differ in values and in the order of keys.
 */
module MongoShapes {
  import opened CodeUnits
  import opened ObjectLiterals
  import opened Options

  /** An argument: own keys in the order they were set, and each once. Values are as `String` gives them. */
  datatype Value = Leaf(text: string) | Arr(items: seq<Value>) | Obj(entries: seq<(string, Value)>)

  /** What is left of it: `?` for a value, keys sorted. */
  datatype Shape = Hole | ArrOf(items: seq<Shape>) | ObjOf(entries: seq<(string, Shape)>)

  // ---- Keys ----

  lemma {:induction false} KeysCompare(a: string, b: string)
    ensures TextBefore(a, b) || a == b || TextBefore(b, a)
    ensures !(TextBefore(a, b) && TextBefore(b, a)) && !TextBefore(a, a)
  {
    if a != "" && b != "" && a[0] == b[0] {
      KeysCompare(a[1..], b[1..]);
      assert a == [a[0]] + a[1..] && b == [b[0]] + b[1..];
    }
    if a != "" { KeysCompare(a[1..], a[1..]); }
  }

  lemma {:induction false} KeysChain(a: string, b: string, c: string)
    requires TextBefore(a, b) && TextBefore(b, c)
    ensures TextBefore(a, c)
  {
    if a != "" && a[0] == b[0] && b[0] == c[0] {
      KeysChain(a[1..], b[1..], c[1..]);
    }
  }

  function KeysOf<T>(entries: seq<(string, T)>): (keys: seq<string>)
    ensures |keys| == |entries| && forall i | 0 <= i < |keys| :: keys[i] == entries[i].0
  {
    if entries == [] then [] else [entries[0].0] + KeysOf(entries[1..])
  }

  function InsertKey(keys: seq<string>, k: string): seq<string> {
    if keys == [] || TextBefore(k, keys[0]) then [k] + keys else [keys[0]] + InsertKey(keys[1..], k)
  }

  /** `Object.keys(value).sort()`. */
  function SortKeys(keys: seq<string>): seq<string> {
    if keys == [] then [] else InsertKey(SortKeys(keys[1..]), keys[0])
  }

  ghost predicate Ascending(keys: seq<string>) {
    forall i, j | 0 <= i < j < |keys| :: TextBefore(keys[i], keys[j])
  }

  ghost predicate DistinctKeys(keys: seq<string>) {
    forall i, j | 0 <= i < j < |keys| :: keys[i] != keys[j]
  }

  lemma {:induction false} InsertKeepsAscending(keys: seq<string>, k: string)
    requires Ascending(keys) && k !in keys
    ensures Ascending(InsertKey(keys, k)) && forall x :: x in InsertKey(keys, k) <==> x in keys || x == k
  {
    if keys != [] && !TextBefore(k, keys[0]) {
      KeysCompare(k, keys[0]);
      assert keys[0] in keys && TextBefore(keys[0], k);
      InsertKeepsAscending(keys[1..], k);
      var rest := InsertKey(keys[1..], k);
      forall j | 0 <= j < |rest| ensures TextBefore(keys[0], rest[j]) {
        assert rest[j] in rest;
        if rest[j] != k { var i :| 0 <= i < |keys[1..]| && keys[1..][i] == rest[j]; }
      }
      assert keys == [keys[0]] + keys[1..];
    } else if keys != [] {
      forall j | 0 <= j < |keys| ensures TextBefore(k, keys[j]) {
        if j > 0 { KeysChain(k, keys[0], keys[j]); }
      }
    }
  }

  lemma {:induction false} SortedKeys(keys: seq<string>)
    requires DistinctKeys(keys)
    ensures Ascending(SortKeys(keys)) && forall k :: k in SortKeys(keys) <==> k in keys
  {
    if keys != [] {
      SortedKeys(keys[1..]);
      forall i | 0 <= i < |keys[1..]| ensures keys[1..][i] != keys[0] {
      }
      InsertKeepsAscending(SortKeys(keys[1..]), keys[0]);
      assert keys == [keys[0]] + keys[1..];
    }
  }

  /** Sorted, a set of keys has one order. */
  lemma {:induction false} OneOrder(a: seq<string>, b: seq<string>)
    requires Ascending(a) && Ascending(b) && forall k :: k in a <==> k in b
    ensures a == b
  {
    if a == [] {
      if b != [] { SomeKey(b); }
    } else {
      assert a[0] in a;
      var i :| 0 <= i < |b| && b[i] == a[0];
      assert b[0] in b;
      var j :| 0 <= j < |a| && a[j] == b[0];
      KeysCompare(a[0], b[0]);
      assert a[0] == b[0];
      HeadIsNotInTail(a);
      HeadIsNotInTail(b);
      forall k ensures k in a[1..] <==> k in b[1..] {
        assert a == [a[0]] + a[1..] && b == [b[0]] + b[1..];
        assert k in a <==> k in b;
      }
      OneOrder(a[1..], b[1..]);
    }
  }

  lemma SomeKey(keys: seq<string>)
    requires keys != []
    ensures exists k :: k in keys
  {
    assert keys[0] in keys;
  }

  lemma HeadIsNotInTail(keys: seq<string>)
    requires keys != [] && Ascending(keys)
    ensures keys[0] !in keys[1..]
  {
    KeysCompare(keys[0], keys[0]);
    forall i | 0 <= i < |keys[1..]| ensures keys[1..][i] != keys[0] {
      assert TextBefore(keys[0], keys[i + 1]);
    }
  }

  // ---- Shapes ----

  /** Where an object holds a key. */
  function Position<T>(entries: seq<(string, T)>, k: string): (i: Option<nat>)
    ensures i.Some? <==> k in KeysOf(entries)
    ensures i.Some? ==> i.value < |entries| && entries[i.value].0 == k
  {
    if entries == [] then None
    else if entries[|entries| - 1].0 == k then Some(|entries| - 1)
    else
      assert forall x :: x in KeysOf(entries) <==> x in KeysOf(entries[..|entries| - 1]) || x == entries[|entries| - 1].0 by {
        KeysOfInit(entries);
      }
      Position(entries[..|entries| - 1], k)
  }

  lemma KeysOfInit<T>(entries: seq<(string, T)>)
    requires entries != []
    ensures KeysOf(entries) == KeysOf(entries[..|entries| - 1]) + [entries[|entries| - 1].0]
  {
  }

  /** `shapeOf`. */
  function ShapeOf(v: Value): (shape: Shape)
    decreases v, 1
  {
    match v
    case Leaf(_) => Hole
    case Arr(items) => ArrOf(seq(|items|, i requires 0 <= i < |items| => ShapeOf(items[i])))
    case Obj(entries) => ObjOf(ShapesOf(v, SortKeys(KeysOf(entries))))
  }

  /** The loop over the sorted keys. */
  function ShapesOf(v: Value, keys: seq<string>): (shapes: seq<(string, Shape)>)
    requires v.Obj?
    decreases v, 0, |keys|
  {
    if keys == [] then [] else
    var rest := ShapesOf(v, keys[1..]);
    match Position(v.entries, keys[0])
    case Some(i) => if keys[0] == PROTO then rest else [(keys[0], ShapeOf(v.entries[i].1))] + rest
    case None => rest
  }

  /** Every object of the value names each key once. */
  predicate IsProper(v: Value)
    decreases v
  {
    match v
    case Leaf(_) => true
    case Arr(items) => forall i | 0 <= i < |items| :: IsProper(items[i])
    case Obj(entries) =>
      && (forall i, j | 0 <= i < j < |entries| :: entries[i].0 != entries[j].0)
      && forall i | 0 <= i < |entries| :: IsProper(entries[i].1)
  }

  /** Alike up to values and the order of keys, at every depth; the key of the prototype is none. */
  ghost predicate Alike(v: Value, w: Value)
    decreases v
  {
    match (v, w)
    case (Leaf(_), Leaf(_)) => true
    case (Arr(a), Arr(b)) => |a| == |b| && forall i | 0 <= i < |a| :: Alike(a[i], b[i])
    case (Obj(a), Obj(b)) =>
      && (forall k | k != PROTO :: k in KeysOf(a) <==> k in KeysOf(b))
      && forall i, j | 0 <= i < |a| && 0 <= j < |b| && a[i].0 == b[j].0 && a[i].0 != PROTO :: Alike(a[i].1, b[j].1)
    case _ => false
  }

  /** The keys of a shape are those of the value, sorted, without the prototype's. */
  function Kept(keys: seq<string>): seq<string> {
    if keys == [] then [] else if keys[0] == PROTO then Kept(keys[1..]) else [keys[0]] + Kept(keys[1..])
  }

  lemma {:induction false} KeptKeys(keys: seq<string>)
    requires Ascending(keys)
    ensures Ascending(Kept(keys)) && forall k :: k in Kept(keys) <==> k in keys && k != PROTO
  {
    if keys != [] {
      KeptKeys(keys[1..]);
      assert keys == [keys[0]] + keys[1..];
      var rest := Kept(keys[1..]);
      forall j | 0 <= j < |rest| ensures TextBefore(keys[0], rest[j]) {
        assert rest[j] in rest;
        var i :| 0 <= i < |keys[1..]| && keys[1..][i] == rest[j];
        assert TextBefore(keys[0], keys[i + 1]);
      }
    }
  }

  lemma {:induction false} ShapesOfKeys(entries: seq<(string, Value)>, keys: seq<string>)
    requires forall k <- keys :: k in KeysOf(entries)
    ensures KeysOf(ShapesOf(Obj(entries), keys)) == Kept(keys)
    ensures forall i | 0 <= i < |Kept(keys)| ::
              var j := Position(entries, Kept(keys)[i]);
              j.Some? && ShapesOf(Obj(entries), keys)[i].1 == ShapeOf(entries[j.value].1)
    decreases |keys|
  {
    if keys != [] {
      assert keys[0] in keys && keys == [keys[0]] + keys[1..];
      ShapesOfKeys(entries, keys[1..]);
    }
  }

  /** What the shape of an object holds: under each of its keys, sorted, the shape of the value there. */
  lemma ObjectShape(entries: seq<(string, Value)>)
    requires IsProper(Obj(entries))
    ensures var shapes := ShapesOf(Obj(entries), SortKeys(KeysOf(entries)));
            && Ascending(KeysOf(shapes)) && (forall k :: k in KeysOf(shapes) <==> k in KeysOf(entries) && k != PROTO)
            && forall i, j | 0 <= i < |shapes| && 0 <= j < |entries| && shapes[i].0 == entries[j].0 ::
                 shapes[i].1 == ShapeOf(entries[j].1)
  {
    var keys := SortKeys(KeysOf(entries));
    SortedKeys(KeysOf(entries));
    KeptKeys(keys);
    ShapesOfKeys(entries, keys);
    hide ShapesOf, ShapeOf, Kept, Ascending, SortKeys, Position, TextBefore;
    var shapes := ShapesOf(Obj(entries), keys);
    forall i, j | 0 <= i < |shapes| && 0 <= j < |entries| && shapes[i].0 == entries[j].0 ensures shapes[i].1 == ShapeOf(entries[j].1) {
      assert Kept(keys)[i] == KeysOf(shapes)[i] == shapes[i].0;
      var k := Position(entries, Kept(keys)[i]).value;
      assert entries[k].0 == entries[j].0;
    }
  }

  // ---- Same shape, alike ----

  /** Two values have the same shape exactly when they are alike up to values and the order of keys. */
  lemma {:induction false} SameShapeIffAlike(v: Value, w: Value)
    requires IsProper(v) && IsProper(w)
    ensures ShapeOf(v) == ShapeOf(w) <==> Alike(v, w)
    decreases v
  {
    hide ShapeOf, IsProper, KeysOf;
    SameKind(v);
    SameKind(w);
    ProperParts(v);
    ProperParts(w);
    match (v, w)
    case (Arr(a), Arr(b)) =>
      if |a| == |b| {
        forall i | 0 <= i < |a| ensures ShapeOf(a[i]) == ShapeOf(b[i]) <==> Alike(a[i], b[i]) {
          SameShapeIffAlike(a[i], b[i]);
        }
      }
      ArrayShapes(a, b);
    case (Obj(a), Obj(b)) =>
      forall i, j | 0 <= i < |a| && 0 <= j < |b| ensures ShapeOf(a[i].1) == ShapeOf(b[j].1) <==> Alike(a[i].1, b[j].1) {
        SameShapeIffAlike(a[i].1, b[j].1);
      }
      ObjectShapes(a, b);
    case _ =>
  }

  lemma SameKind(v: Value)
    ensures match v
            case Leaf(_) => ShapeOf(v) == Hole
            case Arr(_) => ShapeOf(v).ArrOf?
            case Obj(_) => ShapeOf(v).ObjOf?
  {
  }

  lemma ProperParts(v: Value)
    requires IsProper(v)
    ensures match v
            case Leaf(_) => true
            case Arr(items) => forall i | 0 <= i < |items| :: IsProper(items[i])
            case Obj(entries) => forall i | 0 <= i < |entries| :: IsProper(entries[i].1)
  {
  }

  lemma ArrayShapes(a: seq<Value>, b: seq<Value>)
    ensures ShapeOf(Arr(a)) == ShapeOf(Arr(b)) <==> |a| == |b| && forall i | 0 <= i < |a| :: ShapeOf(a[i]) == ShapeOf(b[i])
  {
    var x, y := ShapeOf(Arr(a)).items, ShapeOf(Arr(b)).items;
    assert |x| == |a| && |y| == |b|;
    assert forall i | 0 <= i < |a| :: x[i] == ShapeOf(a[i]);
    assert forall i | 0 <= i < |b| :: y[i] == ShapeOf(b[i]);
  }

  /** The same keys, and under each the same shape. */
  ghost predicate SameEntries(a: seq<(string, Value)>, b: seq<(string, Value)>) {
    && (forall k | k != PROTO :: k in KeysOf(a) <==> k in KeysOf(b))
    && (forall i, j | 0 <= i < |a| && 0 <= j < |b| && a[i].0 == b[j].0 && a[i].0 != PROTO :: ShapeOf(a[i].1) == ShapeOf(b[j].1))
  }

  function Shapes(entries: seq<(string, Value)>): seq<(string, Shape)> {
    ShapesOf(Obj(entries), SortKeys(KeysOf(entries)))
  }

  lemma KeyAt<T>(entries: seq<(string, T)>, k: string) returns (i: nat)
    requires k in KeysOf(entries)
    ensures i < |entries| && entries[i].0 == k
  {
    var j :| 0 <= j < |KeysOf(entries)| && KeysOf(entries)[j] == k;
    i := j;
  }

  lemma SameShapesSameEntries(a: seq<(string, Value)>, b: seq<(string, Value)>)
    requires IsProper(Obj(a)) && IsProper(Obj(b)) && Shapes(a) == Shapes(b)
    ensures SameEntries(a, b)
  {
    hide ShapeOf, ShapesOf, SortKeys, KeysOf, TextBefore;
    ObjectShape(a);
    ObjectShape(b);
    forall i, j | 0 <= i < |a| && 0 <= j < |b| && a[i].0 == b[j].0 && a[i].0 != PROTO ensures ShapeOf(a[i].1) == ShapeOf(b[j].1) {
      assert KeysOf(a)[i] in KeysOf(a);
      var n := KeyAt(Shapes(a), a[i].0);
    }
    forall k | k != PROTO ensures k in KeysOf(a) <==> k in KeysOf(b) {
      assert k in KeysOf(Shapes(a)) <==> k in KeysOf(Shapes(b));
    }
  }

  lemma SameEntriesSameShapes(a: seq<(string, Value)>, b: seq<(string, Value)>)
    requires IsProper(Obj(a)) && IsProper(Obj(b)) && SameEntries(a, b)
    ensures Shapes(a) == Shapes(b)
  {
    hide ShapeOf, ShapesOf, SortKeys, KeysOf, TextBefore;
    ObjectShape(a);
    ObjectShape(b);
    var x, y := Shapes(a), Shapes(b);
    forall k ensures k in KeysOf(x) <==> k in KeysOf(y) {
    }
    OneOrder(KeysOf(x), KeysOf(y));
    forall n | 0 <= n < |x| ensures x[n] == y[n] {
      assert KeysOf(x)[n] in KeysOf(x) && KeysOf(x)[n] == KeysOf(y)[n];
      var i := KeyAt(a, x[n].0);
      var j := KeyAt(b, x[n].0);
    }
  }

  lemma ObjectShapes(a: seq<(string, Value)>, b: seq<(string, Value)>)
    requires IsProper(Obj(a)) && IsProper(Obj(b))
    ensures ShapeOf(Obj(a)) == ShapeOf(Obj(b)) <==> SameEntries(a, b)
  {
    if Shapes(a) == Shapes(b) { SameShapesSameEntries(a, b); }
    if SameEntries(a, b) { SameEntriesSameShapes(a, b); }
  }

  // ---- The computation ----

  /** `shapeOf` as it runs: one loop over the items of an array, one over the sorted keys of an object. */
  method ComputeShape(v: Value) returns (shape: Shape)
    ensures shape == ShapeOf(v)
    decreases v, 1
  {
    match v
    case Leaf(_) => shape := Hole;
    case Arr(items) =>
      var shapes := [];
      for i := 0 to |items|
        invariant |shapes| == i && forall j | 0 <= j < i :: shapes[j] == ShapeOf(items[j])
      {
        var item := ComputeShape(items[i]);
        shapes := shapes + [item];
      }
      shape := ArrOf(shapes);
    case Obj(entries) =>
      var keys := SortKeys(KeysOf(entries));
      var out := [];
      assert keys[0..] == keys;
      for i := 0 to |keys|
        invariant out + ShapesOf(v, keys[i..]) == ShapesOf(v, keys)
      {
        assert keys[i..][1..] == keys[i + 1..];
        var position := Position(entries, keys[i]);
        if position.Some? && keys[i] != PROTO {
          var item := ComputeShape(entries[position.value].1);
          out := out + [(keys[i], item)];
        }
      }
      assert keys[|keys|..] == [];
      shape := ObjOf(out);
  }

  // ---- A shape is its own shape ----

  /** A shape read as an argument again. */
  function Embed(shape: Shape): Value {
    match shape
    case Hole => Leaf("?")
    case ArrOf(items) => Arr(seq(|items|, i requires 0 <= i < |items| => Embed(items[i])))
    case ObjOf(entries) => Obj(seq(|entries|, i requires 0 <= i < |entries| => (entries[i].0, Embed(entries[i].1))))
  }

  lemma {:induction false} EmbedIsAlike(v: Value)
    requires IsProper(v)
    ensures IsProper(Embed(ShapeOf(v))) && Alike(Embed(ShapeOf(v)), v)
    decreases v
  {
    match v
    case Leaf(_) =>
    case Arr(items) =>
      forall i | 0 <= i < |items| ensures IsProper(Embed(ShapeOf(items[i]))) && Alike(Embed(ShapeOf(items[i])), items[i]) {
        EmbedIsAlike(items[i]);
      }
    case Obj(entries) =>
      forall j | 0 <= j < |entries| ensures IsProper(Embed(ShapeOf(entries[j].1))) && Alike(Embed(ShapeOf(entries[j].1)), entries[j].1) {
        EmbedIsAlike(entries[j].1);
      }
      EmbeddedObject(entries);
  }

  lemma EmbeddedObject(entries: seq<(string, Value)>)
    requires IsProper(Obj(entries))
    requires forall j | 0 <= j < |entries| :: IsProper(Embed(ShapeOf(entries[j].1))) && Alike(Embed(ShapeOf(entries[j].1)), entries[j].1)
    ensures IsProper(Embed(ShapeOf(Obj(entries)))) && Alike(Embed(ShapeOf(Obj(entries))), Obj(entries))
  {
    hide SortKeys, KeysOf, TextBefore;
    ObjectShape(entries);
    var shapes := Shapes(entries);
    var embedded := Embed(ObjOf(shapes)).entries;
    assert forall n | 0 <= n < |shapes| :: embedded[n] == (shapes[n].0, Embed(shapes[n].1));
    forall m, n | 0 <= m < n < |shapes| ensures shapes[m].0 != shapes[n].0 {
      KeysCompare(KeysOf(shapes)[m], KeysOf(shapes)[n]);
    }
    forall n | 0 <= n < |shapes| ensures IsProper(embedded[n].1) {
      assert KeysOf(shapes)[n] in KeysOf(shapes);
      var j := KeyAt(entries, shapes[n].0);
    }
    assert KeysOf(embedded) == KeysOf(shapes);
  }

  lemma ShapeOfShape(v: Value)
    requires IsProper(v)
    ensures ShapeOf(Embed(ShapeOf(v))) == ShapeOf(v)
  {
    EmbedIsAlike(v);
    SameShapeIffAlike(Embed(ShapeOf(v)), v);
  }

  // ---- Fingerprints ----

  /** What an operation was captured with. */
  datatype Operation = Operation(
    operation: string,
    collection: string,
    field: Option<string>,
    pipeline: Option<Value>,
    operations: Option<Value>,
    documents: Option<seq<Value>>,
    filter: Option<Value>,
    update: Option<Value>)

  /** `commandArgument`. */
  function CommandArgument(e: Operation): Value {
    if e.operation == "aggregate" then e.pipeline.GetOr(Arr([]))
    else if e.operations.Some? then e.operations.value
    else if e.documents.Some? then
      if e.operation == "insertOne" && |e.documents.value| == 1 then e.documents.value[0] else Arr(e.documents.value)
    else e.filter.GetOr(Obj([]))
  }

  /** What precedes the shapes. */
  function Heading(e: Operation): string {
    e.operation + " " + e.collection + " " + if e.field.Some? then e.field.value + " " else ""
  }

  /** `buildMongoFingerprint`; `render` stands for `JSON.stringify`. */
  function Fingerprint(e: Operation, render: Shape -> string): string {
    Heading(e) + render(ShapeOf(CommandArgument(e))) + if e.update.Some? then " " + render(ShapeOf(e.update.value)) else ""
  }

  /** A JSON text ends where its value does: none is the beginning of another. */
  ghost predicate IsJson(render: Shape -> string) {
    forall x, y :: render(x) <= render(y) ==> x == y
  }

  /** The pipeline of an aggregation, the operations of a bulk write, the document of an `insertOne` or the documents, else the filter. */
  lemma ArgumentsAre(e: Operation)
    ensures var argument := CommandArgument(e);
            && (e.operation == "aggregate" && e.pipeline.Some? ==> argument == e.pipeline.value)
            && (e.operation == "aggregate" && e.pipeline.None? ==> argument == Arr([]))
            && (e.operation != "aggregate" && e.operations.Some? ==> argument == e.operations.value)
            && (e.operation != "aggregate" && e.operations.None? && e.documents.Some? ==>
                  argument == (if e.operation == "insertOne" && |e.documents.value| == 1 then e.documents.value[0] else Arr(e.documents.value)))
            && (e.operation != "aggregate" && e.operations.None? && e.documents.None? ==>
                  argument == (if e.filter.Some? then e.filter.value else Obj([])))
  {
  }

  predicate IsWord(s: string) {
    ' ' !in s
  }

  lemma WordsAgree(a: string, rest: string, b: string, rest': string)
    requires IsWord(a) && IsWord(b) && a + (" " + rest) == b + (" " + rest')
    ensures a == b && rest == rest'
  {
    var u := a + (" " + rest);
    assert u[|a|] == ' ' && u[|b|] == ' ';
    assert forall i | 0 <= i < |a| :: u[i] == a[i];
    assert forall i | 0 <= i < |b| :: u[i] == b[i];
    assert a == u[..|a|] && b == u[..|b|];
    assert (" " + rest)[1..] == rest && (" " + rest')[1..] == rest' && u[|a|..] == " " + rest && u[|b|..] == " " + rest';
  }

  /** The fingerprint: the operation, the collection, the field if there is one, the argument's shape, the update's if there is one, a space between. */
  lemma FingerprintIs(e: Operation, render: Shape -> string)
    ensures var argument := render(ShapeOf(CommandArgument(e))) + (if e.update.Some? then " " + render(ShapeOf(e.update.value)) else "");
            Fingerprint(e, render)
            == e.operation + (" " + (e.collection + (" " + if e.field.Some? then e.field.value + (" " + argument) else argument)))
  {
    hide CommandArgument, ShapeOf;
  }

  /** Two operations share a fingerprint only on one collection, and only if they are of one name, when names are words. */
  lemma FingerprintsTellOperations(a: Operation, b: Operation, render: Shape -> string)
    requires IsWord(a.operation) && IsWord(b.operation) && IsWord(a.collection) && IsWord(b.collection)
    requires Fingerprint(a, render) == Fingerprint(b, render)
    ensures a.operation == b.operation && a.collection == b.collection
  {
    FingerprintIs(a, render);
    FingerprintIs(b, render);
    hide Fingerprint, CommandArgument, ShapeOf, IsWord;
    var x := render(ShapeOf(CommandArgument(a))) + (if a.update.Some? then " " + render(ShapeOf(a.update.value)) else "");
    var y := render(ShapeOf(CommandArgument(b))) + (if b.update.Some? then " " + render(ShapeOf(b.update.value)) else "");
    var after := if a.field.Some? then a.field.value + (" " + x) else x;
    var after' := if b.field.Some? then b.field.value + (" " + y) else y;
    WordsAgree(a.operation, a.collection + (" " + after), b.operation, b.collection + (" " + after'));
    WordsAgree(a.collection, after, b.collection, after');
  }

  ghost predicate AlikeUpdates(a: Option<Value>, b: Option<Value>) {
    a.Some? == b.Some? && (a.Some? ==> Alike(a.value, b.value))
  }

  ghost predicate ProperOperation(e: Operation) {
    IsProper(CommandArgument(e)) && (e.update.Some? ==> IsProper(e.update.value))
  }

  /**
   * Two operations of the same name on the same collection and field have one fingerprint exactly
   * when their arguments and updates are alike.
   */
  lemma FingerprintsAgreeIffAlike(a: Operation, b: Operation, render: Shape -> string)
    requires ProperOperation(a) && ProperOperation(b) && IsJson(render)
    requires a.operation == b.operation && a.collection == b.collection && a.field == b.field
    ensures Fingerprint(a, render) == Fingerprint(b, render)
            <==> Alike(CommandArgument(a), CommandArgument(b)) && AlikeUpdates(a.update, b.update)
  {
    hide CommandArgument, ShapeOf, Alike, Heading;
    SameShapeIffAlike(CommandArgument(a), CommandArgument(b));
    if a.update.Some? && b.update.Some? {
      SameShapeIffAlike(a.update.value, b.update.value);
    }
    var x, y := ShapeOf(CommandArgument(a)), ShapeOf(CommandArgument(b));
    var rest := if a.update.Some? then " " + render(ShapeOf(a.update.value)) else "";
    var rest' := if b.update.Some? then " " + render(ShapeOf(b.update.value)) else "";
    assert Fingerprint(a, render) == Heading(a) + render(x) + rest && Fingerprint(b, render) == Heading(a) + render(y) + rest'
      by { SameHeading(a, b); }
    if Fingerprint(a, render) == Fingerprint(b, render) {
      assert Heading(a) + render(x) + rest == Heading(a) + (render(x) + rest);
      assert Heading(a) + render(y) + rest' == Heading(a) + (render(y) + rest');
      SameBeginning(Heading(a), render(x) + rest, render(y) + rest');
      OneJson(render, x, rest, y, rest');
      if a.update.Some? && b.update.Some? {
        SameBeginning(" ", render(ShapeOf(a.update.value)), render(ShapeOf(b.update.value)));
        assert render(ShapeOf(a.update.value)) <= render(ShapeOf(b.update.value));
      }
    }
  }

  lemma SameHeading(a: Operation, b: Operation)
    requires a.operation == b.operation && a.collection == b.collection && a.field == b.field
    ensures Heading(a) == Heading(b)
  {
  }

  lemma SameBeginning(p: string, s: string, t: string)
    requires p + s == p + t
    ensures s == t
  {
    assert (p + s)[|p|..] == s && (p + t)[|p|..] == t;
  }

  lemma ShorterBegins(s: string, rest: string, t: string, rest': string)
    requires s + rest == t + rest'
    ensures |s| <= |t| ==> s <= t
  {
    if |s| <= |t| {
      assert forall i | 0 <= i < |s| :: (s + rest)[i] == s[i] && (t + rest')[i] == t[i];
    }
  }

  /** Two texts that begin with a JSON value and are the same begin with the same value. */
  lemma OneJson(render: Shape -> string, x: Shape, rest: string, y: Shape, rest': string)
    requires IsJson(render) && render(x) + rest == render(y) + rest'
    ensures x == y && rest == rest'
  {
    ShorterBegins(render(x), rest, render(y), rest');
    ShorterBegins(render(y), rest', render(x), rest);
    SameBeginning(render(x), rest, rest');
  }
}
