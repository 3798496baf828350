/**
 * The groups of configuration entries the config panel shows (config.collector.ts): namespaces
 * flattened to dotted names, leaves masked by their key.
 */
module ConfigGroups {
  import opened Dotted
  import opened ObjectLiterals

  const VALIDATED_ENV := "_PROCESS_ENV_VALIDATED"
  const GENERAL := "General"

  datatype Leaf = Text(text: string) | Other(text: string)

  /** A configuration value: a leaf, or an object with its keys in order. */
  datatype Config = Value(leaf: Leaf) | Namespace(entries: seq<(string, Config)>)

  /** A leaf as shown: the sentinel in place of it, or the leaf, its text scrubbed. */
  datatype Shown = Redacted | Plain(leaf: Leaf)

  /** What masking goes by: the built-in pattern on keys, the option, and the scrubber of values. */
  datatype Masking = Masking(looksSecret: string -> bool, maskKeys: seq<string>, scrub: string -> string)

  /** `maskLeaf`. */
  function MaskLeaf(m: Masking, key: string, fullKey: string, leaf: Leaf): Shown {
    if m.looksSecret(key) || key in m.maskKeys || fullKey in m.maskKeys then Redacted
    else if leaf.Text? then Plain(Text(m.scrub(leaf.text))) else Plain(leaf)
  }

  // ---- Objects as ordered maps ----

  type Entries = seq<(string, Shown)>

  /** `result[k] = v`: in place when the key is there, last otherwise. */
  function Put(result: Entries, k: string, v: Shown): Entries {
    if k == PROTO then result
    else if result == [] then [(k, v)]
    else if result[0].0 == k then [(k, v)] + result[1..]
    else [result[0]] + Put(result[1..], k, v)
  }

  /** `Object.assign`. */
  function PutAll(result: Entries, others: Entries): Entries
    decreases others
  {
    if others == [] then result else PutAll(Put(result, others[0].0, others[0].1), others[1..])
  }

  predicate Has(result: Entries, k: string) {
    exists i :: 0 <= i < |result| && result[i].0 == k
  }

  // ---- Flattening ----

  function NameUnder(prefix: string, key: string): string {
    if prefix == "" then key else prefix + "." + key
  }

  /** `flattenAndMask`, after the first `n` keys of the object. */
  function Flatten(m: Masking, node: Config, n: nat, display: string, full: string): Entries
    requires node.Namespace? && n <= |node.entries|
    decreases node, n
  {
    if n == 0 then [] else
    var before, (key, value) := Flatten(m, node, n - 1, display, full), node.entries[n - 1];
    match value
    case Value(leaf) => Put(before, NameUnder(display, key), MaskLeaf(m, key, full + "." + key, leaf))
    case Namespace(es) => PutAll(before, Flatten(m, value, |es|, NameUnder(display, key), full + "." + key))
  }

  /** The leaves under the first `n` keys, in order, with the names they are shown by. */
  function Rows(m: Masking, node: Config, n: nat, display: string, full: string): Entries
    requires node.Namespace? && n <= |node.entries|
    decreases node, n
  {
    if n == 0 then [] else
    var before, (key, value) := Rows(m, node, n - 1, display, full), node.entries[n - 1];
    match value
    case Value(leaf) => before + [(NameUnder(display, key), MaskLeaf(m, key, full + "." + key, leaf))]
    case Namespace(es) => before + Rows(m, value, |es|, NameUnder(display, key), full + "." + key)
  }

  lemma {:induction false} PutAllConcat(r: Entries, a: Entries, b: Entries)
    ensures PutAll(r, a + b) == PutAll(PutAll(r, a), b)
    decreases a
  {
    if a == [] {
      assert a + b == b;
    } else {
      assert (a + b)[1..] == a[1..] + b;
      PutAllConcat(Put(r, a[0].0, a[0].1), a[1..], b);
    }
  }

  lemma {:induction false} PutKeeps(r: Entries, k: string, v: Shown, x: string)
    ensures Has(Put(r, k, v), x) <==> Has(r, x) || x == k != PROTO
  {
    if r != [] {
      PutKeeps(r[1..], k, v, x);
      HasCons(r, x);
      if r[0].0 == k {
        HasCons([(k, v)] + r[1..], x);
        assert ([(k, v)] + r[1..])[1..] == r[1..];
      } else {
        var s := [r[0]] + Put(r[1..], k, v);
        HasCons(s, x);
        assert s[1..] == Put(r[1..], k, v);
      }
    } else {
      assert [(k, v)][0].0 == k;
    }
  }

  lemma HasCons(r: Entries, x: string)
    requires r != []
    ensures Has(r, x) <==> r[0].0 == x || Has(r[1..], x)
  {
    if Has(r[1..], x) {
      var i :| 0 <= i < |r[1..]| && r[1..][i].0 == x;
      assert r[i + 1].0 == x;
    }
    if Has(r, x) && r[0].0 != x {
      var i :| 0 <= i < |r| && r[i].0 == x;
      assert r[1..][i - 1].0 == x;
    }
  }

  /** Two writes under one key are the second. */
  lemma {:induction false} PutTwice(r: Entries, k: string, v: Shown, w: Shown)
    ensures Put(Put(r, k, v), k, w) == Put(r, k, w)
  {
    if r != [] {
      if r[0].0 == k {
        assert ([(k, v)] + r[1..])[1..] == r[1..];
      } else {
        PutTwice(r[1..], k, v, w);
        var s := [r[0]] + Put(r[1..], k, v);
        assert s[1..] == Put(r[1..], k, v);
      }
    } else {
      assert [(k, v)][1..] == [];
    }
  }

  /** Writes under different keys commute, once the first key is there. */
  lemma {:induction false} PutOther(r: Entries, k: string, v: Shown, x: string, w: Shown)
    requires k != x && Has(r, k)
    ensures Put(Put(r, x, w), k, v) == Put(Put(r, k, v), x, w)
  {
    HasCons(r, k);
    if r[0].0 == k {
      assert ([(k, v)] + r[1..])[1..] == r[1..];
      assert Put(r, x, w) == [r[0]] + Put(r[1..], x, w) && ([r[0]] + Put(r[1..], x, w))[1..] == Put(r[1..], x, w);
    } else if r[0].0 == x {
      assert ([(x, w)] + r[1..])[1..] == r[1..];
      assert Put(r, k, v) == [r[0]] + Put(r[1..], k, v) && ([r[0]] + Put(r[1..], k, v))[1..] == Put(r[1..], k, v);
    } else {
      PutOther(r[1..], k, v, x, w);
      assert ([r[0]] + Put(r[1..], x, w))[1..] == Put(r[1..], x, w);
      assert ([r[0]] + Put(r[1..], k, v))[1..] == Put(r[1..], k, v);
    }
  }

  lemma {:induction false} PutLater(r: Entries, s: Entries, k: string, v: Shown)
    requires Has(r, k) && !Has(s, k)
    ensures PutAll(Put(r, k, v), s) == Put(PutAll(r, s), k, v)
    decreases s
  {
    if s != [] {
      HasCons(s, k);
      PutOther(r, k, v, s[0].0, s[0].1);
      PutKeeps(r, s[0].0, s[0].1, k);
      PutLater(Put(r, s[0].0, s[0].1), s[1..], k, v);
    }
  }

  ghost predicate NamedOnce(r: Entries) {
    forall i, j | 0 <= i < j < |r| :: r[i].0 != r[j].0
  }

  lemma NamedOnceTail(r: Entries)
    requires r != [] && NamedOnce(r)
    ensures NamedOnce(r[1..]) && !Has(r[1..], r[0].0)
  {
  }

  lemma {:induction false} PutNamesOnce(r: Entries, k: string, v: Shown)
    requires NamedOnce(r)
    ensures NamedOnce(Put(r, k, v))
    ensures |Put(r, k, v)| == if Has(r, k) || k == PROTO then |r| else |r| + 1
    ensures !Has(r, k) && k != PROTO ==> Put(r, k, v) == r + [(k, v)]
  {
    if r != [] {
      NamedOnceTail(r);
      HasCons(r, k);
      if r[0].0 != k {
        PutNamesOnce(r[1..], k, v);
        PutKeeps(r[1..], k, v, r[0].0);
        var tail := Put(r[1..], k, v);
        forall j | 0 <= j < |tail| ensures tail[j].0 != r[0].0 {
        }
        assert r == [r[0]] + r[1..];
      } else {
        forall j | 0 <= j < |r[1..]| ensures r[1..][j].0 != k {
        }
      }
    }
  }

  /** Assigning an object into which one more key was written is writing that key after assigning it. */
  lemma {:induction false} PutInside(r: Entries, s: Entries, k: string, v: Shown)
    requires NamedOnce(s)
    ensures PutAll(r, Put(s, k, v)) == Put(PutAll(r, s), k, v)
    decreases s
  {
    if k == PROTO {
    } else if s == [] {
      assert Put(s, k, v)[1..] == [];
    } else {
      NamedOnceTail(s);
      if s[0].0 == k {
        assert ([(k, v)] + s[1..])[1..] == s[1..];
        PutKeeps(r, k, s[0].1, k);
        PutLater(Put(r, k, s[0].1), s[1..], k, v);
        PutTwice(r, k, s[0].1, v);
      } else {
        assert ([s[0]] + Put(s[1..], k, v))[1..] == Put(s[1..], k, v);
        PutInside(Put(r, s[0].0, s[0].1), s[1..], k, v);
      }
    }
  }

  /** Assigning an object is writing, in order, all that was written into it. */
  lemma {:induction false} AssignIsWriting(r: Entries, s: Entries, xs: Entries)
    requires NamedOnce(s)
    ensures PutAll(r, PutAll(s, xs)) == PutAll(PutAll(r, s), xs)
    decreases xs
  {
    if xs != [] {
      PutInside(r, s, xs[0].0, xs[0].1);
      PutNamesOnce(s, xs[0].0, xs[0].1);
      AssignIsWriting(r, Put(s, xs[0].0, xs[0].1), xs[1..]);
    }
  }

  /** Flattening writes every leaf, in order, under its name; nesting itself loses none. */
  lemma {:induction false} FlattenWritesRows(m: Masking, node: Config, n: nat, display: string, full: string)
    requires node.Namespace? && n <= |node.entries|
    ensures Flatten(m, node, n, display, full) == PutAll([], Rows(m, node, n, display, full))
    decreases node, n
  {
    if n > 0 {
      var (key, value) := node.entries[n - 1];
      var before := Rows(m, node, n - 1, display, full);
      FlattenWritesRows(m, node, n - 1, display, full);
      match value
      case Value(leaf) =>
        var row := (NameUnder(display, key), MaskLeaf(m, key, full + "." + key, leaf));
        PutAllConcat([], before, [row]);
        assert [row][1..] == [];
      case Namespace(es) =>
        var rows := Rows(m, value, |es|, NameUnder(display, key), full + "." + key);
        FlattenWritesRows(m, value, |es|, NameUnder(display, key), full + "." + key);
        AssignIsWriting(PutAll([], before), [], rows);
        PutAllConcat([], before, rows);
    }
  }

  // ---- When no leaf is lost ----

  /** The rows that are entered at all. */
  function Entered(rows: Entries): (entered: Entries)
    ensures forall e <- entered :: e in rows
  {
    if rows == [] then [] else
    var last := rows[|rows| - 1];
    if last.0 == PROTO then Entered(rows[..|rows| - 1]) else Entered(rows[..|rows| - 1]) + [last]
  }

  lemma PutLast(rows: Entries)
    requires rows != []
    ensures var last := rows[|rows| - 1];
            PutAll([], rows) == Put(PutAll([], rows[..|rows| - 1]), last.0, last.1)
  {
    var n := |rows| - 1;
    assert rows == rows[..n] + [rows[n]] && [rows[n]][1..] == [];
    PutAllConcat([], rows[..n], [rows[n]]);
  }

  lemma LastIsNew(rows: Entries)
    requires rows != [] && NamedOnce(rows)
    ensures var n := |rows| - 1; NamedOnce(rows[..n]) && !Has(Entered(rows[..n]), rows[n].0)
  {
    var n := |rows| - 1;
    var entered := Entered(rows[..n]);
    forall i | 0 <= i < |entered| ensures entered[i].0 != rows[n].0 {
      assert entered[i] in entered;
    }
  }

  lemma {:induction false} EnteredNamesOnce(rows: Entries)
    requires NamedOnce(rows)
    ensures NamedOnce(Entered(rows))
  {
    if rows != [] {
      LastIsNew(rows);
      EnteredNamesOnce(rows[..|rows| - 1]);
    }
  }

  lemma {:induction false} WritingEnters(rows: Entries)
    requires NamedOnce(rows)
    ensures PutAll([], rows) == Entered(rows)
  {
    if rows != [] {
      var n := |rows| - 1;
      LastIsNew(rows);
      WritingEnters(rows[..n]);
      PutLast(rows);
      EnteredNamesOnce(rows[..n]);
      PutNamesOnce(Entered(rows[..n]), rows[n].0, rows[n].1);
    }
  }

  lemma {:induction false} WritingCounts(rows: Entries)
    ensures NamedOnce(PutAll([], rows)) && |PutAll([], rows)| <= |rows|
    ensures forall x :: Has(PutAll([], rows), x) <==> Has(rows, x) && x != PROTO
    ensures !NamedOnce(rows) || Has(rows, PROTO) ==> |PutAll([], rows)| < |rows|
  {
    if rows != [] {
      var n := |rows| - 1;
      var before := PutAll([], rows[..n]);
      var (k, v) := rows[n];
      WritingCounts(rows[..n]);
      PutLast(rows);
      PutNamesOnce(before, k, v);
      HasLast(rows);
      forall x ensures Has(Put(before, k, v), x) <==> Has(before, x) || x == k != PROTO {
        PutKeeps(before, k, v, x);
      }
    }
  }

  lemma HasLast(rows: Entries)
    requires rows != []
    ensures var n := |rows| - 1;
            && (forall x :: Has(rows, x) <==> Has(rows[..n], x) || x == rows[n].0)
            && (NamedOnce(rows) <==> NamedOnce(rows[..n]) && !Has(rows[..n], rows[n].0))
  {
    var n := |rows| - 1;
    forall x ensures Has(rows, x) <==> Has(rows[..n], x) || x == rows[n].0 {
      if Has(rows[..n], x) {
        var i :| 0 <= i < n && rows[..n][i].0 == x;
        assert rows[i].0 == x;
      }
      if Has(rows, x) && x != rows[n].0 {
        var i :| 0 <= i < |rows| && rows[i].0 == x;
        assert rows[..n][i].0 == x;
      }
    }
    if Has(rows[..n], rows[n].0) {
      var i :| 0 <= i < n && rows[..n][i].0 == rows[n].0;
      assert rows[i].0 == rows[n].0;
    }
    if NamedOnce(rows[..n]) && !Has(rows[..n], rows[n].0) {
      forall i, j | 0 <= i < j < |rows| ensures rows[i].0 != rows[j].0 {
        assert rows[..n][i].0 == rows[i].0 && (j < n ==> rows[..n][j].0 == rows[j].0);
      }
    }
    if NamedOnce(rows) {
      forall i, j | 0 <= i < j < n ensures rows[..n][i].0 != rows[..n][j].0 {
        assert rows[i].0 != rows[j].0;
      }
    }
  }

  lemma {:induction false} AllEntered(rows: Entries)
    requires forall e <- rows :: e.0 != PROTO
    ensures Entered(rows) == rows
  {
    if rows != [] {
      AllEntered(rows[..|rows| - 1]);
    }
  }

  /** Every leaf has an entry of its own exactly when no two are shown under one name, and none under `__proto__`. */
  lemma NoLeafIsLostIffNamedOnce(m: Masking, node: Config, full: string)
    requires node.Namespace?
    ensures var n := |node.entries|;
            var flat, rows := Flatten(m, node, n, "", full), Rows(m, node, n, "", full);
            && (|flat| == |rows| <==> NamedOnce(rows) && !Has(rows, PROTO))
            && (NamedOnce(rows) ==> flat == Entered(rows)) && (NamedOnce(rows) && !Has(rows, PROTO) ==> flat == rows)
  {
    var rows := Rows(m, node, |node.entries|, "", full);
    FlattenWritesRows(m, node, |node.entries|, "", full);
    WritingCounts(rows);
    if NamedOnce(rows) { WritingEnters(rows); }
    if !Has(rows, PROTO) { AllEntered(rows); }
  }

  // ---- Dot-free keys ----

  /** A leaf by the keys that lead to it. */
  datatype Path = Path(keys: seq<string>, leaf: Leaf)

  function PathsOf(node: Config, n: nat, above: seq<string>): seq<Path>
    requires node.Namespace? && n <= |node.entries|
    decreases node, n
  {
    if n == 0 then [] else
    var before, (key, value) := PathsOf(node, n - 1, above), node.entries[n - 1];
    match value
    case Value(leaf) => before + [Path(above + [key], leaf)]
    case Namespace(es) => before + PathsOf(value, |es|, above + [key])
  }

  /** Keys that are not empty, hold no dot, and are distinct in each object. */
  predicate IsPlainTree(node: Config)
    decreases node
  {
    match node
    case Value(_) => true
    case Namespace(es) =>
      && (forall i, j | 0 <= i < j < |es| :: es[i].0 != es[j].0)
      && forall i | 0 <= i < |es| :: es[i].0 != "" && '.' !in es[i].0 && IsPlainTree(es[i].1)
  }

  /** What is shown for a leaf: under its path, masked by its own key or its full path. */
  function RowOf(m: Masking, full: string, path: Path): (string, Shown)
    requires path.keys != []
  {
    (Join(path.keys), MaskLeaf(m, path.keys[|path.keys| - 1], full + "." + Join(path.keys), path.leaf))
  }

  ghost predicate AreRows(m: Masking, full: string, rows: Entries, paths: seq<Path>) {
    |rows| == |paths| && forall i | 0 <= i < |rows| :: paths[i].keys != [] && rows[i] == RowOf(m, full, paths[i])
  }

  lemma {:induction false} JoinSnoc(keys: seq<string>, key: string)
    ensures Join(keys + [key]) == if keys == [] then key else Join(keys) + "." + key
  {
    var all := keys + [key];
    if |keys| > 1 {
      assert all[1..] == keys[1..] + [key];
      JoinSnoc(keys[1..], key);
      assert Join(all) == keys[0] + "." + Join(all[1..]) && Join(keys) == keys[0] + "." + Join(keys[1..]);
      hide Join;
      Associates(keys[0], Join(keys[1..]), key);
    } else if |keys| == 1 {
      assert all[1..] == [key];
    }
  }

  lemma Associates(a: string, b: string, c: string)
    ensures a + "." + (b + "." + c) == (a + "." + b) + "." + c
  {
  }

  lemma {:induction false} JoinNonEmpty(keys: seq<string>)
    requires keys != [] && keys[0] != ""
    ensures Join(keys) != ""
  {
  }

  lemma MoreRows(m: Masking, full: string, rows: Entries, paths: seq<Path>, rows': Entries, paths': seq<Path>)
    requires AreRows(m, full, rows, paths) && AreRows(m, full, rows', paths')
    ensures AreRows(m, full, rows + rows', paths + paths')
  {
    hide Join, MaskLeaf;
  }

  /** The names a namespace is shown under are the dotted paths of its leaves. */
  lemma {:induction false} RowsAreRows(m: Masking, node: Config, n: nat, above: seq<string>, display: string, full: string, ns: string)
    requires node.Namespace? && n <= |node.entries| && IsPlainTree(node)
    requires display == Join(above) && full == (if above == [] then ns else ns + "." + Join(above))
    requires above != [] ==> above[0] != ""
    ensures AreRows(m, ns, Rows(m, node, n, display, full), PathsOf(node, n, above))
    decreases node, n
  {
    if n > 0 {
      var (key, value) := node.entries[n - 1];
      var before, paths := Rows(m, node, n - 1, display, full), PathsOf(node, n - 1, above);
      RowsAreRows(m, node, n - 1, above, display, full, ns);
      OneKeyDown(above, key, display, full, ns);
      var path := above + [key];
      assert value.Namespace? ==> IsPlainTree(value);
      assert path[0] != "";
      hide Join, MaskLeaf, AreRows, IsPlainTree, RowOf, NameUnder;
      match value
      case Value(leaf) =>
        OneRow(m, ns, path, leaf);
        MoreRows(m, ns, before, paths, [RowOf(m, ns, Path(path, leaf))], [Path(path, leaf)]);
      case Namespace(es) =>
        RowsAreRows(m, value, |es|, path, Join(path), ns + "." + Join(path), ns);
        MoreRows(m, ns, before, paths, Rows(m, value, |es|, Join(path), ns + "." + Join(path)), PathsOf(value, |es|, path));
    }
  }

  lemma OneRow(m: Masking, ns: string, keys: seq<string>, leaf: Leaf)
    requires keys != []
    ensures AreRows(m, ns, [RowOf(m, ns, Path(keys, leaf))], [Path(keys, leaf)])
  {
  }

  lemma OneKeyDown(above: seq<string>, key: string, display: string, full: string, ns: string)
    requires display == Join(above) && full == (if above == [] then ns else ns + "." + Join(above))
    requires above != [] ==> above[0] != ""
    ensures NameUnder(display, key) == Join(above + [key]) && full + "." + key == ns + "." + Join(above + [key])
  {
    JoinSnoc(above, key);
    if above != [] { JoinNonEmpty(above); }
  }

  lemma {:induction false} PathsAreBelow(node: Config, n: nat, above: seq<string>)
    requires node.Namespace? && n <= |node.entries| && IsPlainTree(node) && forall s <- above :: '.' !in s
    ensures forall p <- PathsOf(node, n, above) ::
              && above < p.keys && (forall s <- p.keys :: '.' !in s)
              && exists i :: 0 <= i < n && node.entries[i].0 == p.keys[|above|]
    decreases node, n
  {
    if n > 0 {
      var (key, value) := node.entries[n - 1];
      PathsAreBelow(node, n - 1, above);
      match value
      case Value(_) =>
      case Namespace(es) => PathsAreBelow(value, |es|, above + [key]);
    }
  }

  lemma {:induction false} PathsAreDistinct(node: Config, n: nat, above: seq<string>)
    requires node.Namespace? && n <= |node.entries| && IsPlainTree(node) && forall s <- above :: '.' !in s
    ensures forall i, j | 0 <= i < j < |PathsOf(node, n, above)| :: PathsOf(node, n, above)[i].keys != PathsOf(node, n, above)[j].keys
    decreases node, n
  {
    if n > 0 {
      var (key, value) := node.entries[n - 1];
      var before := PathsOf(node, n - 1, above);
      PathsAreDistinct(node, n - 1, above);
      PathsAreBelow(node, n - 1, above);
      forall p <- before ensures p.keys[|above|] != key {
        var i :| 0 <= i < n - 1 && node.entries[i].0 == p.keys[|above|];
      }
      match value
      case Value(_) =>
      case Namespace(es) =>
        PathsAreDistinct(value, |es|, above + [key]);
        PathsAreBelow(value, |es|, above + [key]);
    }
  }

  /** The leaves that get an entry: all but one named `__proto__` right below the namespace. */
  function Kept(paths: seq<Path>): (kept: seq<Path>)
    ensures |kept| == |paths| <==> forall p <- paths :: p.keys != [PROTO]
    ensures |kept| <= |paths| && forall p <- kept :: p in paths && p.keys != [PROTO]
  {
    if paths == [] then [] else
    var n := |paths| - 1;
    var rest := Kept(paths[..n]);
    if paths[n].keys == [PROTO] then rest else rest + [paths[n]]
  }

  lemma {:induction false} EnteredRowsAreKept(m: Masking, ns: string, rows: Entries, paths: seq<Path>)
    requires AreRows(m, ns, rows, paths) && forall p <- paths :: forall s <- p.keys :: '.' !in s
    ensures AreRows(m, ns, Entered(rows), Kept(paths))
  {
    if rows != [] {
      var n := |rows| - 1;
      LastRow(m, ns, rows, paths);
      assert paths[n] in paths;
      EnteredRowsAreKept(m, ns, rows[..n], paths[..n]);
      if paths[n].keys != [PROTO] {
        if rows[n].0 == PROTO { JoinIsInjective(paths[n].keys, [PROTO]); }
        hide AreRows, RowOf;
        MoreRows(m, ns, Entered(rows[..n]), Kept(paths[..n]), [rows[n]], [paths[n]]);
      } else {
        assert Join([PROTO]) == PROTO;
      }
    }
  }

  lemma LastRow(m: Masking, ns: string, rows: Entries, paths: seq<Path>)
    requires rows != [] && AreRows(m, ns, rows, paths)
    ensures var n := |rows| - 1;
            AreRows(m, ns, rows[..n], paths[..n]) && AreRows(m, ns, [rows[n]], [paths[n]]) && rows[n].0 == Join(paths[n].keys)
  {
    hide Join, MaskLeaf;
  }

  /**
   * With such keys flattening keeps every leaf but one named `__proto__` right below the namespace:
   * an entry for each, in order, under the leaf's own path, and no two leaves under one.
   */
  lemma PlainTreesFlattenWhole(m: Masking, node: Config, ns: string)
    requires node.Namespace? && IsPlainTree(node)
    ensures var n := |node.entries|;
            var flat, paths := Flatten(m, node, n, "", ns), PathsOf(node, n, []);
            && AreRows(m, ns, flat, Kept(paths)) && NamedOnce(flat)
            && (|flat| == |paths| <==> forall p <- paths :: p.keys != [PROTO])
            && forall i, j | 0 <= i < j < |paths| :: paths[i].keys != paths[j].keys
  {
    var n := |node.entries|;
    var rows, paths := Rows(m, node, n, "", ns), PathsOf(node, n, []);
    RowsAreRows(m, node, n, [], "", ns, ns);
    PathsAreDistinct(node, n, []);
    PathsAreBelow(node, n, []);
    forall i, j | 0 <= i < j < |rows| ensures rows[i].0 != rows[j].0 {
      assert paths[i] in paths && paths[j] in paths;
      if rows[i].0 == rows[j].0 { JoinIsInjective(paths[i].keys, paths[j].keys); }
    }
    NoLeafIsLostIffNamedOnce(m, node, ns);
    EnteredRowsAreKept(m, ns, rows, paths);
    EnteredNamesOnce(rows);
  }

  /** Whether a leaf is to be hidden: its own key looks secret, or the option names that key or its whole path. */
  predicate IsSecret(m: Masking, full: string, keys: seq<string>)
    requires keys != []
  {
    var key := keys[|keys| - 1];
    m.looksSecret(key) || key in m.maskKeys || full + "." + Join(keys) in m.maskKeys
  }

  /**
   * In all that is shown of a namespace, the sentinel stands exactly for the leaves that are to be
   * hidden; every other entry is its leaf, scrubbed if it is text.
   */
  lemma MaskedIff(m: Masking, node: Config, ns: string, i: nat)
    requires node.Namespace? && IsPlainTree(node) && i < |Flatten(m, node, |node.entries|, "", ns)|
    ensures var entry, kept := Flatten(m, node, |node.entries|, "", ns)[i], Kept(PathsOf(node, |node.entries|, []));
            && i < |kept| && kept[i].keys != [] && entry.0 == Join(kept[i].keys)
            && (entry.1.Redacted? <==> IsSecret(m, ns, kept[i].keys))
            && (entry.1.Plain? ==>
                  entry.1.leaf == if kept[i].leaf.Text? then Text(m.scrub(kept[i].leaf.text)) else kept[i].leaf)
  {
    PlainTreesFlattenWhole(m, node, ns);
  }

  /** An empty key is not kept apart from what is under it: one of two leaves goes missing. */
  lemma EmptyKeysLoseLeaves(m: Masking, ns: string, a: Leaf, b: Leaf)
    ensures var node := Namespace([("", Namespace([("a", Value(a))])), ("a", Value(b))]);
            |PathsOf(node, 2, [])| == 2 && |Flatten(m, node, 2, "", ns)| == 1
  {
    var inner := Namespace([("a", Value(a))]);
    var node := Namespace([("", inner), ("a", Value(b))]);
    assert NameUnder("", "a") == "a";
    var v := MaskLeaf(m, "a", ns + "." + "" + "." + "a", a);
    assert Flatten(m, inner, 0, "", ns + "." + "") == [];
    assert Flatten(m, inner, 1, "", ns + "." + "") == [("a", v)];
    assert [("a", v)][1..] == [];
    assert Flatten(m, node, 0, "", ns) == [];
    assert Flatten(m, node, 1, "", ns) == PutAll([], [("a", v)]) == [("a", v)];
    assert PathsOf(inner, 1, [""]) == [Path([""] + ["a"], a)];
    assert PathsOf(node, 1, []) == PathsOf(inner, 1, [] + [""]);
  }

  // ---- Groups ----

  datatype Group = Group(name: string, entries: Entries)

  /** Whether the key at position `i` is shown at all: the validated environment never is. */
  predicate IsShown(root: Config, i: nat)
    requires root.Namespace? && i < |root.entries|
  {
    root.entries[i].0 != VALIDATED_ENV
  }

  function GeneralEntries(m: Masking, root: Config, n: nat): Entries
    requires root.Namespace? && n <= |root.entries|
  {
    if n == 0 then [] else
    var before, (key, value) := GeneralEntries(m, root, n - 1), root.entries[n - 1];
    if IsShown(root, n - 1) && value.Value? then Put(before, key, MaskLeaf(m, key, key, value.leaf)) else before
  }

  function NamespaceGroups(m: Masking, root: Config, n: nat): seq<Group>
    requires root.Namespace? && n <= |root.entries|
  {
    if n == 0 then [] else
    var before, (key, value) := NamespaceGroups(m, root, n - 1), root.entries[n - 1];
    if IsShown(root, n - 1) && value.Namespace? then before + [Group(key, Flatten(m, value, |value.entries|, "", key))] else before
  }

  /** `sort` by name; `follows(a, b)` is `a.localeCompare(b) > 0`. */
  function InsertGroup(groups: seq<Group>, g: Group, follows: (string, string) -> bool): seq<Group> {
    if groups == [] || !follows(groups[|groups| - 1].name, g.name) then groups + [g]
    else InsertGroup(groups[..|groups| - 1], g, follows) + [groups[|groups| - 1]]
  }

  function SortGroups(groups: seq<Group>, follows: (string, string) -> bool): seq<Group> {
    if groups == [] then []
    else InsertGroup(SortGroups(groups[..|groups| - 1], follows), groups[|groups| - 1], follows)
  }

  /** What any comparison of names keeps to. */
  ghost predicate IsComparison(follows: (string, string) -> bool) {
    && (forall a, b :: follows(a, b) ==> !follows(b, a))
    && forall a, b, c :: !follows(a, b) && !follows(b, c) ==> !follows(a, c)
  }

  ghost predicate InOrder(groups: seq<Group>, follows: (string, string) -> bool) {
    forall i, j | 0 <= i < j < |groups| :: !follows(groups[i].name, groups[j].name)
  }

  lemma {:induction false} InsertKeepsGroups(groups: seq<Group>, g: Group, follows: (string, string) -> bool)
    ensures multiset(InsertGroup(groups, g, follows)) == multiset(groups) + multiset{g}
  {
    if groups != [] && follows(groups[|groups| - 1].name, g.name) {
      var n := |groups| - 1;
      assert groups == groups[..n] + [groups[n]];
      InsertKeepsGroups(groups[..n], g, follows);
    }
  }

  lemma LastInOrder(groups: seq<Group>, last: Group, follows: (string, string) -> bool)
    requires InOrder(groups, follows) && forall h <- groups :: !follows(h.name, last.name)
    ensures InOrder(groups + [last], follows)
  {
  }

  lemma {:induction false} InsertKeepsOrder(groups: seq<Group>, g: Group, follows: (string, string) -> bool)
    requires IsComparison(follows) && InOrder(groups, follows)
    ensures InOrder(InsertGroup(groups, g, follows), follows)
  {
    if groups == [] {
    } else {
      var n := |groups| - 1;
      var last := groups[n];
      if follows(last.name, g.name) {
        InsertKeepsOrder(groups[..n], g, follows);
        InsertKeepsGroups(groups[..n], g, follows);
        var before := InsertGroup(groups[..n], g, follows);
        forall h <- before ensures !follows(h.name, last.name) {
          assert h in multiset(groups[..n]) + multiset{g};
        }
        LastInOrder(before, last, follows);
      } else {
        forall h <- groups ensures !follows(h.name, g.name) {
          var i :| 0 <= i <= n && groups[i] == h;
          assert i < n ==> !follows(groups[i].name, groups[n].name);
        }
        LastInOrder(groups, g, follows);
      }
    }
  }

  lemma AllButLast(groups: seq<Group>)
    requires groups != []
    ensures multiset(groups) == multiset(groups[..|groups| - 1]) + multiset{groups[|groups| - 1]}
  {
    assert groups == groups[..|groups| - 1] + [groups[|groups| - 1]];
  }

  lemma {:induction false} SortKeepsGroups(groups: seq<Group>, follows: (string, string) -> bool)
    ensures multiset(SortGroups(groups, follows)) == multiset(groups)
  {
    if groups != [] {
      var n := |groups| - 1;
      SortKeepsGroups(groups[..n], follows);
      InsertKeepsGroups(SortGroups(groups[..n], follows), groups[n], follows);
      hide InsertGroup;
      AllButLast(groups);
    }
  }

  /** Whatever the comparison, the namespaces come out in its order, each once. */
  lemma {:induction false} GroupsAreInOrder(groups: seq<Group>, follows: (string, string) -> bool)
    requires IsComparison(follows)
    ensures InOrder(SortGroups(groups, follows), follows) && multiset(SortGroups(groups, follows)) == multiset(groups)
  {
    SortKeepsGroups(groups, follows);
    if groups != [] {
      var n := |groups| - 1;
      GroupsAreInOrder(groups[..n], follows);
      hide IsComparison, InOrder, InsertGroup;
      InsertKeepsOrder(SortGroups(groups[..n], follows), groups[n], follows);
    }
  }

  function KeyCount(groups: seq<Group>): nat {
    if groups == [] then 0 else KeyCount(groups[..|groups| - 1]) + |groups[|groups| - 1].entries|
  }

  // ---- What the groups show ----

  /** The top-level keys that are shown, in order: those of leaves, or those of namespaces. */
  ghost function Tops(root: Config, n: nat, namespaces: bool): seq<nat>
    requires root.Namespace? && n <= |root.entries|
  {
    if n == 0 then [] else Tops(root, n - 1, namespaces) + if IsTop(root, n - 1, namespaces) then [n - 1] else []
  }

  predicate IsTop(root: Config, i: nat, namespaces: bool)
    requires root.Namespace? && i < |root.entries|
  {
    var (key, value) := root.entries[i];
    key != "_PROCESS_ENV_VALIDATED" && value.Namespace? == namespaces && (value.Value? ==> key != "__proto__")
  }

  /** The sentinel exactly for a leaf whose key looks secret, or whose key or full path the option names; else the leaf, its text scrubbed. */
  predicate ShowsLeaf(m: Masking, key: string, full: string, leaf: Leaf, shown: Shown) {
    if m.looksSecret(key) || key in m.maskKeys || full in m.maskKeys then shown == Redacted
    else shown == Plain(match leaf case Text(text) => Text(m.scrub(text)) case Other(_) => leaf)
  }

  lemma MaskedLeafIsShown(m: Masking, key: string, full: string, leaf: Leaf)
    ensures ShowsLeaf(m, key, full, leaf, MaskLeaf(m, key, full, leaf))
  {
  }

  /** One entry for each of these leaves, in order, under its own key. */
  ghost predicate ShowsLeaves(m: Masking, root: Config, tops: seq<nat>, entries: Entries)
    requires root.Namespace?
  {
    |entries| == |tops| && forall j | 0 <= j < |tops| :: ShowsTop(m, root, tops[j], entries[j])
  }

  ghost predicate ShowsTop(m: Masking, root: Config, i: nat, entry: (string, Shown))
    requires root.Namespace?
  {
    && i < |root.entries| && root.entries[i].1.Value? && entry.0 == root.entries[i].0
    && ShowsLeaf(m, entry.0, entry.0, root.entries[i].1.leaf, entry.1)
  }

  /** One entry for each leaf of a namespace that is kept, in order, under its path, masked by its path below the namespace's name. */
  ghost predicate ShowsNamespace(m: Masking, node: Config, ns: string, g: Group) {
    node.Namespace? && g.name == ns &&
    var kept := Kept(PathsOf(node, |node.entries|, []));
    |g.entries| == |kept| && forall j | 0 <= j < |kept| :: ShowsPath(m, ns, kept[j], g.entries[j])
  }

  ghost predicate ShowsPath(m: Masking, ns: string, path: Path, entry: (string, Shown)) {
    && path.keys != [] && entry.0 == Join(path.keys)
    && ShowsLeaf(m, path.keys[|path.keys| - 1], ns + "." + Join(path.keys), path.leaf, entry.1)
  }

  ghost predicate ShowsTopNamespace(m: Masking, root: Config, i: nat, g: Group)
    requires root.Namespace?
  {
    i < |root.entries| && ShowsNamespace(m, root.entries[i].1, root.entries[i].0, g)
  }

  /** First the group `General`, if there are leaves at the top; then a group for each namespace, in the comparison's order. */
  ghost predicate ShowsConfiguration(m: Masking, root: Config, follows: (string, string) -> bool, groups: seq<Group>)
    requires root.Namespace?
  {
    var n := |root.entries|;
    var leaves, namespaces := Tops(root, n, false), Tops(root, n, true);
    && (leaves != [] ==> groups != [] && groups[0].name == "General" && ShowsLeaves(m, root, leaves, groups[0].entries))
    && ShowsNamespaces(m, root, follows, namespaces, if leaves == [] then groups else groups[1..])
  }

  ghost predicate ShowsNamespaces(m: Masking, root: Config, follows: (string, string) -> bool, tops: seq<nat>, groups: seq<Group>)
    requires root.Namespace?
  {
    && |groups| == |tops| && (IsComparison(follows) ==> InOrder(groups, follows))
    && (forall g <- groups :: exists i <- tops :: ShowsTopNamespace(m, root, i, g))
    && (forall i <- tops :: exists g <- groups :: ShowsTopNamespace(m, root, i, g))
  }

  lemma OneMoreLeaf(m: Masking, root: Config, tops: seq<nat>, entries: Entries, i: nat, entry: (string, Shown))
    requires root.Namespace? && ShowsLeaves(m, root, tops, entries) && ShowsTop(m, root, i, entry)
    ensures ShowsLeaves(m, root, tops + [i], entries + [entry])
  {
    hide ShowsTop;
  }

  lemma TopsStep(root: Config, n: nat, namespaces: bool)
    requires root.Namespace? && n < |root.entries|
    ensures Tops(root, n + 1, namespaces) == Tops(root, n, namespaces) + if IsTop(root, n, namespaces) then [n] else []
  {
  }

  lemma GeneralStep(m: Masking, root: Config, n: nat) returns (entry: (string, Shown))
    requires root.Namespace? && n < |root.entries| && IsPlainTree(root)
    ensures IsTop(root, n, false) ==>
              ShowsTop(m, root, n, entry) && GeneralEntries(m, root, n + 1) == GeneralEntries(m, root, n) + [entry]
    ensures !IsTop(root, n, false) ==> GeneralEntries(m, root, n + 1) == GeneralEntries(m, root, n)
  {
    var (key, value) := root.entries[n];
    if value.Namespace? { return ("", Redacted); }
    entry := (key, MaskLeaf(m, key, key, value.leaf));
    NotYetThere(m, root, n);
    GeneralNamesOnce(m, root, n);
    MaskedLeafIsShown(m, key, key, value.leaf);
    PutNamesOnce(GeneralEntries(m, root, n), key, entry.1);
    assert IsShown(root, n) ==> GeneralEntries(m, root, n + 1) == Put(GeneralEntries(m, root, n), key, entry.1);
    hide IsPlainTree, NamedOnce, Has, MaskLeaf;
  }

  lemma NoneShown(m: Masking, root: Config)
    requires root.Namespace?
    ensures ShowsLeaves(m, root, Tops(root, 0, false), GeneralEntries(m, root, 0))
    ensures ShowEach(m, root, Tops(root, 0, true), NamespaceGroups(m, root, 0))
  {
  }

  lemma {:induction false} GeneralShowsLeaves(m: Masking, root: Config, n: nat)
    requires root.Namespace? && n <= |root.entries| && IsPlainTree(root)
    ensures ShowsLeaves(m, root, Tops(root, n, false), GeneralEntries(m, root, n))
  {
    hide *;
    if n == 0 {
      NoneShown(m, root);
    } else {
      GeneralShowsLeaves(m, root, n - 1);
      TopsStep(root, n - 1, false);
      var entry := GeneralStep(m, root, n - 1);
      var tops, entries := Tops(root, n - 1, false), GeneralEntries(m, root, n - 1);
      if IsTop(root, n - 1, false) {
        OneMoreLeaf(m, root, tops, entries, n - 1, entry);
      } else {
        assert tops + [] == tops;
      }
    }
  }

  lemma NotYetThere(m: Masking, root: Config, n: nat)
    requires root.Namespace? && n < |root.entries| && IsPlainTree(root)
    ensures !Has(GeneralEntries(m, root, n), root.entries[n].0)
  {
    GeneralNamesOnce(m, root, n);
  }

  lemma FlattenShows(m: Masking, node: Config, ns: string)
    requires node.Namespace? && IsPlainTree(node)
    ensures ShowsNamespace(m, node, ns, Group(ns, Flatten(m, node, |node.entries|, "", ns)))
  {
    PlainTreesFlattenWhole(m, node, ns);
    var flat, kept := Flatten(m, node, |node.entries|, "", ns), Kept(PathsOf(node, |node.entries|, []));
    hide Flatten, PathsOf, Kept, IsPlainTree, NamedOnce;
    forall j | 0 <= j < |kept| ensures ShowsPath(m, ns, kept[j], flat[j]) {
      MaskedLeafIsShown(m, kept[j].keys[|kept[j].keys| - 1], ns + "." + Join(kept[j].keys), kept[j].leaf);
    }
  }

  ghost predicate ShowEach(m: Masking, root: Config, tops: seq<nat>, groups: seq<Group>)
    requires root.Namespace?
  {
    |groups| == |tops| && forall j | 0 <= j < |tops| :: ShowsTopNamespace(m, root, tops[j], groups[j])
  }

  lemma OneMoreNamespace(m: Masking, root: Config, tops: seq<nat>, groups: seq<Group>, i: nat, g: Group)
    requires root.Namespace? && ShowEach(m, root, tops, groups) && ShowsTopNamespace(m, root, i, g)
    ensures ShowEach(m, root, tops + [i], groups + [g])
  {
    hide ShowsTopNamespace;
  }

  lemma NamespacesStep(m: Masking, root: Config, n: nat) returns (g: Group)
    requires root.Namespace? && n < |root.entries| && IsPlainTree(root)
    ensures IsTop(root, n, true) ==>
              ShowsTopNamespace(m, root, n, g) && NamespaceGroups(m, root, n + 1) == NamespaceGroups(m, root, n) + [g]
    ensures !IsTop(root, n, true) ==> NamespaceGroups(m, root, n + 1) == NamespaceGroups(m, root, n)
  {
    var (key, value) := root.entries[n];
    if !value.Namespace? { return Group("", []); }
    g := Group(key, Flatten(m, value, |value.entries|, "", key));
    FlattenShows(m, value, key);
    hide IsPlainTree, Flatten, ShowsNamespace;
  }

  lemma {:induction false} NamespacesShow(m: Masking, root: Config, n: nat)
    requires root.Namespace? && n <= |root.entries| && IsPlainTree(root)
    ensures ShowEach(m, root, Tops(root, n, true), NamespaceGroups(m, root, n))
  {
    hide *;
    if n == 0 {
      NoneShown(m, root);
    } else {
      NamespacesShow(m, root, n - 1);
      TopsStep(root, n - 1, true);
      var g := NamespacesStep(m, root, n - 1);
      var tops, groups := Tops(root, n - 1, true), NamespaceGroups(m, root, n - 1);
      if IsTop(root, n - 1, true) {
        OneMoreNamespace(m, root, tops, groups, n - 1, g);
      } else {
        assert tops + [] == tops;
      }
    }
  }

  lemma SortedShow(m: Masking, root: Config, follows: (string, string) -> bool, tops: seq<nat>, groups: seq<Group>, sorted: seq<Group>)
    requires root.Namespace?
    requires ShowEach(m, root, tops, groups)
    requires multiset(sorted) == multiset(groups) && (IsComparison(follows) ==> InOrder(sorted, follows))
    ensures ShowsNamespaces(m, root, follows, tops, sorted)
  {
    hide ShowsTopNamespace, IsComparison, InOrder;
    assert |sorted| == |multiset(sorted)| == |multiset(groups)| == |groups|;
    forall g <- sorted ensures exists i <- tops :: ShowsTopNamespace(m, root, i, g) {
      assert g in multiset(groups);
      var j :| 0 <= j < |groups| && groups[j] == g;
      assert tops[j] in tops;
    }
    forall i <- tops ensures exists g <- sorted :: ShowsTopNamespace(m, root, i, g) {
      var j :| 0 <= j < |tops| && tops[j] == i;
      assert groups[j] in multiset(sorted);
    }
  }

  /** The groups as built show exactly this, for every plain configuration. */
  lemma BuiltGroupsShow(m: Masking, root: Config, follows: (string, string) -> bool, groups: seq<Group>)
    requires root.Namespace? && IsPlainTree(root) && AreBuilt(m, root, follows, groups)
    ensures ShowsConfiguration(m, root, follows, groups)
  {
    var n := |root.entries|;
    var general, namespaces := GeneralEntries(m, root, n), NamespaceGroups(m, root, n);
    GeneralShowsLeaves(m, root, n);
    NamespacesShow(m, root, n);
    SortKeepsGroups(namespaces, follows);
    if IsComparison(follows) { GroupsAreInOrder(namespaces, follows); }
    BuiltIs(m, root, follows, groups);
    hide *;
    SortedShow(m, root, follows, Tops(root, n, true), namespaces, SortGroups(namespaces, follows));
    TogetherShow(m, root, follows, general, SortGroups(namespaces, follows), groups);
  }

  lemma BuiltIs(m: Masking, root: Config, follows: (string, string) -> bool, groups: seq<Group>)
    requires root.Namespace? && AreBuilt(m, root, follows, groups)
    ensures var general := GeneralEntries(m, root, |root.entries|);
            groups == (if general == [] then [] else [Group("General", general)]) + SortGroups(NamespaceGroups(m, root, |root.entries|), follows)
  {
    hide GeneralEntries, SortGroups, NamespaceGroups;
  }

  lemma TogetherShow(m: Masking, root: Config, follows: (string, string) -> bool, general: Entries, rest: seq<Group>, groups: seq<Group>)
    requires root.Namespace? && groups == (if general == [] then [] else [Group("General", general)]) + rest
    requires ShowsLeaves(m, root, Tops(root, |root.entries|, false), general)
    requires ShowsNamespaces(m, root, follows, Tops(root, |root.entries|, true), rest)
    ensures ShowsConfiguration(m, root, follows, groups)
  {
    hide Tops, ShowsTop, ShowsNamespaces;
    assert [] + rest == rest && ([Group("General", general)] + rest)[1..] == rest;
  }

  ghost predicate AreBuilt(m: Masking, root: Config, follows: (string, string) -> bool, groups: seq<Group>)
    requires root.Namespace?
  {
    var n := |root.entries|;
    var general := GeneralEntries(m, root, n);
    groups == (if general == [] then [] else [Group(GENERAL, general)]) + SortGroups(NamespaceGroups(m, root, n), follows)
  }

  /** `buildGroups`. */
  method BuildGroups(m: Masking, root: Config, follows: (string, string) -> bool) returns (groups: seq<Group>)
    requires root.Namespace?
    ensures AreBuilt(m, root, follows, groups)
    ensures IsPlainTree(root) ==> ShowsConfiguration(m, root, follows, groups)
  {
    var namespaces, general := [], [];
    for i := 0 to |root.entries|
      invariant namespaces == NamespaceGroups(m, root, i) && general == GeneralEntries(m, root, i)
    {
      var (key, value) := root.entries[i];
      if key != VALIDATED_ENV {
        match value {
          case Namespace(es) => namespaces := namespaces + [Group(key, Flatten(m, value, |es|, "", key))];
          case Value(leaf) => general := Put(general, key, MaskLeaf(m, key, key, leaf));
        }
      }
    }
    groups := if general == [] then [] else [Group(GENERAL, general)];
    groups := groups + SortGroups(namespaces, follows);
    assert AreBuilt(m, root, follows, groups);
    hide AreBuilt, ShowsConfiguration;
    if IsPlainTree(root) { BuiltGroupsShow(m, root, follows, groups); }
  }

  /** The leaves of a configuration, those of the validated environment left out. */
  function LeafCount(root: Config, n: nat): nat
    requires root.Namespace? && n <= |root.entries|
  {
    if n == 0 then 0 else
    var before, value := LeafCount(root, n - 1), root.entries[n - 1].1;
    if !IsShown(root, n - 1) then before
    else before + if value.Value? then 1 else |PathsOf(value, |value.entries|, [])|
  }

  lemma {:induction false} CountConcat(a: seq<Group>, b: seq<Group>)
    ensures KeyCount(a + b) == KeyCount(a) + KeyCount(b)
  {
    if b == [] {
      assert a + b == a;
    } else {
      assert (a + b)[..|a| + |b| - 1] == a + b[..|b| - 1];
      CountConcat(a, b[..|b| - 1]);
    }
  }

  lemma {:induction false} SortKeepsCount(groups: seq<Group>, follows: (string, string) -> bool)
    ensures KeyCount(SortGroups(groups, follows)) == KeyCount(groups)
  {
    if groups != [] {
      var n := |groups| - 1;
      SortKeepsCount(groups[..n], follows);
      InsertKeepsCount(SortGroups(groups[..n], follows), groups[n], follows);
    }
  }

  lemma {:induction false} InsertKeepsCount(groups: seq<Group>, g: Group, follows: (string, string) -> bool)
    ensures KeyCount(InsertGroup(groups, g, follows)) == KeyCount(groups) + |g.entries|
  {
    if groups == [] || !follows(groups[|groups| - 1].name, g.name) {
      assert (groups + [g])[..|groups|] == groups;
    } else {
      var n := |groups| - 1;
      var before := InsertGroup(groups[..n], g, follows);
      InsertKeepsCount(groups[..n], g, follows);
      assert (before + [groups[n]])[..|before|] == before;
    }
  }

  /** Those among them that get no entry: named `__proto__`, at the top or right below a namespace. */
  function LostCount(root: Config, n: nat): nat
    requires root.Namespace? && n <= |root.entries|
  {
    if n == 0 then 0 else
    var before, (key, value) := LostCount(root, n - 1), root.entries[n - 1];
    if !IsShown(root, n - 1) then before
    else if value.Value? then before + if key == PROTO then 1 else 0
    else before + |PathsOf(value, |value.entries|, [])| - |Kept(PathsOf(value, |value.entries|, []))|
  }

  /** A leaf named `__proto__` at the top, or right below a namespace that is shown. */
  ghost predicate HasProto(root: Config, n: nat)
    requires root.Namespace? && n <= |root.entries|
  {
    exists i :: 0 <= i < n && IsProto(root, i)
  }

  predicate IsProto(root: Config, i: nat)
    requires root.Namespace? && i < |root.entries|
  {
    var (key, value) := root.entries[i];
    && IsShown(root, i)
    && match value
       case Value(_) => key == PROTO
       case Namespace(es) => exists j :: 0 <= j < |es| && es[j].0 == PROTO && es[j].1.Value?
  }

  lemma {:induction false} GeneralNamesOnce(m: Masking, root: Config, n: nat)
    requires root.Namespace? && n <= |root.entries| && IsPlainTree(root)
    ensures NamedOnce(GeneralEntries(m, root, n))
    ensures forall k :: Has(GeneralEntries(m, root, n), k) ==> exists i :: 0 <= i < n && root.entries[i].0 == k
  {
    if n > 0 {
      GeneralNamesOnce(m, root, n - 1);
      var (key, value) := root.entries[n - 1];
      if IsShown(root, n - 1) && value.Value? {
        var v := MaskLeaf(m, key, key, value.leaf);
        PutNamesOnce(GeneralEntries(m, root, n - 1), key, v);
        forall k ensures Has(GeneralEntries(m, root, n), k) ==> Has(GeneralEntries(m, root, n - 1), k) || k == key {
          PutKeeps(GeneralEntries(m, root, n - 1), key, v, k);
        }
      }
    }
  }

  lemma FlattenKeepsAll(m: Masking, node: Config, ns: string)
    requires node.Namespace? && IsPlainTree(node)
    ensures |Flatten(m, node, |node.entries|, "", ns)| == |Kept(PathsOf(node, |node.entries|, []))|
  {
    PlainTreesFlattenWhole(m, node, ns);
  }

  /** What the first `n` keys show and lose, less the leaves they hold. */
  ghost function Balance(m: Masking, root: Config, n: nat): int
    requires root.Namespace? && n <= |root.entries|
  {
    |GeneralEntries(m, root, n)| + KeyCount(NamespaceGroups(m, root, n)) + LostCount(root, n) - LeafCount(root, n)
  }

  lemma HiddenKeyBalances(m: Masking, root: Config, n: nat)
    requires root.Namespace? && n < |root.entries| && !IsShown(root, n)
    ensures Balance(m, root, n + 1) == Balance(m, root, n)
  {
    hide IsShown;
  }

  lemma ValueBalances(m: Masking, root: Config, n: nat)
    requires root.Namespace? && n < |root.entries| && IsShown(root, n) && root.entries[n].1.Value? && IsPlainTree(root)
    ensures Balance(m, root, n + 1) == Balance(m, root, n)
  {
    GeneralNamesOnce(m, root, n);
    var (key, value) := root.entries[n];
    var before, v := GeneralEntries(m, root, n), MaskLeaf(m, key, key, value.leaf);
    assert !Has(before, key);
    PutNamesOnce(before, key, v);
    assert GeneralEntries(m, root, n + 1) == Put(before, key, v);
    hide IsShown, IsPlainTree, Put, MaskLeaf, NamedOnce, Has;
  }

  lemma NamespaceBalances(m: Masking, root: Config, n: nat)
    requires root.Namespace? && n < |root.entries| && IsShown(root, n) && root.entries[n].1.Namespace? && IsPlainTree(root)
    ensures Balance(m, root, n + 1) == Balance(m, root, n)
  {
    var (key, value) := root.entries[n];
    FlattenKeepsAll(m, value, key);
    hide IsShown, IsPlainTree, Flatten, PathsOf, Kept, KeyCount;
    var groups, g := NamespaceGroups(m, root, n), Group(key, Flatten(m, value, |value.entries|, "", key));
    assert NamespaceGroups(m, root, n + 1) == groups + [g];
    CountOneMore(groups, g);
  }

  lemma CountOneMore(groups: seq<Group>, g: Group)
    ensures KeyCount(groups + [g]) == KeyCount(groups) + |g.entries|
  {
    assert (groups + [g])[..|groups|] == groups;
  }

  lemma NothingBalances(m: Masking, root: Config)
    requires root.Namespace?
    ensures Balance(m, root, 0) == 0
  {
  }

  lemma {:induction false} CountsSoFar(m: Masking, root: Config, n: nat)
    requires root.Namespace? && n <= |root.entries| && IsPlainTree(root)
    ensures Balance(m, root, n) == 0
  {
    hide *;
    if n == 0 {
      NothingBalances(m, root);
    } else {
      CountsSoFar(m, root, n - 1);
      if !IsShown(root, n - 1) {
        HiddenKeyBalances(m, root, n - 1);
      } else if root.entries[n - 1].1.Value? {
        ValueBalances(m, root, n - 1);
      } else {
        NamespaceBalances(m, root, n - 1);
      }
    }
  }

  lemma {:induction false} OwnProto(node: Config, n: nat)
    requires node.Namespace? && n <= |node.entries| && IsPlainTree(node)
    ensures (exists p <- PathsOf(node, n, []) :: p.keys == [PROTO])
            <==> exists j :: 0 <= j < n && node.entries[j].0 == PROTO && node.entries[j].1.Value?
  {
    if n > 0 {
      var (key, value) := node.entries[n - 1];
      OwnProto(node, n - 1);
      match value
      case Value(leaf) => assert [] + [key] == [key];
      case Namespace(es) => PathsAreBelow(value, |es|, [] + [key]);
    }
  }

  lemma {:induction false} LostIffProto(root: Config, n: nat)
    requires root.Namespace? && n <= |root.entries| && IsPlainTree(root)
    ensures LostCount(root, n) > 0 <==> HasProto(root, n)
  {
    if n > 0 {
      LostIffProto(root, n - 1);
      var value := root.entries[n - 1].1;
      if value.Namespace? { OwnProto(value, |value.entries|); }
      assert HasProto(root, n) <==> HasProto(root, n - 1) || IsProto(root, n - 1);
    }
  }

  /**
   * The key counts of the groups, and the leaves lost to the name `__proto__`, add up to the number of
   * leaves outside the validated environment; so the counts are exact when there is no such leaf.
   */
  lemma CountsAddUp(m: Masking, root: Config, follows: (string, string) -> bool, groups: seq<Group>)
    requires root.Namespace? && IsPlainTree(root)
    requires AreBuilt(m, root, follows, groups)
    ensures KeyCount(groups) + LostCount(root, |root.entries|) == LeafCount(root, |root.entries|)
    ensures KeyCount(groups) == LeafCount(root, |root.entries|) <==> !HasProto(root, |root.entries|)
  {
    var n := |root.entries|;
    var general := GeneralEntries(m, root, n);
    var first := if general == [] then [] else [Group(GENERAL, general)];
    CountsSoFar(m, root, n);
    LostIffProto(root, n);
    SortKeepsCount(NamespaceGroups(m, root, n), follows);
    CountConcat(first, SortGroups(NamespaceGroups(m, root, n), follows));
    assert general != [] ==> first[..0] == [];
  }
}
