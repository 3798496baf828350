/**
 * `fieldsOf` and `fieldOf` (mongoose-schema.collector.ts) as they run: nodes are allocated, found
 * again through a map keyed by path, and pushed onto lists that the tree itself holds. What is
 * built is proved to be the tree `SchemaSpec` gives.
 */
module SchemaCollector {
  import opened Dotted
  import opened Options
  import opened SchemaSpec

  class NodeList {
    var items: seq<FieldNode>

    constructor ()
      ensures items == []
    {
      items := [];
    }
  }

  class FieldNode {
    const path: string
    const required: bool
    const defaultValue: Option<string>
    const ref: Option<Ref>
    var typeName: string
    var embedded: Option<Embedding>
    var children: NodeList

    constructor (path: string, typeName: string, required: bool, defaultValue: Option<string>, ref: Option<Ref>,
                 embedded: Option<Embedding>, children: NodeList)
      ensures this.path == path && this.typeName == typeName && this.required == required
      ensures this.defaultValue == defaultValue && this.ref == ref && this.embedded == embedded
      ensures this.children == children
    {
      this.path, this.typeName, this.required := path, typeName, required;
      this.defaultValue, this.ref, this.embedded, this.children := defaultValue, ref, embedded, children;
    }
  }

  /** The node, with everything below it in `repr`, is the tree `f`. */
  ghost predicate Represents(n: FieldNode, f: Field, repr: set<object>)
    reads repr
    decreases f
  {
    && n in repr && n.children in repr
    && n.path == f.path && n.typeName == f.typeName && n.required == f.required
    && n.defaultValue == f.defaultValue && n.ref == f.ref && n.embedded == f.embedded
    && ListRepresents(n.children, f.children, repr)
  }

  ghost predicate ListRepresents(l: NodeList, fs: seq<Field>, repr: set<object>)
    reads repr
    decreases fs
  {
    && l in repr
    && |l.items| == |fs|
    && forall i | 0 <= i < |fs| :: Represents(l.items[i], fs[i], repr)
  }

  lemma {:induction false} RepresentsMore(n: FieldNode, f: Field, repr: set<object>, more: set<object>)
    requires Represents(n, f, repr) && repr <= more
    ensures Represents(n, f, more)
    decreases f
  {
    forall i | 0 <= i < |f.children| ensures Represents(n.children.items[i], f.children[i], more) {
      RepresentsMore(n.children.items[i], f.children[i], repr, more);
    }
  }

  // ---- The level being built ----

  /**
   * What the loop over a schema's paths has allocated so far: the object node of each prefix met,
   * the node of each path, and the objects they are made of (`own`) or hold below a path (`below`).
   * `prefixOf` finds a prefix back from its node's list, and `named` from its full path: no two
   * prefixes share either.
   */
  datatype Level = Level(
    nodes: map<seq<string>, FieldNode>,
    prefixOf: map<NodeList, seq<string>>,
    named: map<string, seq<string>>,
    leaves: seq<FieldNode>,
    own: set<object>,
    below: set<object>)

  /** The first `n` paths are in, and so are the first `m` prefixes of the next one. */
  ghost predicate Met(es: seq<Entry>, n: nat, m: nat, q: seq<string>)
    requires n <= |es|
  {
    q != [] && ((exists j :: 0 <= j < n && q < es[j].segments) || (n < |es| && q < es[n].segments && |q| <= m))
  }

  ghost function KidsSoFar(es: seq<Entry>, n: nat, m: nat, p: seq<string>): seq<Item>
    requires n <= |es|
  {
    if n < |es| && p < es[n].segments && |p| < m then Kids(es[..n + 1], p) else Kids(es[..n], p)
  }

  ghost predicate Knows(l: Level, item: Item) {
    match item
    case Leaf(i) => i < |l.leaves|
    case Object(q) => q in l.nodes
  }

  ghost function NodeOf(l: Level, item: Item): FieldNode
    requires Knows(l, item)
  {
    match item
    case Leaf(i) => l.leaves[i]
    case Object(q) => l.nodes[q]
  }

  ghost predicate Holds(l: Level, nodes: seq<FieldNode>, items: seq<Item>) {
    |nodes| == |items| && forall i | 0 <= i < |items| :: Knows(l, items[i]) && nodes[i] == NodeOf(l, items[i])
  }

  ghost predicate IsObjectNode(l: Level, q: seq<string>, prefix: string)
    requires q in l.nodes
    reads l.own
  {
    var node := l.nodes[q];
    && node in l.own && node.children in l.own
    && node.children in l.prefixOf && l.prefixOf[node.children] == q
    && node.path == PathOf(prefix, q) && node.typeName == "Object" && !node.required
    && node.defaultValue == None && node.ref == None && node.embedded == Some(One)
  }

  /** The structure shared by every state of the level: object nodes with lists of their own. */
  ghost predicate Structure(l: Level, roots: NodeList, prefix: string)
    reads l.own
  {
    && roots in l.own && l.own !! l.below && roots !in l.prefixOf && l.prefixOf.Keys <= l.own
    && (forall q <- l.nodes :: IsObjectNode(l, q, prefix))
  }

  ghost function ListOf(l: Level, roots: NodeList, p: seq<string>): NodeList
    requires p == [] || p in l.nodes
    reads if p == [] then {} else {l.nodes[p]}
  {
    if p == [] then roots else l.nodes[p].children
  }

  /** What each list of the level holds. */
  ghost function Lists(l: Level, roots: NodeList, prefix: string): (lists: map<seq<string>, seq<FieldNode>>)
    requires Structure(l, roots, prefix)
    reads l.own
    ensures forall p :: p in lists <==> InDomain(l, p)
    ensures forall p <- lists :: InDomain(l, p) && lists[p] == ListOf(l, roots, p).items
  {
    assert forall q <- l.nodes :: IsObjectNode(l, q, prefix);
    map p | p in {[]} + l.nodes.Keys :: ListOf(l, roots, p).items
  }

  ghost predicate InDomain(l: Level, p: seq<string>) {
    p == [] || p in l.nodes
  }

  ghost predicate Filled(l: Level, roots: NodeList, es: seq<Entry>, n: nat, m: nat, prefix: string)
    requires n <= |es|
    reads l.own
  {
    && Structure(l, roots, prefix)
    && |l.leaves| == n
    && (forall q :: q in l.nodes <==> Met(es, n, m, q))
    && Contents(l, Lists(l, roots, prefix), es, n, m)
  }

  ghost predicate Contents(l: Level, lists: map<seq<string>, seq<FieldNode>>, es: seq<Entry>, n: nat, m: nat)
    requires n <= |es|
  {
    forall p <- lists :: Holds(l, lists[p], KidsSoFar(es, n, m, p))
  }

  ghost predicate LeavesHold(leaves: seq<FieldNode>, below: set<object>, es: seq<Entry>)
    reads below
  {
    |leaves| <= |es| && forall i | 0 <= i < |leaves| :: Represents(leaves[i], es[i].field, below)
  }

  /** The map of the loop: object nodes by full path. */
  ghost predicate Indexes(objects: map<string, FieldNode>, l: Level, prefix: string) {
    && (forall q <- l.nodes :: IsNamed(l, prefix, q))
    && (forall s <- objects :: s in l.named && l.named[s] in l.nodes && objects[s] == l.nodes[l.named[s]])
    && (forall s <- l.named :: s in objects && PathOf(prefix, l.named[s]) == s)
  }

  ghost predicate IsNamed(l: Level, prefix: string, q: seq<string>) {
    var s := PathOf(prefix, q);
    s in l.named && l.named[s] == q
  }

  function PathOf(prefix: string, q: seq<string>): string {
    prefix + Join(q)
  }

  // ---- A finished level is the tree of its entries ----

  lemma {:induction false} FilledLevelIsTree(l: Level, roots: NodeList, es: seq<Entry>, prefix: string, p: seq<string>, repr: set<object>)
    requires Filled(l, roots, es, |es|, 0, prefix) && LeavesHold(l.leaves, l.below, es) && InDomain(l, p) && repr == l.own + l.below
    ensures ListRepresents(ListOf(l, roots, p), Subtree(es, p, prefix), repr)
    decreases Height(es) - |p|
  {
    assert es[..|es|] == es;
    var list, items, fields := ListOf(l, roots, p), Kids(es, p), Subtree(es, p, prefix);
    assert Lists(l, roots, prefix)[p] == list.items && Holds(l, list.items, items);
    forall i | 0 <= i < |items| ensures Represents(list.items[i], fields[i], repr) {
      SubtreeAt(es, p, prefix, i);
      match items[i]
      case Leaf(n) => RepresentsMore(l.leaves[n], es[n].field, l.below, repr);
      case Object(q) =>
        FilledLevelIsTree(l, roots, es, prefix, q, repr);
        assert IsObjectNode(l, q, prefix);
    }
  }

  // ---- One step of the loop ----

  /** One more prefix, or the path itself, only changes the children of the prefix before it. */
  lemma KidsStep(es: seq<Entry>, n: nat, m: nat, p: seq<string>)
    requires n < |es| && m < |es[n].segments|
    ensures KidsSoFar(es, n, m + 1, p)
            == if p == es[n].segments[..m] then AddKid(KidsSoFar(es, n, m, p), n, es[n].segments, p)
               else KidsSoFar(es, n, m, p)
  {
    assert es[..n + 1][..n] == es[..n];
  }

  lemma NextEntry(es: seq<Entry>, n: nat, p: seq<string>)
    requires n < |es|
    ensures KidsSoFar(es, n + 1, 0, p) == KidsSoFar(es, n, |es[n].segments|, p)
    ensures Met(es, n + 1, 0, p) <==> Met(es, n, |es[n].segments|, p)
  {
    assert es[..n + 1][..n] == es[..n];
    if Met(es, n, |es[n].segments|, p) && p < es[n].segments {
      assert p < es[n].segments;
    }
  }

  /** A prefix no path has met yet has no children. */
  lemma {:induction false} UnmetHasNoKids(es: seq<Entry>, n: nat, q: seq<string>)
    requires n <= |es| && forall j | 0 <= j < n :: !(q < es[j].segments)
    ensures Kids(es[..n], q) == []
  {
    if n > 0 {
      UnmetHasNoKids(es, n - 1, q);
      assert es[..n][..n - 1] == es[..n - 1];
    }
  }

  /** A prefix a path has met is already listed under its own prefix. */
  lemma {:induction false} MetIsListed(es: seq<Entry>, n: nat, q: seq<string>, j: nat)
    requires j < n <= |es| && q != [] && q < es[j].segments
    ensures Object(q) in Kids(es[..n], q[..|q| - 1])
  {
    assert es[..n][..n - 1] == es[..n - 1];
    if j == n - 1 {
      assert q[..|q| - 1] < es[j].segments && es[j].segments[..|q|] == q;
    } else {
      MetIsListed(es, n - 1, q, j);
    }
  }

  /** Finding the node of the next prefix, or allocating it at the end of its siblings. */
  method Descend(objects: map<string, FieldNode>, objectPath: string, siblings: NodeList, ghost l: Level,
                 ghost roots: NodeList, ghost es: seq<Entry>, ghost n: nat, ghost m: nat, ghost prefix: string)
    returns (objects': map<string, FieldNode>, siblings': NodeList, ghost l': Level, ghost added: set<object>)
    requires n < |es| && m + 1 < |es[n].segments|
    requires forall j | 0 <= j < |es| :: Dotless(es[j].segments)
    requires Filled(l, roots, es, n, m, prefix) && Indexes(objects, l, prefix)
    requires InDomain(l, es[n].segments[..m]) && siblings == ListOf(l, roots, es[n].segments[..m])
    requires objectPath == PathOf(prefix, es[n].segments[..m + 1])
    modifies siblings
    ensures Filled(l', roots, es, n, m + 1, prefix) && Indexes(objects', l', prefix)
    ensures InDomain(l', es[n].segments[..m + 1]) && siblings' == ListOf(l', roots, es[n].segments[..m + 1])
    ensures l'.leaves == l.leaves && l'.below == l.below && l'.own == l.own + added && fresh(added) && siblings' in l'.own
  {
    if objectPath in objects {
      KeepFilled(objects, l, roots, es, n, m, prefix);
      OwnList(l, roots, prefix, es[n].segments[..m + 1]);
      return objects, objects[objectPath].children, l, {};
    }
    objects', siblings', l', added := Create(objects, objectPath, siblings, l, roots, es, n, m, prefix);
  }

  method Create(objects: map<string, FieldNode>, objectPath: string, siblings: NodeList, ghost l: Level,
                ghost roots: NodeList, ghost es: seq<Entry>, ghost n: nat, ghost m: nat, ghost prefix: string)
    returns (objects': map<string, FieldNode>, siblings': NodeList, ghost l': Level, ghost added: set<object>)
    requires n < |es| && m + 1 < |es[n].segments|
    requires Filled(l, roots, es, n, m, prefix) && Indexes(objects, l, prefix)
    requires InDomain(l, es[n].segments[..m]) && siblings == ListOf(l, roots, es[n].segments[..m])
    requires objectPath == PathOf(prefix, es[n].segments[..m + 1]) && objectPath !in objects
    modifies siblings
    ensures Filled(l', roots, es, n, m + 1, prefix) && Indexes(objects', l', prefix)
    ensures InDomain(l', es[n].segments[..m + 1]) && siblings' == ListOf(l', roots, es[n].segments[..m + 1])
    ensures l'.leaves == l.leaves && l'.below == l.below && l'.own == l.own + added && fresh(added) && siblings' in l'.own
  {
    var node;
    ghost var p, q := es[n].segments[..m], es[n].segments[..m + 1];
    NotYetMet(objects, l, es, n, m, prefix);
    ghost var lists := Lists(l, roots, prefix);
    node, l', added := PushObject(objectPath, siblings, l, roots, prefix, p, q);
    AddedListIsOwn(l, l', roots, q, node);
    FilledAfterObject(l, l', lists, roots, es, n, m, prefix, q, node);
    IndexesAfterObject(objects, l, l', prefix, q, node);
    objects', siblings' := objects[objectPath := node], node.children;
  }

  /** The level with the node of one more prefix. */
  ghost function AddedTo(l: Level, q: seq<string>, node: FieldNode): Level
    reads node
  {
    l.(nodes := l.nodes[q := node], prefixOf := l.prefixOf[node.children := q], named := l.named[node.path := q],
    own := l.own + {node, node.children})
  }

  lemma OwnList(l: Level, roots: NodeList, prefix: string, p: seq<string>)
    requires Structure(l, roots, prefix) && InDomain(l, p)
    ensures ListOf(l, roots, p) in l.own && ListOf(l, roots, p) !in l.below
  {
    assert p != [] ==> IsObjectNode(l, p, prefix);
  }

  lemma MetAfterObject(l: Level, l': Level, es: seq<Entry>, n: nat, m: nat, q: seq<string>, node: FieldNode)
    requires n < |es| && m + 1 < |es[n].segments| && q == es[n].segments[..m + 1] && q !in l.nodes
    requires (forall r :: r in l.nodes <==> Met(es, n, m, r)) && l' == AddedTo(l, q, node)
    ensures (forall r :: r in l'.nodes <==> Met(es, n, m + 1, r)) && Extends(l, l')
  {
    MetNext(es, n, m);
    hide Met;
  }

  lemma FilledAfterObject(l: Level, l': Level, lists: map<seq<string>, seq<FieldNode>>, roots: NodeList,
                          es: seq<Entry>, n: nat, m: nat, prefix: string, q: seq<string>, node: FieldNode)
    requires n < |es| && m + 1 < |es[n].segments| && q == es[n].segments[..m + 1] && q !in l.nodes
    requires Contents(l, lists, es, n, m) && es[n].segments[..m] in lists
    requires |l.leaves| == n && (forall r :: r in l.nodes <==> Met(es, n, m, r)) && forall j | 0 <= j < n :: !(q < es[j].segments)
    requires l' == AddedTo(l, q, node) && Structure(l', roots, prefix)
    requires var p := es[n].segments[..m];
             Lists(l', roots, prefix) == lists[p := lists[p] + [node]][q := []]
    ensures Filled(l', roots, es, n, m + 1, prefix)
  {
    hide Contents, Met, Structure, Lists;
    MetAfterObject(l, l', es, n, m, q, node);
    ContentsAfterObject(l, l', lists, Lists(l', roots, prefix), es, n, m);
  }

  lemma AddedListIsOwn(l: Level, l': Level, roots: NodeList, q: seq<string>, node: FieldNode)
    requires q != [] && l' == AddedTo(l, q, node)
    ensures InDomain(l', q) && node.children == ListOf(l', roots, q) && node.children in l'.own
    ensures l'.leaves == l.leaves && l'.below == l.below && l'.own == l.own + {node, node.children}
  {
  }

  lemma IndexesAfterObject(objects: map<string, FieldNode>, l: Level, l': Level, prefix: string, q: seq<string>, node: FieldNode)
    requires Indexes(objects, l, prefix) && PathOf(prefix, q) !in objects && q !in l.nodes
    requires l' == AddedTo(l, q, node) && node.path == PathOf(prefix, q)
    ensures Indexes(objects[PathOf(prefix, q) := node], l', prefix)
  {
    forall r <- l'.nodes ensures IsNamed(l', prefix, r) {
      if r != q { assert IsNamed(l, prefix, r); }
    }
  }

  /** Pushing a node onto the list of `p` changes no other list. */
  method Append(node: FieldNode, siblings: NodeList, ghost l: Level, ghost roots: NodeList, ghost prefix: string,
                ghost p: seq<string>)
    requires Structure(l, roots, prefix) && InDomain(l, p) && siblings == ListOf(l, roots, p)
    modifies siblings
    ensures Structure(l, roots, prefix)
    ensures Lists(l, roots, prefix) == old(Lists(l, roots, prefix))[p := old(Lists(l, roots, prefix))[p] + [node]]
  {
    siblings.items := siblings.items + [node];
    assert Structure(l, roots, prefix);
    forall r <- Lists(l, roots, prefix) ensures r != p ==> ListOf(l, roots, r) != siblings {
      assert r != [] ==> IsObjectNode(l, r, prefix);
    }
  }

  method NewObject(path: string) returns (node: FieldNode)
    ensures fresh(node) && fresh(node.children) && node.children.items == []
    ensures node.path == path && node.typeName == "Object" && !node.required
    ensures node.defaultValue == None && node.ref == None && node.embedded == Some(One)
  {
    var children := new NodeList();
    node := new FieldNode(path, "Object", false, None, None, Some(One), children);
  }

  /** Allocates the node of prefix `q`, with no children yet, and pushes it onto the list of `p`. */
  method PushObject(objectPath: string, siblings: NodeList, ghost l: Level, ghost roots: NodeList, ghost prefix: string,
                    ghost p: seq<string>, ghost q: seq<string>)
    returns (node: FieldNode, ghost l': Level, ghost added: set<object>)
    requires Structure(l, roots, prefix) && InDomain(l, p) && q != [] && q !in l.nodes
    requires siblings == ListOf(l, roots, p) && objectPath == PathOf(prefix, q)
    modifies siblings
    ensures added == {node, node.children} && fresh(added) && node.path == objectPath
    ensures l' == AddedTo(l, q, node)
    ensures Structure(l', roots, prefix)
    ensures Lists(l', roots, prefix)
            == old(Lists(l, roots, prefix))[p := old(Lists(l, roots, prefix))[p] + [node]][q := []]
  {
    hide IsObjectNode;
    node := NewObject(objectPath);
    OwnList(l, roots, prefix, p);
    Append(node, siblings, l, roots, prefix, p);
    l', added := AddedTo(l, q, node), {node, node.children};
    StructureWith(l, l', roots, prefix, q, node);
    ListsWith(l, l', roots, prefix, q, node);
  }

  lemma StructureWith(l: Level, l': Level, roots: NodeList, prefix: string, q: seq<string>, node: FieldNode)
    requires Structure(l, roots, prefix) && q != [] && q !in l.nodes && l' == AddedTo(l, q, node)
    requires node !in l.own + l.below && node.children !in l.own + l.below
    requires node.children.items == [] && node.path == PathOf(prefix, q) && node.typeName == "Object" && !node.required
    requires node.defaultValue == None && node.ref == None && node.embedded == Some(One)
    ensures Structure(l', roots, prefix)
  {
    forall r <- l'.nodes ensures IsObjectNode(l', r, prefix) {
      if r != q { assert IsObjectNode(l, r, prefix); }
    }
  }

  lemma ListsWith(l: Level, l': Level, roots: NodeList, prefix: string, q: seq<string>, node: FieldNode)
    requires Structure(l, roots, prefix) && q != [] && q !in l.nodes && l' == AddedTo(l, q, node)
    requires Structure(l', roots, prefix) && node.children.items == []
    ensures Lists(l', roots, prefix) == Lists(l, roots, prefix)[q := []]
  {
    var lists, lists' := Lists(l, roots, prefix), Lists(l', roots, prefix);
    forall r <- lists' ensures lists'[r] == lists[q := []][r] {
      assert r != q ==> ListOf(l', roots, r) == ListOf(l, roots, r);
    }
  }

  /** After an object is pushed, every list holds the children of its prefix again. */
  lemma ContentsAfterObject(l: Level, l': Level, lists: map<seq<string>, seq<FieldNode>>,
                            lists': map<seq<string>, seq<FieldNode>>, es: seq<Entry>, n: nat, m: nat)
    requires n < |es| && m + 1 < |es[n].segments| && Contents(l, lists, es, n, m) && Extends(l, l')
    requires var p, q := es[n].segments[..m], es[n].segments[..m + 1];
             && p in lists && q !in l.nodes && q in l'.nodes && (forall j | 0 <= j < n :: !(q < es[j].segments))
             && lists' == lists[p := lists[p] + [l'.nodes[q]]][q := []]
    ensures Contents(l', lists', es, n, m + 1)
  {
    var q := es[n].segments[..m + 1];
    UnmetHasNoKids(es, n, q);
    forall p <- lists' ensures Holds(l', lists'[p], KidsSoFar(es, n, m + 1, p)) {
      KidsStep(es, n, m, p);
      if p != q {
        StillHolds(l, l', lists[p], KidsSoFar(es, n, m, p));
        if p == es[n].segments[..m] {
          AddObject(l, l', lists[p], KidsSoFar(es, n, m, p), es, n, m, q);
        }
      }
    }
  }

  lemma NotYetMet(objects: map<string, FieldNode>, l: Level, es: seq<Entry>, n: nat, m: nat, prefix: string)
    requires n < |es| && m + 1 < |es[n].segments|
    requires Indexes(objects, l, prefix) && forall q :: q in l.nodes <==> Met(es, n, m, q)
    requires PathOf(prefix, es[n].segments[..m + 1]) !in objects
    ensures var q := es[n].segments[..m + 1];
            q !in l.nodes && forall j | 0 <= j < n :: !(q < es[j].segments)
  {
    var q := es[n].segments[..m + 1];
    assert q in l.nodes ==> IsNamed(l, prefix, q);
  }

  ghost predicate Extends(l: Level, l': Level) {
    && l.leaves <= l'.leaves
    && forall q <- l.nodes :: q in l'.nodes && l'.nodes[q] == l.nodes[q]
  }

  lemma StillHolds(l: Level, l': Level, list: seq<FieldNode>, kids: seq<Item>)
    requires Holds(l, list, kids) && Extends(l, l')
    ensures Holds(l', list, kids)
  {
  }

  lemma AddObject(l: Level, l': Level, list: seq<FieldNode>, kids: seq<Item>, es: seq<Entry>, n: nat, m: nat, q: seq<string>)
    requires Holds(l, list, kids) && Extends(l, l') && q !in l.nodes && q in l'.nodes
    requires n < |es| && m + 1 < |es[n].segments| && q == es[n].segments[..m + 1]
    ensures Holds(l', list + [l'.nodes[q]], AddKid(kids, n, es[n].segments, es[n].segments[..m]))
  {
    assert Object(q) !in kids;
    assert es[n].segments[..m] < es[n].segments;
    StillHolds(l, l', list, kids);
  }

  lemma MetNext(es: seq<Entry>, n: nat, m: nat)
    requires n < |es| && m + 1 < |es[n].segments|
    ensures forall r :: Met(es, n, m + 1, r) <==> Met(es, n, m, r) || r == es[n].segments[..m + 1]
  {
    forall r ensures Met(es, n, m + 1, r) <==> Met(es, n, m, r) || r == es[n].segments[..m + 1] {
      if r < es[n].segments && |r| == m + 1 { assert r == es[n].segments[..m + 1]; }
    }
  }

  lemma FoundIsMet(objects: map<string, FieldNode>, l: Level, prefix: string, q: seq<string>)
    requires Indexes(objects, l, prefix) && PathOf(prefix, q) in objects && Dotless(q)
    requires forall r <- l.nodes :: Dotless(r)
    ensures q in l.nodes && objects[PathOf(prefix, q)] == l.nodes[q]
  {
    PathsDiffer(prefix, q, l.named[PathOf(prefix, q)]);
  }

  lemma PathsDiffer(prefix: string, q: seq<string>, r: seq<string>)
    requires Dotless(q) && Dotless(r) && PathOf(prefix, q) == PathOf(prefix, r)
    ensures q == r
  {
    assert Join(q) == PathOf(prefix, q)[|prefix|..] && Join(r) == PathOf(prefix, r)[|prefix|..];
    JoinIsInjective(q, r);
  }

  /** When the next prefix was already met, nothing is allocated and nothing moves. */
  lemma KeepFilled(objects: map<string, FieldNode>, l: Level, roots: NodeList, es: seq<Entry>, n: nat, m: nat, prefix: string)
    requires n < |es| && m + 1 < |es[n].segments| && forall j | 0 <= j < |es| :: Dotless(es[j].segments)
    requires Filled(l, roots, es, n, m, prefix) && Indexes(objects, l, prefix)
    requires PathOf(prefix, es[n].segments[..m + 1]) in objects
    ensures var q := es[n].segments[..m + 1];
            q in l.nodes && objects[PathOf(prefix, q)] == l.nodes[q]
    ensures Filled(l, roots, es, n, m + 1, prefix)
  {
    hide IsObjectNode;
    var q := es[n].segments[..m + 1];
    FoundIsMet(objects, l, prefix, q);
    NothingNew(es, n, m);
  }

  /** A prefix met before is already among the children of the one before it. */
  lemma NothingNew(es: seq<Entry>, n: nat, m: nat)
    requires n < |es| && m + 1 < |es[n].segments| && Met(es, n, m, es[n].segments[..m + 1])
    ensures forall p :: KidsSoFar(es, n, m + 1, p) == KidsSoFar(es, n, m, p)
    ensures forall r :: Met(es, n, m + 1, r) <==> Met(es, n, m, r)
  {
    var q := es[n].segments[..m + 1];
    var j :| 0 <= j < n && q < es[j].segments;
    MetIsListed(es, n, q, j);
    assert q[..|q| - 1] == es[n].segments[..m];
    forall p ensures KidsSoFar(es, n, m + 1, p) == KidsSoFar(es, n, m, p) {
      KidsStep(es, n, m, p);
    }
    MetNext(es, n, m);
  }

  // ---- The loop ----

  lemma OwnRoots(l: Level, roots: NodeList, es: seq<Entry>, n: nat, prefix: string)
    requires n <= |es| && Filled(l, roots, es, n, 0, prefix)
    ensures roots in l.own && l.own !! l.below
  {
  }

  /** The list the path at position `n` goes to, every prefix on the way found or allocated. */
  method Walk(objects: map<string, FieldNode>, segments: seq<string>, prefix: string, roots: NodeList, ghost l: Level,
              ghost es: seq<Entry>, ghost n: nat)
    returns (objects': map<string, FieldNode>, siblings: NodeList, ghost l': Level, ghost added: set<object>, ghost m: nat)
    requires n < |es| && segments == es[n].segments && forall j | 0 <= j < |es| :: Dotless(es[j].segments)
    requires Filled(l, roots, es, n, 0, prefix) && Indexes(objects, l, prefix)
    modifies l.own
    ensures m + 1 == |segments| && Filled(l', roots, es, n, m, prefix) && Indexes(objects', l', prefix)
    ensures InDomain(l', segments[..m]) && siblings == ListOf(l', roots, segments[..m])
    ensures l'.leaves == l.leaves && l'.below == l.below && l'.own == l.own + added && fresh(added)
  {
    hide Filled, Indexes;
    objects', siblings, l', added, m := objects, roots, l, {}, 0;
    assert Dotless(es[n].segments);
    OwnRoots(l, roots, es, n, prefix);
    var i := 1;
    while i < |segments|
      invariant 1 <= i <= |segments| && i == m + 1
      invariant Filled(l', roots, es, n, m, prefix)
      invariant Indexes(objects', l', prefix)
      invariant InDomain(l', segments[..m]) && siblings == ListOf(l', roots, segments[..m]) && siblings in l'.own
      invariant l'.leaves == l.leaves && l'.below == l.below && l'.own == l.own + added && fresh(added)
    {
      var objectPath := PathOf(prefix, segments[..i]);
      ghost var more;
      objects', siblings, l', more := Descend(objects', objectPath, siblings, l', roots, es, n, m, prefix);
      added := added + more;
      i, m := i + 1, m + 1;
    }
  }

  /** Pushing the path itself completes it. */
  method PushLeaf(field: FieldNode, siblings: NodeList, ghost l: Level, ghost roots: NodeList, ghost es: seq<Entry>,
                  ghost n: nat, ghost m: nat, ghost prefix: string)
    returns (ghost l': Level)
    requires n < |es| && m + 1 == |es[n].segments|
    requires Filled(l, roots, es, n, m, prefix)
    requires InDomain(l, es[n].segments[..m]) && siblings == ListOf(l, roots, es[n].segments[..m])
    modifies siblings
    ensures l' == l.(leaves := l.leaves + [field]) && Filled(l', roots, es, n + 1, 0, prefix)
  {
    ghost var lists := Lists(l, roots, prefix);
    OwnList(l, roots, prefix, es[n].segments[..m]);
    Append(field, siblings, l, roots, prefix, es[n].segments[..m]);
    l' := l.(leaves := l.leaves + [field]);
    FilledAfterLeaf(l, l', lists, field, roots, es, n, m, prefix);
  }

  lemma FilledAfterLeaf(l: Level, l': Level, lists: map<seq<string>, seq<FieldNode>>, field: FieldNode, roots: NodeList,
                        es: seq<Entry>, n: nat, m: nat, prefix: string)
    requires n < |es| && m + 1 == |es[n].segments| && |l.leaves| == n && l' == l.(leaves := l.leaves + [field])
    requires Contents(l, lists, es, n, m) && (forall q :: q in l.nodes <==> Met(es, n, m, q))
    requires Structure(l, roots, prefix) && es[n].segments[..m] in lists
    requires var p := es[n].segments[..m];
             Lists(l, roots, prefix) == lists[p := lists[p] + [field]]
    ensures Filled(l', roots, es, n + 1, 0, prefix)
  {
    SameStructure(l, l', roots, prefix);
    ContentsAfterLeaf(l, l', lists, field, es, n, m);
    MetAfterLeaf(es, n, m);
  }

  /** Leaves have no part in the structure of the level. */
  lemma SameStructure(l: Level, l': Level, roots: NodeList, prefix: string)
    requires Structure(l, roots, prefix) && l' == l.(leaves := l'.leaves)
    ensures Structure(l', roots, prefix) && Lists(l', roots, prefix) == Lists(l, roots, prefix)
  {
    forall q <- l'.nodes ensures IsObjectNode(l', q, prefix) {
      assert IsObjectNode(l, q, prefix);
    }
  }

  lemma MetAfterLeaf(es: seq<Entry>, n: nat, m: nat)
    requires n < |es| && m + 1 == |es[n].segments|
    ensures forall q :: Met(es, n + 1, 0, q) <==> Met(es, n, m, q)
  {
    forall q ensures Met(es, n + 1, 0, q) <==> Met(es, n, m, q) {
      NextEntry(es, n, q);
    }
  }

  lemma ContentsAfterLeaf(l: Level, l': Level, lists: map<seq<string>, seq<FieldNode>>, field: FieldNode,
                          es: seq<Entry>, n: nat, m: nat)
    requires n < |es| && m + 1 == |es[n].segments| && |l.leaves| == n && l' == l.(leaves := l.leaves + [field])
    requires Contents(l, lists, es, n, m) && es[n].segments[..m] in lists
    ensures var p := es[n].segments[..m];
            Contents(l', lists[p := lists[p] + [field]], es, n + 1, 0)
  {
    var p := es[n].segments[..m];
    var lists' := lists[p := lists[p] + [field]];
    forall r <- lists' ensures Holds(l', lists'[r], KidsSoFar(es, n + 1, 0, r)) {
      NextEntry(es, n, r);
      KidsStep(es, n, m, r);
      hide KidsSoFar, Holds;
      StillHolds(l, l', lists[r], KidsSoFar(es, n, m, r));
      if r == p { AddLeaf(l', lists[p], KidsSoFar(es, n, m, p), field, es, n, m); }
    }
  }

  lemma AddLeaf(l: Level, list: seq<FieldNode>, kids: seq<Item>, field: FieldNode, es: seq<Entry>, n: nat, m: nat)
    requires Holds(l, list, kids) && |l.leaves| == n + 1 && l.leaves[n] == field
    requires n < |es| && m + 1 == |es[n].segments|
    ensures Holds(l, list + [field], AddKid(kids, n, es[n].segments, es[n].segments[..m]))
  {
    assert es[n].segments[..m] < es[n].segments;
    assert Knows(l, Leaf(n)) && NodeOf(l, Leaf(n)) == field;
  }

  // ---- fieldsOf and fieldOf ----

  /** The level before any path: nothing but the list of roots. */
  lemma EmptyLevel(l: Level, roots: NodeList, es: seq<Entry>, prefix: string)
    requires l == Level(map[], map[], map[], [], {roots}, {}) && roots.items == []
    ensures Filled(l, roots, es, 0, 0, prefix) && LeavesHold(l.leaves, l.below, es) && Indexes(map[], l, prefix)
  {
    assert es[..0] == [];
    assert forall q :: !Met(es, 0, 0, q);
  }

  lemma EntriesAreDotless(g: Graph, schema: SchemaId, prefix: string, ancestors: set<SchemaId>)
    requires Closed(g) && schema in g
    ensures forall j | 0 <= j < |g[schema]| :: Dotless(Entries(g, schema, prefix, ancestors)[j].segments)
  {
    forall j | 0 <= j < |g[schema]| ensures Dotless(Entries(g, schema, prefix, ancestors)[j].segments) {
      EntryAt(g, schema, prefix, ancestors, j);
    }
  }

  lemma StructureBelow(l: Level, l': Level, roots: NodeList, prefix: string)
    requires Structure(l, roots, prefix) && l' == l.(below := l'.below) && l'.below !! l.own
    ensures Structure(l', roots, prefix) && Lists(l', roots, prefix) == Lists(l, roots, prefix)
  {
    forall q <- l'.nodes ensures IsObjectNode(l', q, prefix) {
      assert IsObjectNode(l, q, prefix);
    }
  }

  /** What hangs below the paths has no part in the level either. */
  lemma FilledBelow(l: Level, l': Level, roots: NodeList, es: seq<Entry>, n: nat, m: nat, prefix: string)
    requires n <= |es| && Filled(l, roots, es, n, m, prefix) && l' == l.(below := l'.below) && l'.below !! l.own
    ensures Filled(l', roots, es, n, m, prefix)
  {
    StructureBelow(l, l', roots, prefix);
    forall p <- Lists(l', roots, prefix) ensures Holds(l', Lists(l', roots, prefix)[p], KidsSoFar(es, n, m, p)) {
      assert Holds(l, Lists(l, roots, prefix)[p], KidsSoFar(es, n, m, p));
    }
  }

  method FieldsOf(g: Graph, schema: SchemaId, prefix: string, ancestors: set<SchemaId>)
    returns (roots: NodeList, ghost repr: set<object>)
    requires Closed(g) && schema in g
    ensures fresh(repr) && ListRepresents(roots, Fields(g, schema, prefix, ancestors), repr)
    decreases Remaining(ancestors), 2
  {
    roots := new NodeList();
    var objects: map<string, FieldNode> := map[];
    ghost var es, l := Entries(g, schema, prefix, ancestors), Level(map[], map[], map[], [], {roots}, {});
    EmptyLevel(l, roots, es, prefix);
    EntriesAreDotless(g, schema, prefix, ancestors);
    hide Filled, Indexes, LeavesHold;
    for n := 0 to |g[schema]|
      invariant Filled(l, roots, es, n, 0, prefix) && Indexes(objects, l, prefix) && LeavesHold(l.leaves, l.below, es)
      invariant fresh(l.own) && fresh(l.below)
    {
      objects, l := AddPath(g, schema, n, objects, prefix, ancestors, roots, l, es);
    }
    repr := l.own + l.below;
    FilledLevelIsTree(l, roots, es, prefix, [], repr);
  }

  method AddPath(g: Graph, schema: SchemaId, n: nat, objects: map<string, FieldNode>, prefix: string,
                 ancestors: set<SchemaId>, roots: NodeList, ghost l: Level, ghost es: seq<Entry>)
    returns (objects': map<string, FieldNode>, ghost l': Level)
    requires Closed(g) && schema in g && n < |g[schema]| && es == Entries(g, schema, prefix, ancestors)
    requires forall j | 0 <= j < |es| :: Dotless(es[j].segments)
    requires Filled(l, roots, es, n, 0, prefix) && Indexes(objects, l, prefix) && LeavesHold(l.leaves, l.below, es)
    modifies l.own
    ensures Filled(l', roots, es, n + 1, 0, prefix) && Indexes(objects', l', prefix) && LeavesHold(l'.leaves, l'.below, es)
    ensures fresh(l'.own - l.own) && fresh(l'.below - l.below)
    decreases Remaining(ancestors), 1
  {
    hide Filled, Indexes;
    var (key, t) := g[schema][n];
    EntryAt(g, schema, prefix, ancestors, n);
    OwnRoots(l, roots, es, n, prefix);
    var siblings;
    ghost var added, m;
    objects', siblings, l', added, m := Walk(objects, Split(key), prefix, roots, l, es, n);
    var field;
    ghost var repr;
    field, repr := FieldOf(g, prefix + key, t, ancestors);
    ghost var more := l'.(below := l.below + repr);
    TakeIn(objects', l', more, roots, es, n, m, prefix, field, repr);
    l' := Complete(field, siblings, more, roots, es, n, m, prefix);
    SameIndexes(objects', more, l', prefix);
  }

  /** The path pushed, with its subtree untouched. */
  method Complete(field: FieldNode, siblings: NodeList, ghost l: Level, ghost roots: NodeList, ghost es: seq<Entry>,
                  ghost n: nat, ghost m: nat, ghost prefix: string)
    returns (ghost l': Level)
    requires n < |es| && m + 1 == |es[n].segments| && |l.leaves| == n
    requires Filled(l, roots, es, n, m, prefix) && LeavesHold(l.leaves, l.below, es) && Represents(field, es[n].field, l.below)
    requires InDomain(l, es[n].segments[..m]) && siblings == ListOf(l, roots, es[n].segments[..m]) && siblings !in l.below
    modifies siblings
    ensures l' == l.(leaves := l.leaves + [field]) && Filled(l', roots, es, n + 1, 0, prefix) && LeavesHold(l'.leaves, l'.below, es)
  {
    hide Filled;
    l' := PushLeaf(field, siblings, l, roots, es, n, m, prefix);
    OneMoreHolds(l, l', field, es);
  }

  lemma OneMoreHolds(l: Level, l': Level, field: FieldNode, es: seq<Entry>)
    requires LeavesHold(l.leaves, l.below, es) && |l.leaves| < |es| && Represents(field, es[|l.leaves|].field, l.below)
    requires l' == l.(leaves := l.leaves + [field])
    ensures LeavesHold(l'.leaves, l'.below, es)
  {
  }

  /** The level takes in the subtree of a path, before the path itself is pushed. */
  lemma TakeIn(objects: map<string, FieldNode>, l: Level, l': Level, roots: NodeList, es: seq<Entry>, n: nat, m: nat,
               prefix: string, field: FieldNode, repr: set<object>)
    requires n < |es| && m + 1 == |es[n].segments|
    requires Filled(l, roots, es, n, m, prefix) && Indexes(objects, l, prefix) && LeavesHold(l.leaves, l.below, es)
    requires InDomain(l, es[n].segments[..m]) && Represents(field, es[n].field, repr)
    requires l' == l.(below := l.below + repr) && repr !! l.own
    ensures Filled(l', roots, es, n, m, prefix) && Indexes(objects, l', prefix) && LeavesHold(l'.leaves, l'.below, es)
    ensures var p := es[n].segments[..m];
            InDomain(l', p) && ListOf(l', roots, p) == ListOf(l, roots, p) && ListOf(l, roots, p) in l.own - l'.below
    ensures Represents(field, es[n].field, l'.below)
  {
    OwnList(l, roots, prefix, es[n].segments[..m]);
    FilledBelow(l, l', roots, es, n, m, prefix);
    SameIndexes(objects, l, l', prefix);
    RepresentsMore(field, es[n].field, repr, l'.below);
    forall i | 0 <= i < |l.leaves| ensures Represents(l.leaves[i], es[i].field, l'.below) {
      RepresentsMore(l.leaves[i], es[i].field, l.below, l'.below);
    }
  }

  lemma SameIndexes(objects: map<string, FieldNode>, l: Level, l': Level, prefix: string)
    requires Indexes(objects, l, prefix) && l'.nodes == l.nodes && l'.named == l.named
    ensures Indexes(objects, l', prefix)
  {
    forall q <- l'.nodes ensures IsNamed(l', prefix, q) {
      assert IsNamed(l, prefix, q);
    }
  }

  method FieldOf(g: Graph, fullPath: string, t: PathType, ancestors: set<SchemaId>)
    returns (field: FieldNode, ghost repr: set<object>)
    requires Closed(g) && (t.schema.Some? ==> t.schema.value in g)
    ensures fresh(repr) && Represents(field, LeafField(g, fullPath, t, ancestors), repr)
    decreases Remaining(ancestors), 0
  {
    var children := new NodeList();
    field := new FieldNode(fullPath, t.PlainTypeName(), t.isRequired, t.defaultValue, t.Relation(), None, children);
    repr := {field, children};
    if t.schema.Some? {
      var many := t.instance == Some("Array");
      field.typeName := if many then "Subdocument[]" else "Subdocument";
      field.embedded := Some(if many then Many else One);
      if t.schema.value !in ancestors && |ancestors| < MAX_DEPTH {
        var nested := ancestors + {t.schema.value};
        var below;
        ghost var inside;
        below, inside := FieldsOf(g, t.schema.value, fullPath + ".", nested);
        field.children := below;
        repr := {field} + inside;
        ListRepresentsMore(below, Fields(g, t.schema.value, fullPath + ".", nested), inside, repr);
      }
    }
  }

  lemma ListRepresentsMore(list: NodeList, fs: seq<Field>, repr: set<object>, more: set<object>)
    requires ListRepresents(list, fs, repr) && repr <= more
    ensures ListRepresents(list, fs, more)
  {
    forall i | 0 <= i < |fs| ensures Represents(list.items[i], fs[i], more) {
      RepresentsMore(list.items[i], fs[i], repr, more);
    }
  }
}
