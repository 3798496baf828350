/**
 * How `EventProfilerService` (event-profiler.service.ts) finds the handlers to wrap: subscriptions
 * grouped by the method they point at, each method wrapped once for all of its events.
 */
module ListenerWrapping {
  import opened Decimals
  import opened Options
  import Patching

  datatype Handler = Handler(instance: nat, name: string)

  /** A subscription; a method with several `@OnEvent` decorators has several. */
  datatype Listener = Listener(instance: nat, provider: string, handler: string, event: string) {
    function Target(): Handler {
      Handler(instance, handler)
    }
  }

  // ---- The partition ----

  /** The handlers subscribed, in order of first appearance. */
  function HandlersOf(listeners: seq<Listener>): seq<Handler> {
    if listeners == [] then [] else
    var n := |listeners| - 1;
    var before := HandlersOf(listeners[..n]);
    if listeners[n].Target() in before then before else before + [listeners[n].Target()]
  }

  /** The subscriptions of one handler, in order. */
  function SubscriptionsOf(listeners: seq<Listener>, h: Handler): seq<Listener> {
    if listeners == [] then [] else
    var n := |listeners| - 1;
    SubscriptionsOf(listeners[..n], h) + if listeners[n].Target() == h then [listeners[n]] else []
  }

  function GroupsOf(listeners: seq<Listener>, handlers: seq<Handler>): seq<seq<Listener>> {
    seq(|handlers|, i requires 0 <= i < |handlers| => SubscriptionsOf(listeners, handlers[i]))
  }

  function Concat(groups: seq<seq<Listener>>): seq<Listener> {
    if groups == [] then [] else Concat(groups[..|groups| - 1]) + groups[|groups| - 1]
  }

  lemma {:induction false} HandlersAreDistinct(listeners: seq<Listener>)
    ensures forall i, j | 0 <= i < j < |HandlersOf(listeners)| :: HandlersOf(listeners)[i] != HandlersOf(listeners)[j]
    ensures forall h :: h in HandlersOf(listeners) <==> exists i :: 0 <= i < |listeners| && listeners[i].Target() == h
  {
    if listeners != [] {
      var n := |listeners| - 1;
      HandlersAreDistinct(listeners[..n]);
      forall h ensures h in HandlersOf(listeners) <==> exists i :: 0 <= i < |listeners| && listeners[i].Target() == h {
        if i :| 0 <= i < |listeners| && listeners[i].Target() == h {
          assert i < n ==> listeners[..n][i].Target() == h;
        }
        if h in HandlersOf(listeners[..n]) {
          var i :| 0 <= i < n && listeners[..n][i].Target() == h;
          assert listeners[i].Target() == h;
        }
      }
    }
  }

  lemma {:induction false} SubscriptionsAre(listeners: seq<Listener>, h: Handler)
    ensures forall l <- SubscriptionsOf(listeners, h) :: l.Target() == h
    ensures forall l: Listener :: l.Target() == h ==> multiset(SubscriptionsOf(listeners, h))[l] == multiset(listeners)[l]
  {
    if listeners != [] {
      var n := |listeners| - 1;
      SubscriptionsAre(listeners[..n], h);
      assert listeners == listeners[..n] + [listeners[n]];
    }
  }

  lemma {:induction false} CountInGroups(listeners: seq<Listener>, handlers: seq<Handler>, l: Listener)
    requires forall i, j | 0 <= i < j < |handlers| :: handlers[i] != handlers[j]
    ensures multiset(Concat(GroupsOf(listeners, handlers)))[l] == if l.Target() in handlers then multiset(listeners)[l] else 0
  {
    if handlers != [] {
      var n := |handlers| - 1;
      assert GroupsOf(listeners, handlers)[..n] == GroupsOf(listeners, handlers[..n]);
      CountInGroups(listeners, handlers[..n], l);
      SubscriptionsAre(listeners, handlers[n]);
      assert handlers == handlers[..n] + [handlers[n]];
      if l.Target() != handlers[n] {
        assert l !in SubscriptionsOf(listeners, handlers[n]);
      }
    }
  }

  /** Handlers stand in the order their first subscriptions do. */
  lemma {:induction false} HandlersFirstSeen(listeners: seq<Listener>, j: nat)
    requires j < |HandlersOf(listeners)|
    ensures exists n :: 0 <= n < |listeners| && HandlersOf(listeners[..n]) == HandlersOf(listeners)[..j]
                        && listeners[n].Target() == HandlersOf(listeners)[j]
                        && forall i | 0 <= i < n :: listeners[i].Target() != listeners[n].Target()
  {
    var last := |listeners| - 1;
    var before := HandlersOf(listeners[..last]);
    if j < |before| {
      HandlersFirstSeen(listeners[..last], j);
      var n :| 0 <= n < last && HandlersOf(listeners[..last][..n]) == before[..j] && listeners[..last][n].Target() == before[j]
               && forall i | 0 <= i < n :: listeners[..last][i].Target() != listeners[..last][n].Target();
      assert listeners[..last][..n] == listeners[..n] && HandlersOf(listeners)[..j] == before[..j];
      forall i | 0 <= i < n ensures listeners[i].Target() != listeners[n].Target() {
        assert listeners[..last][i] == listeners[i] && listeners[..last][n] == listeners[n];
      }
    } else {
      HandlersAreDistinct(listeners[..last]);
      assert HandlersOf(listeners) == before + [listeners[last].Target()] && HandlersOf(listeners)[..j] == before;
      forall i | 0 <= i < last ensures listeners[i].Target() != listeners[last].Target() {
        assert listeners[..last][i].Target() == listeners[i].Target();
      }
    }
  }

  /** The subscriptions of a handler stand in the order they were found. */
  lemma {:induction false} SubscriptionsInOrder(listeners: seq<Listener>, h: Handler) returns (at: seq<nat>)
    ensures |at| == |SubscriptionsOf(listeners, h)|
    ensures forall i, j | 0 <= i < j < |at| :: at[i] < at[j]
    ensures forall i | 0 <= i < |at| :: at[i] < |listeners| && SubscriptionsOf(listeners, h)[i] == listeners[at[i]]
  {
    if listeners == [] { return []; }
    var n := |listeners| - 1;
    at := SubscriptionsInOrder(listeners[..n], h);
    if listeners[n].Target() == h { at := at + [n]; }
  }

  /** The groups partition the subscriptions: each stands in one group, that of the method it points at. */
  lemma GroupsPartition(listeners: seq<Listener>)
    ensures multiset(Concat(GroupsOf(listeners, HandlersOf(listeners)))) == multiset(listeners)
    ensures forall h <- HandlersOf(listeners) ::
              SubscriptionsOf(listeners, h) != [] && forall l <- SubscriptionsOf(listeners, h) :: l.Target() == h
  {
    var handlers := HandlersOf(listeners);
    HandlersAreDistinct(listeners);
    forall l: Listener ensures multiset(Concat(GroupsOf(listeners, handlers)))[l] == multiset(listeners)[l] {
      CountInGroups(listeners, handlers, l);
      if l.Target() !in handlers {
        assert l !in listeners;
      }
    }
    forall h <- handlers
      ensures SubscriptionsOf(listeners, h) != [] && forall l <- SubscriptionsOf(listeners, h) :: l.Target() == h
    {
      SubscriptionsAre(listeners, h);
      var i :| 0 <= i < |listeners| && listeners[i].Target() == h;
      assert listeners[i] in multiset(listeners);
      assert listeners[i] in multiset(SubscriptionsOf(listeners, h));
    }
  }

  // ---- The key of a group ----

  function Key(l: Listener, size: nat): string {
    l.provider + "." + l.handler + "#" + Decimal(size)
  }

  lemma SuffixesAgree(a: string, s: string, b: string, t: string)
    requires '#' !in s && '#' !in t && a + "#" + s == b + "#" + t
    ensures s == t
  {
    var u := a + "#" + s;
    assert u[|a|] == '#' && u[|b|] == '#';
    assert forall i | 0 <= i < |s| :: u[|a| + 1 + i] == s[i];
    assert forall i | 0 <= i < |t| :: u[|b| + 1 + i] == t[i];
    assert |a| == |b|;
    assert s == u[|a| + 1..] && t == u[|b| + 1..];
  }

  /** Keys made at different sizes of the map differ, whatever characters the names hold. */
  lemma KeysDiffer(a: Listener, b: Listener, m: nat, n: nat)
    requires Key(a, m) == Key(b, n)
    ensures m == n
  {
    SuffixesAgree(a.provider + "." + a.handler, Decimal(m), b.provider + "." + b.handler, Decimal(n));
    DecimalIsInjective(m, n);
  }

  // ---- The grouping as it runs ----

  /** A list reached both through the nested maps and through the result. */
  class Subscriptions {
    var items: seq<Listener>

    constructor (first: Listener)
      ensures items == [first]
    {
      items := [first];
    }
  }

  datatype Group = Group(key: string, subscriptions: Subscriptions)

  /** `Map.set`: an entry of the same key is overwritten, a new one comes last. */
  function Set(groups: seq<Group>, key: string, subscriptions: Subscriptions): seq<Group> {
    if groups == [] then [Group(key, subscriptions)]
    else if groups[0].key == key then [Group(key, subscriptions)] + groups[1..]
    else [groups[0]] + Set(groups[1..], key, subscriptions)
  }

  lemma {:induction false} SetAppends(groups: seq<Group>, key: string, subscriptions: Subscriptions)
    requires forall g <- groups :: g.key != key
    ensures Set(groups, key, subscriptions) == groups + [Group(key, subscriptions)]
  {
    if groups != [] {
      SetAppends(groups[1..], key, subscriptions);
      assert groups == [groups[0]] + groups[1..];
    }
  }

  ghost predicate Separate(groups: seq<Group>) {
    forall i, j | 0 <= i < j < |groups| :: groups[i].key != groups[j].key && groups[i].subscriptions != groups[j].subscriptions
  }

  ghost function Lists(groups: seq<Group>): seq<seq<Listener>>
    reads set g <- groups :: g.subscriptions
  {
    seq(|groups|, i requires 0 <= i < |groups| reads set g <- groups :: g.subscriptions =>
      assert groups[i] in groups; groups[i].subscriptions.items)
  }

  ghost predicate Grouped(groups: seq<Group>, listeners: seq<Listener>)
    reads set g <- groups :: g.subscriptions
  {
    Separate(groups) && Lists(groups) == GroupsOf(listeners, HandlersOf(listeners))
  }

  type Index = map<nat, map<string, Subscriptions>>

  function Lookup(byHandler: Index, h: Handler): Option<Subscriptions> {
    if h.instance in byHandler && h.name in byHandler[h.instance] then Some(byHandler[h.instance][h.name]) else None
  }

  /** The nested maps lead to the list of each handler met, and to nothing else. */
  ghost predicate Indexed(byHandler: Index, groups: seq<Group>, handlers: seq<Handler>) {
    && |groups| == |handlers|
    && (forall h :: Lookup(byHandler, h).Some? ==> h in handlers)
    && (forall i | 0 <= i < |handlers| :: Lookup(byHandler, handlers[i]) == Some(groups[i].subscriptions))
  }

  ghost predicate IsKeyAt(key: string, i: nat) {
    exists l: Listener :: key == Key(l, i)
  }

  /** The maps of the loop, after some subscriptions. */
  ghost predicate Loop(byHandler: Index, grouped: seq<Group>, listeners: seq<Listener>)
    reads set g <- grouped :: g.subscriptions
  {
    && Grouped(grouped, listeners) && Indexed(byHandler, grouped, HandlersOf(listeners))
    && forall i | 0 <= i < |grouped| :: IsKeyAt(grouped[i].key, i)
  }

  lemma OneMore(listeners: seq<Listener>, listener: Listener, h: Handler)
    ensures SubscriptionsOf(listeners + [listener], h)
            == if listener.Target() == h then SubscriptionsOf(listeners, h) + [listener] else SubscriptionsOf(listeners, h)
    ensures HandlersOf(listeners + [listener])
            == if listener.Target() in HandlersOf(listeners) then HandlersOf(listeners) else HandlersOf(listeners) + [listener.Target()]
  {
    assert (listeners + [listener])[..|listeners|] == listeners;
  }

  lemma GroupGrows(listeners: seq<Listener>, listener: Listener, k: nat)
    requires k < |HandlersOf(listeners)| && HandlersOf(listeners)[k] == listener.Target()
    ensures HandlersOf(listeners + [listener]) == HandlersOf(listeners)
    ensures var groups := GroupsOf(listeners, HandlersOf(listeners));
            GroupsOf(listeners + [listener], HandlersOf(listeners)) == groups[k := groups[k] + [listener]]
  {
    hide SubscriptionsOf, HandlersOf;
    var handlers := HandlersOf(listeners);
    HandlersAreDistinct(listeners);
    OneMore(listeners, listener, listener.Target());
    forall i | 0 <= i < |handlers|
      ensures GroupsOf(listeners + [listener], handlers)[i]
              == GroupsOf(listeners, handlers)[k := GroupsOf(listeners, handlers)[k] + [listener]][i]
    {
      OneMore(listeners, listener, handlers[i]);
    }
  }

  lemma GroupAppears(listeners: seq<Listener>, listener: Listener)
    requires listener.Target() !in HandlersOf(listeners)
    ensures var handlers := HandlersOf(listeners) + [listener.Target()];
            && HandlersOf(listeners + [listener]) == handlers
            && GroupsOf(listeners + [listener], handlers) == GroupsOf(listeners, HandlersOf(listeners)) + [[listener]]
  {
    hide SubscriptionsOf, HandlersOf;
    var handlers := HandlersOf(listeners);
    NothingSubscribed(listeners, listener.Target());
    OneMore(listeners, listener, listener.Target());
    forall i | 0 <= i <= |handlers|
      ensures GroupsOf(listeners + [listener], handlers + [listener.Target()])[i]
              == (GroupsOf(listeners, handlers) + [[listener]])[i]
    {
      OneMore(listeners, listener, (handlers + [listener.Target()])[i]);
      assert i < |handlers| ==> handlers[i] in handlers;
    }
  }

  /** A handler met before: its list grows, and both ways to it see that. */
  method Push(byHandler: Index, ghost grouped: seq<Group>, ghost listeners: seq<Listener>, listener: Listener)
    requires Loop(byHandler, grouped, listeners) && Lookup(byHandler, listener.Target()).Some?
    modifies byHandler[listener.instance][listener.handler]
    ensures Loop(byHandler, grouped, listeners + [listener])
  {
    hide SubscriptionsOf, HandlersOf, IsKeyAt, GroupsOf;
    ghost var handlers, lists := HandlersOf(listeners), Lists(grouped);
    ghost var k :| 0 <= k < |handlers| && handlers[k] == listener.Target();
    GroupGrows(listeners, listener, k);
    var existing := byHandler[listener.instance][listener.handler];
    existing.items := existing.items + [listener];
    assert Lists(grouped) == lists[k := lists[k] + [listener]];
  }

  /** A handler met for the first time. */
  lemma Meet(byHandler: Index, grouped: seq<Group>, listeners: seq<Listener>, listener: Listener,
             subscriptions: Subscriptions, perInstance: map<string, Subscriptions>)
    requires Loop(byHandler, grouped, listeners) && subscriptions.items == [listener]
    requires perInstance == (if listener.instance in byHandler then byHandler[listener.instance] else map[])
    requires listener.handler !in perInstance && forall g <- grouped :: g.subscriptions != subscriptions
    ensures Loop(byHandler[listener.instance := perInstance[listener.handler := subscriptions]],
                 Set(grouped, Key(listener, |grouped|), subscriptions), listeners + [listener])
    ensures Set(grouped, Key(listener, |grouped|), subscriptions) == grouped + [Group(key := Key(listener, |grouped|), subscriptions := subscriptions)]
  {
    hide *;
    var group := Group(Key(listener, |grouped|), subscriptions);
    KeyIsNew(byHandler, grouped, listeners, listener);
    SetAppends(grouped, group.key, subscriptions);
    LoopMore(byHandler, grouped, listeners, listener, group, perInstance);
  }

  lemma LoopMore(byHandler: Index, grouped: seq<Group>, listeners: seq<Listener>, listener: Listener, group: Group,
                 perInstance: map<string, Subscriptions>)
    requires Loop(byHandler, grouped, listeners) && group.key == Key(listener, |grouped|) && group.subscriptions.items == [listener]
    requires perInstance == (if listener.instance in byHandler then byHandler[listener.instance] else map[])
    requires listener.handler !in perInstance && forall g <- grouped :: g.key != group.key && g.subscriptions != group.subscriptions
    ensures Loop(byHandler[listener.instance := perInstance[listener.handler := group.subscriptions]], grouped + [group], listeners + [listener])
  {
    hide SubscriptionsOf, HandlersOf, Key, IsKeyAt, GroupsOf, Separate, Lists, Indexed;
    NeverLookedUp(byHandler, grouped, HandlersOf(listeners), listener.Target());
    GroupAppears(listeners, listener);
    IndexMore(byHandler, grouped, HandlersOf(listeners), listener, group, perInstance);
    NewKeyAt(listener, |grouped|);
    ListsMore(grouped, group);
  }

  lemma ListsMore(grouped: seq<Group>, group: Group)
    requires Separate(grouped) && forall g <- grouped :: g.key != group.key && g.subscriptions != group.subscriptions
    ensures Separate(grouped + [group]) && Lists(grouped + [group]) == Lists(grouped) + [group.subscriptions.items]
  {
    assert forall i | 0 <= i < |grouped| :: grouped[i] in grouped;
  }

  lemma NeverLookedUp(byHandler: Index, grouped: seq<Group>, handlers: seq<Handler>, h: Handler)
    requires Indexed(byHandler, grouped, handlers) && Lookup(byHandler, h).None?
    ensures h !in handlers
  {
  }

  lemma NewKeyAt(l: Listener, i: nat)
    ensures IsKeyAt(Key(l, i), i)
  {
  }

  lemma IndexMore(byHandler: Index, grouped: seq<Group>, handlers: seq<Handler>, listener: Listener, group: Group,
                  perInstance: map<string, Subscriptions>)
    requires Indexed(byHandler, grouped, handlers)
    requires perInstance == (if listener.instance in byHandler then byHandler[listener.instance] else map[])
    requires listener.Target() !in handlers
    ensures Indexed(byHandler[listener.instance := perInstance[listener.handler := group.subscriptions]],
                    grouped + [group], handlers + [listener.Target()])
  {
    var byHandler' := byHandler[listener.instance := perInstance[listener.handler := group.subscriptions]];
    forall h ensures Lookup(byHandler', h) == if h == listener.Target() then Some(group.subscriptions) else Lookup(byHandler, h) {
    }
    forall i | 0 <= i < |handlers| ensures handlers[i] != listener.Target() {
      assert handlers[i] in handlers;
    }
  }

  lemma KeyIsNew(byHandler: Index, grouped: seq<Group>, listeners: seq<Listener>, listener: Listener)
    requires Loop(byHandler, grouped, listeners)
    ensures forall g <- grouped :: g.key != Key(listener, |grouped|)
  {
    forall i | 0 <= i < |grouped| ensures grouped[i].key != Key(listener, |grouped|) {
      assert IsKeyAt(grouped[i].key, i);
      var l: Listener :| grouped[i].key == Key(l, i);
      if grouped[i].key == Key(listener, |grouped|) { KeysDiffer(l, listener, i, |grouped|); }
    }
  }

  lemma {:induction false} NothingSubscribed(listeners: seq<Listener>, h: Handler)
    requires h !in HandlersOf(listeners)
    ensures SubscriptionsOf(listeners, h) == []
  {
    if listeners != [] {
      NothingSubscribed(listeners[..|listeners| - 1], h);
    }
  }

  method GroupByHandler(listeners: seq<Listener>) returns (grouped: seq<Group>)
    ensures Grouped(grouped, listeners)
    ensures fresh(set g <- grouped :: g.subscriptions)
  {
    var byHandler: Index := map[];
    grouped := [];
    for n := 0 to |listeners|
      invariant Loop(byHandler, grouped, listeners[..n])
      invariant fresh(set g <- grouped :: g.subscriptions)
    {
      var listener := listeners[n];
      assert listeners[..n + 1] == listeners[..n] + [listener];
      var perInstance := if listener.instance in byHandler then byHandler[listener.instance] else map[];
      if listener.handler in perInstance {
        InLists(byHandler, grouped, listeners[..n], listener);
        Push(byHandler, grouped, listeners[..n], listener);
      } else {
        var subscriptions := new Subscriptions(listener);
        Meet(byHandler, grouped, listeners[..n], listener, subscriptions, perInstance);
        byHandler := byHandler[listener.instance := perInstance[listener.handler := subscriptions]];
        grouped := Set(grouped, Key(listener, |grouped|), subscriptions);
      }
    }
    assert listeners[..|listeners|] == listeners;
  }

  lemma InLists(byHandler: Index, grouped: seq<Group>, listeners: seq<Listener>, listener: Listener)
    requires Loop(byHandler, grouped, listeners) && Lookup(byHandler, listener.Target()).Some?
    ensures byHandler[listener.instance][listener.handler] in set g <- grouped :: g.subscriptions
  {
    var handlers := HandlersOf(listeners);
    var k :| 0 <= k < |handlers| && handlers[k] == listener.Target();
    assert grouped[k] in grouped;
  }

  // ---- Wrapping ----

  /** What a wrapper files its profiles under: the event, or all of them. */
  function EventNames(subscriptions: seq<Listener>): string {
    if subscriptions == [] then ""
    else if |subscriptions| == 1 then subscriptions[0].event
    else EventNames(subscriptions[..|subscriptions| - 1]) + ", " + subscriptions[|subscriptions| - 1].event
  }

  /** `join(', ')`. */
  function Joined(names: seq<string>): string {
    if names == [] then "" else if |names| == 1 then names[0] else names[0] + ", " + Joined(names[1..])
  }

  lemma {:induction false} JoinedFurther(names: seq<string>, name: string)
    ensures Joined(names + [name]) == if names == [] then name else Joined(names) + ", " + name
  {
    if |names| > 1 {
      assert (names + [name])[1..] == names[1..] + [name];
      JoinedFurther(names[1..], name);
      Associates(names[0] + ", ", Joined(names[1..]), ", " + name);
      Associates(Joined(names[1..]), ", ", name);
      Associates(names[0] + ", " + Joined(names[1..]), ", ", name);
    } else if |names| == 1 {
      assert (names + [name])[1..] == [name];
    }
  }

  lemma Associates(a: string, b: string, c: string)
    ensures a + (b + c) == (a + b) + c
  {
  }

  /** A wrapper files its profiles under the events of its handler, in order, a comma and a space between. */
  lemma {:induction false} EventNamesAreJoined(subscriptions: seq<Listener>)
    ensures EventNames(subscriptions) == Joined(seq(|subscriptions|, i requires 0 <= i < |subscriptions| => subscriptions[i].event))
  {
    if subscriptions != [] {
      var n := |subscriptions| - 1;
      var names := seq(|subscriptions|, i requires 0 <= i < |subscriptions| => subscriptions[i].event);
      var before := seq(n, i requires 0 <= i < n => subscriptions[..n][i].event);
      EventNamesAreJoined(subscriptions[..n]);
      assert names == before + [subscriptions[n].event];
      JoinedFurther(before, subscriptions[n].event);
    }
  }

  function TargetsOf(groups: seq<seq<Listener>>): (targets: seq<Patching.Target<Handler, string>>)
    requires forall g <- groups :: g != []
  {
    seq(|groups|, i requires 0 <= i < |groups| =>
      assert groups[i] in groups;
      Patching.Target(groups[i][0].Target(), EventNames(groups[i])))
  }

  /** The methods of the providers. */
  class Providers {
    var methods: map<Handler, Patching.Fn<string>>

    constructor (names: set<Handler>)
      ensures methods == Patching.Init<Handler, string>(names).slots
    {
      methods := map k | k in names :: Patching.Original;
    }
  }

  class ListenerWrapper {
    const id: Patching.Id
    var restorers: seq<Patching.Restorer<Handler, string>>

    constructor (id: Patching.Id)
      ensures this.id == id && restorers == []
    {
      this.id, restorers := id, [];
    }

    ghost function View(providers: Providers): Patching.State<Handler, string>
      reads this, providers
    {
      Patching.State(providers.methods, map[id := restorers])
    }

    /** `wrapListener`: not a method, or wrapped already, and nothing happens. */
    method WrapListener(providers: Providers, subscriptions: seq<Listener>)
      requires subscriptions != []
      modifies this`restorers, providers
      ensures var target := Patching.Target(subscriptions[0].Target(), EventNames(subscriptions));
              View(providers) == Patching.Patch(old(View(providers)), id, target)
    {
      var slot := subscriptions[0].Target();
      if slot !in providers.methods || providers.methods[slot].Wrapper? { return; }
      var current := providers.methods[slot];
      var names := JoinEvents(subscriptions);
      providers.methods := providers.methods[slot := Patching.Wrapper(id, names, current)];
      restorers := restorers + [Patching.Restorer(slot, current)];
    }

    static method JoinEvents(subscriptions: seq<Listener>) returns (names: string)
      requires subscriptions != []
      ensures names == EventNames(subscriptions)
    {
      names := subscriptions[0].event;
      for i := 1 to |subscriptions|
        invariant names == EventNames(subscriptions[..i])
      {
        assert subscriptions[..i + 1][..i] == subscriptions[..i];
        names := names + ", " + subscriptions[i].event;
      }
      assert subscriptions[..|subscriptions|] == subscriptions;
    }

    /** Every handler subscribed is wrapped, once, under all of its events. */
    method OnApplicationBootstrap(providers: Providers, listeners: seq<Listener>)
      modifies this`restorers, providers
      ensures var groups := GroupsOf(listeners, HandlersOf(listeners));
              && (forall g <- groups :: g != [])
              && View(providers) == Patching.Step(old(View(providers)), Patching.Install(id, TargetsOf(groups)))
    {
      var grouped := GroupByHandler(listeners);
      ghost var groups, before := Lists(grouped), View(providers);
      GroupsAreNotEmpty(listeners);
      ghost var targets := TargetsOf(groups);
      assert targets[0..] == targets;
      for i := 0 to |grouped|
        invariant Lists(grouped) == groups
        invariant Patching.PatchAll(View(providers), id, targets[i..]) == Patching.PatchAll(before, id, targets)
      {
        assert targets[i..][1..] == targets[i + 1..] && grouped[i].subscriptions.items == groups[i] && groups[i] in groups;
        WrapListener(providers, grouped[i].subscriptions.items);
      }
      assert targets[|grouped|..] == [];
    }

    /** Puts back, in order, every method this service wrapped. */
    method OnModuleDestroy(providers: Providers)
      modifies this, providers
      ensures View(providers) == Patching.Step(old(View(providers)), Patching.Uninstall(id))
    {
      ghost var methods := providers.methods;
      assert restorers[0..] == restorers;
      for i := 0 to |restorers|
        invariant restorers == old(restorers)
        invariant Patching.RestoreAll(providers.methods, restorers[i..]) == Patching.RestoreAll(methods, restorers)
      {
        assert restorers[i..][1..] == restorers[i + 1..];
        providers.methods := providers.methods[restorers[i].slot := restorers[i].previous];
      }
      assert restorers[|restorers|..] == [];
      restorers := [];
    }
  }

  lemma GroupsAreNotEmpty(listeners: seq<Listener>)
    ensures forall g <- GroupsOf(listeners, HandlersOf(listeners)) :: g != []
  {
    GroupsPartition(listeners);
  }

  /** From untouched providers, bootstrap wraps exactly the handlers subscribed, each naming all of its events. */
  lemma BootstrapWrapsEachHandler(methods: set<Handler>, listeners: seq<Listener>, id: Patching.Id, h: Handler)
    requires h in methods
    ensures var groups := GroupsOf(listeners, HandlersOf(listeners));
            && (forall g <- groups :: g != [])
            && var slots := Patching.Run(methods, [Patching.Install(id, TargetsOf(groups))]).slots;
               && h in slots
               && slots[h] == if h in HandlersOf(listeners)
                              then Patching.Wrapper(id, EventNames(SubscriptionsOf(listeners, h)), Patching.Original)
                              else Patching.Original
  {
    var handlers := HandlersOf(listeners);
    var groups := GroupsOf(listeners, handlers);
    GroupsAreNotEmpty(listeners);
    GroupsPartition(listeners);
    HandlersAreDistinct(listeners);
    var targets := TargetsOf(groups);
    forall i | 0 <= i < |targets| ensures targets[i] == Patching.Target(handlers[i], EventNames(SubscriptionsOf(listeners, handlers[i]))) {
      assert handlers[i] in handlers && groups[i][0] in groups[i];
    }
    var es := [Patching.Install(id, targets)];
    assert es[..0] == [];
    Patching.RunsRealiseHolds(methods, es);
    Patching.TakesAll(methods, map[], id, targets, h);
    assert Patching.Held(methods, es) == Patching.Take(methods, map[], id, targets);
  }
}
