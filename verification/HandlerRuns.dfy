/**
 * What holds of every run of wrapped handlers, whatever their nesting and interleaving: each one is
 * finalised and persisted exactly once, passes its handler's outcome through, and records into a
 * profile that depends on nothing but its own steps.
 */
module HandlerRuns {
  import opened Options
  import opened HandlerSpec

  // ---- What happened to one context, read off the run ----

  /** `ended` and `resolved` are the first answers of the handler, `stored` how storing went; `entries` what was recorded in its context. */
  datatype Story = Story(ended: Option<Called>, resolved: Option<Outcome>, stored: Option<bool>, entries: seq<string>)

  function Untold(): Story {
    Story(None, None, None, [])
  }

  /** One more event of the context. What a handler cannot do a second time is not heard. */
  function Hear(story: Story, e: Event): Story {
    match e
    case End(_, called) => if story.ended.None? then story.(ended := Some(called)) else story
    case Resolve(_, o) =>
      if story.ended == Some(Thenable) && story.resolved.None? then story.(resolved := Some(o)) else story
    case Persisted(_, stored) => if story.resolved.Some? && story.stored.None? then story.(stored := Some(stored)) else story
    case Record(_, entry) => story.(entries := story.entries + [entry])
    case _ => story
  }

  /** Nothing resolves before a promise was handed back, and nothing is stored before that. */
  predicate IsInOrder(story: Story) {
    (story.ended != Some(Thenable) ==> story.resolved.None?) && (story.stored.Some? ==> story.resolved.Some?)
  }

  predicate Concerns(e: Event, x: nat) {
    match e
    case End(y, _) => y == x
    case Resolve(y, _) => y == x
    case Persisted(y, _) => y == x
    case Record(y, _) => y == x
    case SetKey(y, _, _) => y == x
    case _ => false
  }

  /** The story of context `x`: its own events since it was opened, and no others. */
  function StoryOf(es: seq<Event>, x: nat): Story {
    if es == [] then Untold() else
    var before, e := es[..|es| - 1], es[|es| - 1];
    if Concerns(e, x) && x < |Run(before).contexts| then Hear(StoryOf(before, x), e) else StoryOf(before, x)
  }

  /** The handler's own outcome, as soon as it has one. */
  function OutcomeOf(story: Story): Option<Outcome> {
    match story.ended
    case None => None
    case Some(Ended(o)) => Some(o)
    case Some(Thenable) => story.resolved
  }

  // ---- What the wrapper must have made of it ----

  function PhaseOf(story: Story): Phase {
    match story.ended
    case None => Running
    case Some(Ended(o)) => Returned(o)
    case Some(Thenable) =>
      if story.resolved.None? then Awaiting
      else if story.stored.Some? then Settled(story.resolved.value) else Storing(story.resolved.value)
  }

  /** A failed handler's profile says so and holds its error; any other says it succeeded. */
  function ProfileOf(traceId: TraceId, meta: Meta, story: Story): Profile {
    match OutcomeOf(story)
    case None => Profile(traceId, Some(meta), true, None, [], story.entries)
    case Some(Value(_)) => Profile(traceId, Some(meta), true, Some(200), [], story.entries)
    case Some(Failure(error)) => Profile(traceId, Some(meta), false, Some(500), [error], story.entries)
  }

  /** The whole protocol of one wrapper: finalised, then persisted, once each, around the handler's own outcome. */
  function ProtocolOf(x: nat, story: Story): seq<Action> {
    match story.ended
    case None => []
    case Some(Ended(o)) => [Finalize(x, o.Failure?), Persist(x), Return(x, o)]
    case Some(Thenable) =>
      [ReturnPromise(x)]
      + (if story.resolved.None? then [] else [Finalize(x, story.resolved.value.Failure?), Persist(x)])
      + (if story.resolved.Some? && story.stored.Some? then AnswerActions(x, story.resolved.value, story.stored.value) else [])
  }

  function ActionsOf(trail: seq<Action>, x: nat): seq<Action> {
    if trail == [] then [] else
    var last := trail[|trail| - 1];
    ActionsOf(trail[..|trail| - 1], x) + if last.x == x then [last] else []
  }

  lemma {:induction false} ActionsOfConcat(a: seq<Action>, b: seq<Action>, x: nat)
    ensures ActionsOf(a + b, x) == ActionsOf(a, x) + ActionsOf(b, x)
  {
    if b == [] {
      assert a + b == a;
    } else {
      var n := |b| - 1;
      assert (a + b)[..|a| + n] == a + b[..n];
      ActionsOfConcat(a, b[..n], x);
    }
  }

  /** The trail of a step of context `x`: those actions for `x`, none for any other. */
  lemma ActionsOfStep(trail: seq<Action>, actions: seq<Action>, x: nat, y: nat)
    requires |actions| <= 3 && forall a <- actions :: a.x == x
    ensures ActionsOf(trail + actions, y) == ActionsOf(trail, y) + if x == y then actions else []
  {
    ActionsOfConcat(trail, actions, y);
    OneOwner(actions, x, y);
  }

  lemma {:induction false} OneOwner(actions: seq<Action>, x: nat, y: nat)
    requires forall a <- actions :: a.x == x
    ensures ActionsOf(actions, y) == if x == y then actions else []
  {
    if actions != [] {
      var n := |actions| - 1;
      OneOwner(actions[..n], x, y);
      assert actions[..n] + [actions[n]] == actions;
    }
  }

  // ---- One step of one context ----

  /** The state of context `x` is what its story says. */
  ghost predicate Tells(s: State, x: nat, story: Story)
    requires x < |s.contexts|
  {
    var c := s.contexts[x];
    c.profile.meta.Some? ==>
      && IsInOrder(story)
      && c.phase == PhaseOf(story)
      && c.profile == ProfileOf(c.profile.traceId, c.profile.meta.value, story)
      && ActionsOf(s.trail, x) == ProtocolOf(x, story)
  }

  ghost predicate HandlersHaveMeta(s: State) {
    forall x | 0 <= x < |s.contexts| :: s.contexts[x].profile.meta.None? <==> s.contexts[x].phase.NotAHandler?
  }

  /** Actions only ever name contexts that are open. */
  ghost predicate TrailIsOpen(s: State) {
    forall a <- s.trail :: a.x < |s.contexts|
  }

  /** An event of another context changes nothing of this one. */
  lemma StepIsolates(s: State, e: Event, x: nat)
    requires x < |s.contexts| && !Concerns(e, x)
    ensures x < |Step(s, e).contexts| && Step(s, e).contexts[x] == s.contexts[x]
    ensures ActionsOf(Step(s, e).trail, x) == ActionsOf(s.trail, x)
  {
    if Possible(s, e) {
      match e
      case End(y, Thenable) => ActionsOfStep(s.trail, [ReturnPromise(y)], y, x);
      case End(y, Ended(o)) => ActionsOfStep(s.trail, [FinalizeAction(y, o), Persist(y), Return(y, o)], y, x);
      case Resolve(y, o) => ActionsOfStep(s.trail, [FinalizeAction(y, o), Persist(y)], y, x);
      case Persisted(y, stored) => ActionsOfStep(s.trail, AnswerActions(y, s.contexts[y].phase.outcome, stored), y, x);
      case _ =>
    }
  }

  lemma StepHears(s: State, e: Event, x: nat, story: Story)
    requires x < |s.contexts| && Concerns(e, x) && Tells(s, x, story) && HandlersHaveMeta(s)
    requires s.contexts[x].profile.meta.Some? ==> s.contexts[x].store.profiler.Some?
    ensures x < |Step(s, e).contexts| && Tells(Step(s, e), x, Hear(story, e))
  {
    hide ActionsOf;
    if s.contexts[x].profile.meta.Some? {
      match e
      case End(_, called) => EndHears(s, x, called, story);
      case Resolve(_, o) => ResolveHears(s, x, o, story);
      case Persisted(_, stored) => PersistedHears(s, x, stored, story);
      case Record(_, _) =>
      case SetKey(_, _, _) =>
    }
  }

  lemma EndHears(s: State, x: nat, called: Called, story: Story)
    requires x < |s.contexts| && s.contexts[x].profile.meta.Some? && Tells(s, x, story)
    ensures Tells(Step(s, End(x, called)), x, Hear(story, End(x, called)))
  {
    hide ActionsOf;
    if s.contexts[x].phase.Running? {
      match called
      case Thenable =>
        ActionsOfStep(s.trail, [ReturnPromise(x)], x, x);
        assert ProtocolOf(x, Hear(story, End(x, called))) == [ReturnPromise(x)];
      case Ended(o) => ActionsOfStep(s.trail, [FinalizeAction(x, o), Persist(x), Return(x, o)], x, x);
    }
  }

  lemma ResolveHears(s: State, x: nat, o: Outcome, story: Story)
    requires x < |s.contexts| && s.contexts[x].profile.meta.Some? && Tells(s, x, story)
    ensures Tells(Step(s, Resolve(x, o)), x, Hear(story, Resolve(x, o)))
  {
    hide ActionsOf;
    if s.contexts[x].phase.Awaiting? {
      ActionsOfStep(s.trail, [FinalizeAction(x, o), Persist(x)], x, x);
      assert ProtocolOf(x, Hear(story, Resolve(x, o))) == ProtocolOf(x, story) + [FinalizeAction(x, o), Persist(x)];
    }
  }

  lemma PersistedHears(s: State, x: nat, stored: bool, story: Story)
    requires x < |s.contexts| && s.contexts[x].profile.meta.Some? && Tells(s, x, story)
    ensures Tells(Step(s, Persisted(x, stored)), x, Hear(story, Persisted(x, stored)))
  {
    hide ActionsOf;
    if s.contexts[x].phase.Storing? {
      ActionsOfStep(s.trail, AnswerActions(x, s.contexts[x].phase.outcome, stored), x, x);
    }
  }

  // ---- Whole runs ----

  /** Contexts, their profiles and the branches of their stores are named alike, and are never exchanged. */
  ghost predicate OwnBranches(s: State) {
    && HandlersHaveMeta(s) && TrailIsOpen(s)
    && forall x | 0 <= x < |s.contexts| :: OwnBranch(s.contexts[x], x)
  }

  ghost predicate OwnBranch(c: Context, x: nat) {
    && (c.store.profiler.Some? ==> c.store.profiler.value.token == x && c.store.profiler.value.traceId == c.profile.traceId)
    && (c.profile.meta.Some? ==> c.store.profiler.Some?)
  }

  lemma StepKeepsBranches(s: State, e: Event)
    requires OwnBranches(s)
    ensures OwnBranches(Step(s, e)) && |s.contexts| <= |Step(s, e).contexts|
  {
    StepKeepsTrail(s, e);
    hide TrailIsOpen;
  }

  lemma StepKeepsTrail(s: State, e: Event)
    requires TrailIsOpen(s)
    ensures TrailIsOpen(Step(s, e))
  {
  }

  lemma {:induction false} RunKeepsBranches(es: seq<Event>)
    ensures OwnBranches(Run(es))
  {
    if es != [] {
      RunKeepsBranches(es[..|es| - 1]);
      StepKeepsBranches(Run(es[..|es| - 1]), es[|es| - 1]);
    }
  }

  lemma {:induction false} NoActionsYet(trail: seq<Action>, x: nat)
    requires forall a <- trail :: a.x != x
    ensures ActionsOf(trail, x) == []
  {
    if trail != [] {
      NoActionsYet(trail[..|trail| - 1], x);
    }
  }

  lemma {:induction false} UnopenedIsUntold(es: seq<Event>, x: nat)
    requires x >= |Run(es).contexts|
    ensures StoryOf(es, x) == Untold()
  {
    if es != [] {
      var before := es[..|es| - 1];
      RunKeepsBranches(before);
      StepKeepsBranches(Run(before), es[|es| - 1]);
      UnopenedIsUntold(before, x);
    }
  }

  lemma OpeningTells(s: State, e: Event)
    requires OwnBranches(s) && |Step(s, e).contexts| > |s.contexts|
    ensures |Step(s, e).contexts| == |s.contexts| + 1 && Tells(Step(s, e), |s.contexts|, Untold())
  {
    NoActionsYet(s.trail, |s.contexts|);
  }

  lemma {:induction false} RunsTellStories(es: seq<Event>, x: nat)
    requires x < |Run(es).contexts|
    ensures Tells(Run(es), x, StoryOf(es, x))
  {
    var before, e := es[..|es| - 1], es[|es| - 1];
    RunKeepsBranches(before);
    if x < |Run(before).contexts| {
      RunsTellStories(before, x);
      if Concerns(e, x) {
        StepHears(Run(before), e, x, StoryOf(before, x));
      } else {
        StepIsolates(Run(before), e, x);
      }
    } else {
      UnopenedIsUntold(before, x);
      OpeningTells(Run(before), e);
    }
  }

  // ---- Exactly once ----

  lemma {:induction false} CountsOf(trail: seq<Action>, x: nat, a: Action)
    requires a.x == x
    ensures multiset(trail)[a] == multiset(ActionsOf(trail, x))[a]
  {
    if trail != [] {
      var n := |trail| - 1;
      CountsOf(trail[..n], x, a);
      assert trail == trail[..n] + [trail[n]];
    }
  }

  lemma {:induction false} HappensInOrder(trail: seq<Action>, a: Action)
    ensures a in trail <==> a in ActionsOf(trail, a.x)
  {
    if trail != [] {
      var n := |trail| - 1;
      HappensInOrder(trail[..n], a);
      assert trail == trail[..n] + [trail[n]];
    }
  }

  lemma {:induction false} OrderOf(trail: seq<Action>, x: nat, a: Action, b: Action, i: nat)
    requires a.x == x && i < |trail| && trail[i] == b && b.x == x
    requires forall k | 0 <= k < |ActionsOf(trail, x)| && ActionsOf(trail, x)[k] == b :: a in ActionsOf(trail, x)[..k]
    ensures exists j :: 0 <= j < i && trail[j] == a
  {
    var n := |trail| - 1;
    var before := ActionsOf(trail[..n], x);
    if i == n {
      assert ActionsOf(trail, x) == before + [b];
      assert ActionsOf(trail, x)[|before|] == b && ActionsOf(trail, x)[..|before|] == before;
      HappensInOrder(trail[..n], a);
      var j :| 0 <= j < n && trail[..n][j] == a;
    } else {
      forall k | 0 <= k < |before| && before[k] == b ensures a in before[..k] {
        assert ActionsOf(trail, x)[k] == b && ActionsOf(trail, x)[..k] == before[..k];
      }
      OrderOf(trail[..n], x, a, b, i);
      var j :| 0 <= j < i && trail[..n][j] == a;
      assert trail[j] == a;
    }
  }

  /**
   * Once a handler's outcome is known its profile has been finalised once, as what it was, and its
   * persistence requested once, after that; before, neither has happened.
   */
  lemma FinalizedThenPersistedOnce(es: seq<Event>, x: nat)
    requires x < |Run(es).contexts| && Run(es).contexts[x].profile.meta.Some?
    ensures var trail, outcome := Run(es).trail, OutcomeOf(StoryOf(es, x));
            && multiset(trail)[Persist(x)] == (if outcome.Some? then 1 else 0)
            && multiset(trail)[Finalize(x, true)] == (if outcome.Some? && outcome.value.Failure? then 1 else 0)
            && multiset(trail)[Finalize(x, false)] == (if outcome.Some? && outcome.value.Value? then 1 else 0)
            && forall i | 0 <= i < |trail| && trail[i] == Persist(x) ::
                 exists j :: 0 <= j < i && trail[j] == Finalize(x, outcome.Some? && outcome.value.Failure?)
  {
    var trail, story := Run(es).trail, StoryOf(es, x);
    RunsTellStories(es, x);
    CountsOf(trail, x, Persist(x));
    CountsOf(trail, x, Finalize(x, true));
    CountsOf(trail, x, Finalize(x, false));
    ProtocolCounts(x, story);
    PersistFollows(trail, x, story);
  }

  lemma ProtocolCounts(x: nat, story: Story)
    requires IsInOrder(story)
    ensures var actions, outcome := multiset(ProtocolOf(x, story)), OutcomeOf(story);
            && actions[Persist(x)] == (if outcome.Some? then 1 else 0)
            && actions[Finalize(x, true)] == (if outcome.Some? && outcome.value.Failure? then 1 else 0)
            && actions[Finalize(x, false)] == (if outcome.Some? && outcome.value.Value? then 1 else 0)
  {
    if story.ended == Some(Thenable) && story.resolved.Some? {
      var o := story.resolved.value;
      var after := if story.stored.Some? then AnswerActions(x, o, story.stored.value) else [];
      OnlyAnswers(x, o, story.stored);
      assert ProtocolOf(x, story) == [ReturnPromise(x)] + [Finalize(x, o.Failure?), Persist(x)] + after;
      hide *;
      PromiseCounts(x, o.Failure?, after);
    }
  }

  lemma PromiseCounts(x: nat, failed: bool, after: seq<Action>)
    requires multiset(after)[Persist(x)] == multiset(after)[Finalize(x, true)] == multiset(after)[Finalize(x, false)] == 0
    ensures var actions := multiset([ReturnPromise(x)] + [Finalize(x, failed), Persist(x)] + after);
            && actions[Persist(x)] == 1
            && actions[Finalize(x, true)] == (if failed then 1 else 0)
            && actions[Finalize(x, false)] == (if failed then 0 else 1)
  {
    var first := [ReturnPromise(x)] + [Finalize(x, failed), Persist(x)];
    assert multiset(first + after) == multiset(first) + multiset(after);
    assert first == [ReturnPromise(x), Finalize(x, failed), Persist(x)];
  }

  /** What follows storing neither finalises nor persists. */
  lemma OnlyAnswers(x: nat, o: Outcome, stored: Option<bool>)
    ensures var after := if stored.Some? then AnswerActions(x, o, stored.value) else [];
            multiset(after)[Persist(x)] == multiset(after)[Finalize(x, true)] == multiset(after)[Finalize(x, false)] == 0
  {
  }

  lemma PersistFollows(trail: seq<Action>, x: nat, story: Story)
    requires IsInOrder(story) && ActionsOf(trail, x) == ProtocolOf(x, story)
    ensures var outcome := OutcomeOf(story);
            forall i | 0 <= i < |trail| && trail[i] == Persist(x) ::
              exists j :: 0 <= j < i && trail[j] == Finalize(x, outcome.Some? && outcome.value.Failure?)
  {
    var outcome, protocol := OutcomeOf(story), ProtocolOf(x, story);
    var finalize := Finalize(x, outcome.Some? && outcome.value.Failure?);
    forall k | 0 <= k < |protocol| && protocol[k] == Persist(x) ensures finalize in protocol[..k] {
      var j := if story.ended == Some(Thenable) then 1 else 0;
      assert k == j + 1 && protocol[..k][j] == finalize;
    }
    forall i | 0 <= i < |trail| && trail[i] == Persist(x) ensures exists j :: 0 <= j < i && trail[j] == finalize {
      OrderOf(trail, x, finalize, Persist(x), i);
    }
  }

  function AtOnce(x: nat, o: Outcome): seq<Action> {
    [Finalize(x, o.Failure?), Persist(x), Return(x, o)]
  }

  ghost predicate StandsIn(actions: seq<Action>, trail: seq<Action>) {
    exists i :: StandsAt(actions, trail, i)
  }

  predicate StandsAt(actions: seq<Action>, trail: seq<Action>, i: int) {
    0 <= i <= |trail| - |actions| && trail[i..i + |actions|] == actions
  }

  lemma StandsInLonger(actions: seq<Action>, trail: seq<Action>, more: seq<Action>)
    requires StandsIn(actions, trail)
    ensures StandsIn(actions, trail + more)
  {
    var i :| StandsAt(actions, trail, i);
    assert (trail + more)[i..i + |actions|] == trail[i..i + |actions|];
    assert StandsAt(actions, trail + more, i);
  }

  lemma StandsAtTheEnd(actions: seq<Action>, trail: seq<Action>)
    ensures StandsIn(actions, trail + actions)
  {
    assert StandsAt(actions, trail + actions, |trail|);
  }

  lemma TrailGrows(s: State, e: Event) returns (more: seq<Action>)
    ensures Step(s, e).trail == s.trail + more
  {
    var s' := Step(s, e);
    more := s'.trail[|s.trail|..];
    assert s'.trail == s.trail + more;
  }

  /**
   * In every run a handler that ended at once was finalised, persisted and answered with nothing of any
   * other execution in between, and never handed back a promise: it stayed synchronous.
   */
  lemma {:induction false} SynchronousStaysSynchronous(es: seq<Event>, x: nat, o: Outcome)
    requires x < |Run(es).contexts| && Run(es).contexts[x].profile.meta.Some? && StoryOf(es, x).ended == Some(Ended(o))
    ensures StandsIn(AtOnce(x, o), Run(es).trail) && ActionsOf(Run(es).trail, x) == AtOnce(x, o)
  {
    hide ActionsOf, StandsIn;
    RunsTellStories(es, x);
    var before, e := es[..|es| - 1], es[|es| - 1];
    RunKeepsBranches(before);
    if x >= |Run(before).contexts| {
      UnopenedIsUntold(before, x);
    } else if StoryOf(before, x).ended == Some(Ended(o)) {
      StepKeepsMeta(Run(before), e, x);
      SynchronousStaysSynchronous(before, x, o);
      var more := TrailGrows(Run(before), e);
      StandsInLonger(AtOnce(x, o), Run(before).trail, more);
    } else {
      StepKeepsMeta(Run(before), e, x);
      RunsTellStories(before, x);
      StandsAtTheEnd(AtOnce(x, o), Run(before).trail);
    }
  }

  lemma StepKeepsMeta(s: State, e: Event, x: nat)
    requires x < |s.contexts|
    ensures x < |Step(s, e).contexts| && Step(s, e).contexts[x].profile.meta == s.contexts[x].profile.meta
  {
  }

  /** An answer given is the handler's own outcome; that storing failed is logged, and keeps no answer back. */
  lemma OutcomePassesThrough(es: seq<Event>, x: nat, o: Outcome)
    requires x < |Run(es).contexts| && Run(es).contexts[x].profile.meta.Some?
    ensures var trail, story := Run(es).trail, StoryOf(es, x);
            && (Return(x, o) in trail <==> story.ended == Some(Ended(o)))
            && (Settle(x, o) in trail <==> story.ended == Some(Thenable) && story.resolved == Some(o) && story.stored.Some?)
            && (Warn(x) in trail <==> story.ended == Some(Thenable) && story.stored == Some(false))
            && (ReturnPromise(x) in trail <==> story.ended == Some(Thenable))
  {
    hide ActionsOf, StoryOf, Run, ProtocolOf;
    var trail := Run(es).trail;
    RunsTellStories(es, x);
    HappensInOrder(trail, Return(x, o));
    HappensInOrder(trail, Settle(x, o));
    HappensInOrder(trail, ReturnPromise(x));
    HappensInOrder(trail, Warn(x));
    ProtocolAnswers(x, StoryOf(es, x), o);
  }

  lemma ProtocolAnswers(x: nat, story: Story, o: Outcome)
    requires IsInOrder(story)
    ensures Return(x, o) in ProtocolOf(x, story) <==> story.ended == Some(Ended(o))
    ensures Settle(x, o) in ProtocolOf(x, story) <==> story.ended == Some(Thenable) && story.resolved == Some(o) && story.stored.Some?
    ensures Warn(x) in ProtocolOf(x, story) <==> story.ended == Some(Thenable) && story.stored == Some(false)
    ensures ReturnPromise(x) in ProtocolOf(x, story) <==> story.ended == Some(Thenable)
  {
  }

  // ---- What a handler is called with ----

  /** The branch of the context a handler is called from, if it is called from a profiled one. */
  ghost function BranchFrom(s: State, from: Option<nat>): Option<Branch> {
    if from.Some? && from.value < |s.contexts| then s.contexts[from.value].store.profiler else None
  }

  /**
   * In every run a handler is called in a new context: with every key of the store it is called from,
   * and a branch of its own that carries on that store's trace and the keys beside the profile, or
   * begins a trace; its profile is new; and no context there is changes.
   */
  lemma CallsInherit(es: seq<Event>, from: Option<nat>, meta: Meta, freshTrace: TraceId)
    requires from.Some? ==> from.value < |Run(es).contexts|
    ensures var s, s' := Run(es), Run(es + [Call(from, meta, freshTrace)]);
            var n, parent := |s.contexts|, BranchFrom(s, from);
            && |s'.contexts| == n + 1 && s'.contexts[..n] == s.contexts && s'.trail == s.trail
            && var child := s'.contexts[n];
               && child.parent == from && child.phase == Running
               && child.store.keys == (if from.Some? then s.contexts[from.value].store.keys else map[])
               && child.store.profiler.Some? && child.store.profiler.value.token == n
               && child.store.profiler.value.others == (if parent.Some? then parent.value.others else map[])
               && child.store.profiler.value.traceId == (if parent.Some? then parent.value.traceId else freshTrace)
               && child.profile == Profile(child.store.profiler.value.traceId, Some(meta), true, None, [], [])
  {
    assert (es + [Call(from, meta, freshTrace)])[..|es|] == es;
  }

  /** Some other entry point opens a context with its own keys, and a branch exactly when it is profiled. */
  lemma OpeningsOpen(es: seq<Event>, keys: map<string, string>, traced: Option<TraceId>)
    ensures var s, s' := Run(es), Run(es + [Open(keys, traced)]);
            var n := |s.contexts|;
            && |s'.contexts| == n + 1 && s'.contexts[..n] == s.contexts && s'.trail == s.trail
            && var context := s'.contexts[n];
               && context.parent == None && context.phase == NotAHandler && context.store.keys == keys
               && context.profile.meta == None && context.profile.entries == []
               && (traced.None? ==> context.store.profiler == None)
               && (traced.Some? ==> context.store.profiler == Some(Branch(n, traced.value, map[])) && context.profile.traceId == traced.value)
  {
    assert (es + [Open(keys, traced)])[..|es|] == es;
  }

  /** A key set beside the profile is set in the branch of that context alone. */
  lemma KeysAreSet(es: seq<Event>, c: nat, key: string, value: string)
    requires c < |Run(es).contexts| && Run(es).contexts[c].store.profiler.Some?
    ensures var s, s' := Run(es), Run(es + [SetKey(c, key, value)]);
            && s'.trail == s.trail && |s'.contexts| == |s.contexts|
            && (forall x | 0 <= x < |s.contexts| && x != c :: s'.contexts[x] == s.contexts[x])
            && s'.contexts[c].profile == s.contexts[c].profile && s'.contexts[c].phase == s.contexts[c].phase
            && s'.contexts[c].store.keys == s.contexts[c].store.keys && s'.contexts[c].store.profiler.Some?
            && var was, after := s.contexts[c].store.profiler.value, s'.contexts[c].store.profiler.value;
               after.others == was.others[key := value] && after.token == was.token && after.traceId == was.traceId
  {
    assert (es + [SetKey(c, key, value)])[..|es|] == es;
  }

  // ---- One trace for a whole emission tree ----

  /** Parents are older, and a handler called from a profiled context carries on its trace. */
  ghost predicate Linked(s: State) {
    forall x | 0 <= x < |s.contexts| :: IsLinked(s, x)
  }

  ghost predicate IsLinked(s: State, x: nat)
    requires x < |s.contexts|
  {
    var parent := s.contexts[x].parent;
    parent.Some? ==> parent.value < x && (ContinuesTrace(s, x) ==>
      s.contexts[x].profile.traceId == s.contexts[parent.value].profile.traceId)
  }

  predicate ContinuesTrace(s: State, x: nat)
    requires x < |s.contexts|
  {
    var parent := s.contexts[x].parent;
    parent.Some? && parent.value < |s.contexts| && s.contexts[parent.value].store.profiler.Some?
  }

  /** The outermost profiled execution an execution descends from. */
  function RootOf(s: State, x: nat): (root: nat)
    requires x < |s.contexts| && forall y | 0 <= y < |s.contexts| :: IsLinked(s, y)
    ensures root < |s.contexts|
    decreases x
  {
    assert IsLinked(s, x);
    if ContinuesTrace(s, x) then RootOf(s, s.contexts[x].parent.value) else x
  }

  lemma {:induction false} RunsAreLinked(es: seq<Event>)
    ensures OwnBranches(Run(es)) && Linked(Run(es))
  {
    if es != [] {
      var s := Run(es[..|es| - 1]);
      RunsAreLinked(es[..|es| - 1]);
      StepKeepsBranches(s, es[|es| - 1]);
      StepKeepsLinks(s, es[|es| - 1]);
    }
  }

  lemma StepKeepsLinks(s: State, e: Event)
    requires OwnBranches(s) && Linked(s)
    ensures Linked(Step(s, e))
  {
    hide HandlersHaveMeta, TrailIsOpen;
    var s' := Step(s, e);
    forall x | 0 <= x < |s'.contexts| ensures IsLinked(s', x) {
      if x < |s.contexts| { assert IsLinked(s, x); }
    }
  }

  /** Every execution carries the trace id of the root of its emission tree. */
  lemma {:induction false} TraceIsTheRoots(es: seq<Event>, x: nat)
    requires x < |Run(es).contexts|
    ensures Linked(Run(es)) && Run(es).contexts[x].profile.traceId == Run(es).contexts[RootOf(Run(es), x)].profile.traceId
    decreases x
  {
    var s := Run(es);
    RunsAreLinked(es);
    assert IsLinked(s, x);
    if ContinuesTrace(s, x) {
      TraceIsTheRoots(es, s.contexts[x].parent.value);
    }
  }
}
