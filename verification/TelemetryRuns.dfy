/**
 * What every run of the telemetry keeps, whatever the interleaving: step numbers, the entry an
 * operation's end is folded into, and the tokens an operation accounts for.
 */
module TelemetryRuns {
  import opened Options
  import opened AiEntries
  import opened TelemetrySpec

  // ---- Reading the log, without the telemetry's own bookkeeping ----

  /** Calls an operation completed, according to the log. */
  ghost function CompletedCount<P>(log: seq<Recorded<P>>, k: nat): nat {
    if log == [] then 0 else
    var r := log[|log| - 1];
    CompletedCount(log[..|log| - 1], k) + if r.owner == Some(k) && r.origin.Completed? then 1 else 0
  }

  /** The steps an operation's completed calls carry, in recording order. */
  ghost function CompletedSteps<P>(log: seq<Recorded<P>>, k: nat): seq<nat> {
    if log == [] then [] else
    var r := log[|log| - 1];
    CompletedSteps(log[..|log| - 1], k) + if r.owner == Some(k) && r.origin.Completed? then [StepOf(r.entry)] else []
  }

  ghost predicate IsCallOf<P>(r: Recorded<P>, k: nat) {
    r.owner == Some(k) && r.entry.Call? && !r.origin.Synthesized?
  }

  /** Where the last call (completed or failed) recorded for an operation stands in the log. */
  ghost function LastCallOf<P>(log: seq<Recorded<P>>, k: nat): (i: Option<nat>)
    ensures i.Some? ==> i.value < |log| && IsCallOf(log[i.value], k)
    ensures forall j | 0 <= j < |log| && IsCallOf(log[j], k) :: i.Some? && j <= i.value
  {
    if log == [] then None
    else if IsCallOf(log[|log| - 1], k) then Some(|log| - 1)
    else LastCallOf(log[..|log| - 1], k)
  }

  ghost predicate AllProfiled<P>(es: seq<Event<P>>) {
    forall i | 0 <= i < |es| :: es[i].Profiled()
  }

  lemma {:induction false} SameEntriesRead<P>(log: seq<Recorded<P>>, log': seq<Recorded<P>>, k: nat)
    requires SameEntries(log, log')
    ensures CompletedCount(log, k) == CompletedCount(log', k)
    ensures LastCallOf(log, k) == LastCallOf(log', k)
  {
    if log != [] {
      SameEntriesRead(log[..|log| - 1], log'[..|log| - 1], k);
    }
  }

  // ---- The invariant of a run ----

  ghost predicate Owned<P>(s: State<P>) {
    && (forall i | 0 <= i < |s.log| && s.log[i].owner.Some? ::
          s.log[i].owner.value < |s.ops| && s.log[i].entry.CallId() == s.ops[s.log[i].owner.value].callId)
    && (forall k | 0 <= k < |s.ops| :: s.ops[k].lastCall == LastCallOf(s.log, k))
  }

  lemma {:induction false} NoCallYet<P>(log: seq<Recorded<P>>, k: nat)
    requires forall i | 0 <= i < |log| :: log[i].owner != Some(k)
    ensures LastCallOf(log, k) == None && CompletedCount(log, k) == 0
  {
    if log != [] { NoCallYet(log[..|log| - 1], k); }
  }

  /** `Owned` only reads what identifies an entry, and an operation's call id and last call. */
  lemma SameEntriesKeepOwned<P>(s: State<P>, s': State<P>)
    requires Owned(s) && SameEntries(s.log, s'.log) && |s.ops| == |s'.ops|
    requires forall k | 0 <= k < |s.ops| ::
               s.ops[k].callId == s'.ops[k].callId && s.ops[k].lastCall == s'.ops[k].lastCall
    ensures Owned(s')
  {
    forall k | 0 <= k < |s.ops| ensures LastCallOf(s.log, k) == LastCallOf(s'.log, k) {
      SameEntriesRead(s.log, s'.log, k);
    }
  }

  lemma RecordKeepsOwned<P>(s: State<P>, entry: Entry, profile: Option<P>, owner: Option<nat>, origin: Origin)
    requires WellFormed(s) && Owned(s)
    requires owner.Some? ==> owner.value < |s.ops| && s.ops[owner.value].callId == entry.CallId()
    requires origin.Synthesized? ==> entry.CallId() !in s.live
    requires !origin.Synthesized? ==> owner == OwnerOf(s, entry.CallId())
    ensures Owned(Record(s, entry, profile, owner, origin))
  {
    var s' := Record(s, entry, profile, owner, origin);
    if profile.Some? {
      assert s'.log[..|s'.log| - 1] == s.log;
    }
  }

  lemma StartKeepsOwned<P>(s: State<P>, c: CallId, info: OperationInfo)
    requires WellFormed(s) && Owned(s)
    ensures Owned(OnStart(s, c, info))
  {
    NoCallYet(s.log, |s.ops|);
  }

  lemma EndKeepsOwned<P>(s: State<P>, c: CallId, profile: Option<P>, result: EndEvent)
    requires WellFormed(s) && Owned(s)
    ensures Owned(OnEnd(s, c, profile, result))
  {
    if c in s.live {
      var k, s1 := s.live[c], Remove(s, c);
      SameEntriesKeepOwned(s, s1);
      var op := s.ops[k];
      if op.lastCall.Some? {
        SameEntriesKeepOwned(s, OnEnd(s, c, profile, result));
      } else {
        var call := FoldResult(op.info, op.usageReported, SynthesizedCall(c, op.info, result), result);
        RecordKeepsOwned(s1, Call(call), profile, Some(k), Synthesized);
      }
    }
  }

  lemma CallEndKeepsOwned<P>(s: State<P>, c: CallId, profile: Option<P>, e: CallEndEvent)
    requires WellFormed(s) && Owned(s)
    ensures Owned(OnCallEnd(s, c, profile, e))
  {
    var s1 := CountStep(TakePending(s, c), c, TotalOf(UsageOf(e.usage)) > 0);
    SameEntriesKeepOwned(s, s1);
    var entry := CompletedCall(c, InfoOf(s, c), StepsOf(s, c), PendingOf(s, c), e);
    RecordKeepsOwned(s1, Call(entry), profile, OwnerOf(s, c), Completed);
  }

  lemma ErrorKeepsOwned<P>(s: State<P>, c: CallId, profile: Option<P>, now: int, message: string)
    requires WellFormed(s) && Owned(s)
    ensures Owned(OnError(s, c, profile, now, message))
  {
    var s1 := TakePending(s, c);
    SameEntriesKeepOwned(s, s1);
    var entry := FailedCall(c, InfoOf(s, c), StepsOf(s, c), PendingOf(s, c), now, message);
    RecordKeepsOwned(s1, Call(entry), profile, OwnerOf(s, c), Failed);
  }

  lemma ToolEndKeepsOwned<P>(s: State<P>, c: CallId, profile: Option<P>, tool: string, name: string, start: int,
                             failure: Option<string>)
    requires WellFormed(s) && Owned(s)
    ensures Owned(OnToolEnd(s, c, profile, tool, name, start, failure))
  {
    var s1 := s.(tools := s.tools - {tool});
    SameEntriesKeepOwned(s, s1);
    var startedAt := if tool in s.tools then s.tools[tool] else start;
    RecordKeepsOwned(s1, Tool(ToolEntry(c, tool, name, startedAt, failure)), profile, OwnerOf(s, c), ToolRun);
  }

  lemma SpecSettledKeepsOwned<P>(s: State<P>, k: nat, schema: Option<string>, name: Option<string>)
    requires WellFormed(s) && Owned(s)
    ensures Owned(OnSpecSettled(s, k, schema, name))
  {
    SameEntriesKeepOwned(s, OnSpecSettled(s, k, schema, name));
  }

  lemma StepKeepsOwned<P>(s: State<P>, e: Event<P>)
    requires WellFormed(s) && Owned(s)
    ensures Owned(Step(s, e))
  {
    match e
    case Start(c, info) => StartKeepsOwned(s, c, info);
    case SpecSettled(k, schema, name) => SpecSettledKeepsOwned(s, k, schema, name);
    case CallEnd(c, p, end) => CallEndKeepsOwned(s, c, p, end);
    case ToolEnd(c, p, tool, name, start, failure) => ToolEndKeepsOwned(s, c, p, tool, name, start, failure);
    case Error(c, p, now, message) => ErrorKeepsOwned(s, c, p, now, message);
    case End(c, p, result) => EndKeepsOwned(s, c, p, result);
    case _ => SameEntriesKeepOwned(s, Step(s, e));
  }

  lemma {:induction false} RunsAreOwned<P>(es: seq<Event<P>>)
    ensures Owned(Run(es))
  {
    if es != [] {
      RunsAreOwned(es[..|es| - 1]);
      StepKeepsOwned(Run(es[..|es| - 1]), es[|es| - 1]);
    }
  }

  // ---- Step numbers ----

  ghost predicate Numbered<P>(s: State<P>) {
    && (forall k | 0 <= k < |s.ops| :: s.ops[k].steps == CompletedCount(s.log, k))
    && (forall i | 0 <= i < |s.log| && s.log[i].owner.Some? && (s.log[i].origin.Completed? || s.log[i].origin.Failed?) ::
          StepOf(s.log[i].entry) == CompletedCount(s.log[..i], s.log[i].owner.value))
  }

  lemma SameEntriesKeepNumbered<P>(s: State<P>, s': State<P>)
    requires Numbered(s) && SameEntries(s.log, s'.log) && |s.ops| == |s'.ops|
    requires forall k | 0 <= k < |s.ops| :: s.ops[k].steps == s'.ops[k].steps
    ensures Numbered(s')
  {
    forall k | 0 <= k < |s.ops| ensures CompletedCount(s.log, k) == CompletedCount(s'.log, k) {
      SameEntriesRead(s.log, s'.log, k);
    }
    forall i | 0 <= i < |s.log| && s.log[i].owner.Some?
      ensures CompletedCount(s.log[..i], s.log[i].owner.value) == CompletedCount(s'.log[..i], s.log[i].owner.value)
    {
      SameEntriesRead(s.log[..i], s'.log[..i], s.log[i].owner.value);
    }
  }

  /** Appending one entry, numbered by the completed calls before it, keeps the numbering. */
  lemma AppendKeepsNumbered<P>(s: State<P>, s': State<P>, r: Recorded<P>)
    requires Numbered(s) && s'.log == s.log + [r] && |s.ops| == |s'.ops|
    requires forall k | 0 <= k < |s.ops| ::
               s'.ops[k].steps == s.ops[k].steps + if r.owner == Some(k) && r.origin.Completed? then 1 else 0
    requires r.owner.Some? && (r.origin.Completed? || r.origin.Failed?) ==>
               r.owner.value < |s.ops| && StepOf(r.entry) == s.ops[r.owner.value].steps
    ensures Numbered(s')
  {
    assert s'.log[..|s.log|] == s.log;
    forall i | 0 <= i < |s.log| ensures s'.log[..i] == s.log[..i] {}
  }

  lemma CallEndKeepsNumbered<P>(s: State<P>, c: CallId, profile: P, e: CallEndEvent)
    requires WellFormed(s) && Numbered(s)
    ensures Numbered(OnCallEnd(s, c, Some(profile), e))
  {
    var entry := CompletedCall(c, InfoOf(s, c), StepsOf(s, c), PendingOf(s, c), e);
    assert StepOf(Call(entry)) == StepsOf(s, c);
    CallEndCounts(s, c, profile, e);
    hide OnCallEnd, CompletedCall, CompletedCount, Numbered;
    AppendKeepsNumbered(s, OnCallEnd(s, c, Some(profile), e), Recorded(Call(entry), profile, OwnerOf(s, c), Completed));
  }

  lemma CallEndCounts<P>(s: State<P>, c: CallId, profile: P, e: CallEndEvent)
    requires WellFormed(s)
    ensures var s', entry := OnCallEnd(s, c, Some(profile), e), CompletedCall(c, InfoOf(s, c), StepsOf(s, c), PendingOf(s, c), e);
            && s'.log == s.log + [Recorded(Call(entry), profile, OwnerOf(s, c), Completed)] && |s'.ops| == |s.ops|
            && forall k | 0 <= k < |s.ops| :: s'.ops[k].steps == s.ops[k].steps + if OwnerOf(s, c) == Some(k) then 1 else 0
  {
    var s1 := CountStep(TakePending(s, c), c, TotalOf(UsageOf(e.usage)) > 0);
    CountsAStep(TakePending(s, c), c, TotalOf(UsageOf(e.usage)) > 0);
    hide CompletedCall, CountStep, Record, Extends;
    RecordKeepsSteps(s1, Call(CompletedCall(c, InfoOf(s, c), StepsOf(s, c), PendingOf(s, c), e)), Some(profile), OwnerOf(s, c), Completed);
  }

  lemma CountsAStep<P>(s: State<P>, c: CallId, reported: bool)
    requires WellFormed(s)
    ensures var s' := CountStep(s, c, reported);
            forall k | 0 <= k < |s.ops| :: s'.ops[k].steps == s.ops[k].steps + if OwnerOf(s, c) == Some(k) then 1 else 0
  {
  }

  lemma RecordKeepsSteps<P>(s: State<P>, entry: Entry, profile: Option<P>, owner: Option<nat>, origin: Origin)
    requires WellFormed(s)
    ensures forall k | 0 <= k < |s.ops| :: Record(s, entry, profile, owner, origin).ops[k].steps == s.ops[k].steps
  {
  }

  lemma RecordKeepsNumbered<P>(s: State<P>, entry: Entry, profile: Option<P>, owner: Option<nat>, origin: Origin)
    requires WellFormed(s) && Numbered(s) && !origin.Completed?
    requires origin.Failed? && owner.Some? ==> owner.value < |s.ops| && StepOf(entry) == s.ops[owner.value].steps
    ensures Numbered(Record(s, entry, profile, owner, origin))
  {
    if profile.Some? {
      AppendKeepsNumbered(s, Record(s, entry, profile, owner, origin), Recorded(entry, profile.value, owner, origin));
    }
  }

  lemma EndKeepsNumbered<P>(s: State<P>, c: CallId, profile: Option<P>, result: EndEvent)
    requires WellFormed(s) && Numbered(s)
    ensures Numbered(OnEnd(s, c, profile, result))
  {
    if c in s.live {
      var k, s1 := s.live[c], Remove(s, c);
      SameEntriesKeepNumbered(s, s1);
      var op := s.ops[k];
      if op.lastCall.Some? {
        SameEntriesKeepNumbered(s, OnEnd(s, c, profile, result));
      } else {
        var call := FoldResult(op.info, op.usageReported, SynthesizedCall(c, op.info, result), result);
        RecordKeepsNumbered(s1, Call(call), profile, Some(k), Synthesized);
      }
    }
  }

  lemma ErrorKeepsNumbered<P>(s: State<P>, c: CallId, profile: Option<P>, now: int, message: string)
    requires WellFormed(s) && Numbered(s)
    ensures Numbered(OnError(s, c, profile, now, message))
  {
    var s1 := TakePending(s, c);
    SameEntriesKeepNumbered(s, s1);
    var entry := FailedCall(c, InfoOf(s, c), StepsOf(s, c), PendingOf(s, c), now, message);
    RecordKeepsNumbered(s1, Call(entry), profile, OwnerOf(s, c), Failed);
  }

  lemma ToolEndKeepsNumbered<P>(s: State<P>, c: CallId, profile: Option<P>, tool: string, name: string, start: int,
                                failure: Option<string>)
    requires WellFormed(s) && Numbered(s)
    ensures Numbered(OnToolEnd(s, c, profile, tool, name, start, failure))
  {
    var s1 := s.(tools := s.tools - {tool});
    SameEntriesKeepNumbered(s, s1);
    var startedAt := if tool in s.tools then s.tools[tool] else start;
    RecordKeepsNumbered(s1, Tool(ToolEntry(c, tool, name, startedAt, failure)), profile, OwnerOf(s, c), ToolRun);
  }

  lemma SpecSettledKeepsNumbered<P>(s: State<P>, k: nat, schema: Option<string>, name: Option<string>)
    requires WellFormed(s) && Numbered(s)
    ensures Numbered(OnSpecSettled(s, k, schema, name))
  {
    SameEntriesKeepNumbered(s, OnSpecSettled(s, k, schema, name));
  }

  lemma StartKeepsNumbered<P>(s: State<P>, c: CallId, info: OperationInfo)
    requires WellFormed(s) && Numbered(s) && Owned(s)
    ensures Numbered(OnStart(s, c, info))
  {
    NoCallYet(s.log, |s.ops|);
  }

  lemma StepKeepsNumbered<P>(s: State<P>, e: Event<P>)
    requires WellFormed(s) && Numbered(s) && Owned(s) && e.Profiled()
    ensures Numbered(Step(s, e))
  {
    hide OnStart, OnSpecSettled, OnCallEnd, OnToolEnd, OnError, OnEnd, Owned, WellFormed;
    match e
    case Start(c, info) => StartKeepsNumbered(s, c, info);
    case SpecSettled(k, schema, name) => SpecSettledKeepsNumbered(s, k, schema, name);
    case CallEnd(c, p, end) => CallEndKeepsNumbered(s, c, p.value, end);
    case ToolEnd(c, p, tool, name, start, failure) => ToolEndKeepsNumbered(s, c, p, tool, name, start, failure);
    case Error(c, p, now, message) => ErrorKeepsNumbered(s, c, p, now, message);
    case End(c, p, result) => EndKeepsNumbered(s, c, p, result);
    case CallStart(_, _) => SameEntriesKeepNumbered(s, Step(s, e));
    case ToolStart(_, _) => SameEntriesKeepNumbered(s, Step(s, e));
  }

  lemma {:induction false} RunsAreNumbered<P>(es: seq<Event<P>>)
    requires AllProfiled(es)
    ensures Numbered(Run(es))
  {
    if es != [] {
      var before := es[..|es| - 1];
      RunsAreNumbered(before);
      RunsAreOwned(before);
      StepKeepsNumbered(Run(before), es[|es| - 1]);
    }
  }

  lemma {:induction false} NumberedStepsCountUp<P>(log: seq<Recorded<P>>, k: nat)
    requires forall i | 0 <= i < |log| && log[i].owner == Some(k) && log[i].origin.Completed? ::
               StepOf(log[i].entry) == CompletedCount(log[..i], k)
    ensures CompletedSteps(log, k) == seq(CompletedCount(log, k), i => i)
  {
    if log != [] {
      var before := log[..|log| - 1];
      forall i | 0 <= i < |before| ensures before[..i] == log[..i] {}
      NumberedStepsCountUp(before, k);
    }
  }

  /**
   * The completed calls of one operation carry steps 0, 1, … in recording order, and a failed call
   * carries the number of calls completed before it, over every profiled run.
   */
  lemma StepNumbering<P>(es: seq<Event<P>>, k: nat)
    requires AllProfiled(es) && k < |Run(es).ops|
    ensures var s := Run(es);
            && CompletedSteps(s.log, k) == seq(s.ops[k].steps, i => i)
            && (forall i | 0 <= i < |s.log| && s.log[i].owner == Some(k) && s.log[i].origin.Failed? ::
                  StepOf(s.log[i].entry) == CompletedCount(s.log[..i], k))
  {
    RunsAreNumbered(es);
    NumberedStepsCountUp(Run(es).log, k);
  }

  // ---- What the end of an operation does ----

  /** Ending a live operation removes it and folds its result into the last call recorded for it. */
  lemma EndFoldsIntoLastCall<P>(es: seq<Event<P>>, c: CallId, profile: Option<P>, result: EndEvent)
    requires c in Run(es).live && LastCallOf(Run(es).log, Run(es).live[c]).Some?
    ensures var s := Run(es);
            var s' := OnEnd(s, c, profile, result);
            var op := s.ops[s.live[c]];
            var i := LastCallOf(s.log, s.live[c]).value;
            var call := s.log[i].entry.call;
            && call.callId == c
            && s' == s.(live := s.live - {c},
                        log := s.log[i := s.log[i].(entry := Call(FoldResult(op.info, op.usageReported, call, result)))])
  {
    RunsAreOwned(es);
  }

  /**
   * Exactly when no call and no error was recorded for the operation, its end appends one
   * synthesised call instead; every entry already there is kept.
   */
  lemma EndSynthesizesMissingCall<P>(es: seq<Event<P>>, c: CallId, profile: P, result: EndEvent)
    requires c in Run(es).live && LastCallOf(Run(es).log, Run(es).live[c]).None?
    ensures var s := Run(es);
            var s' := OnEnd(s, c, Some(profile), result);
            && s'.live == s.live - {c} && s'.ops == s.ops
            && |s'.log| == |s.log| + 1 && s'.log[..|s.log|] == s.log
            && var r := s'.log[|s.log|];
               r.profile == profile && r.owner == Some(s.live[c]) && r.origin.Synthesized? && r.entry.Call?
               && r.entry.call.callId == c && r.entry.call.step == 0
               && r.entry.call.operation == s.ops[s.live[c]].info.id
  {
    RunsAreOwned(es);
    var s := Run(es);
    OnEndSynthesizes(s, c, profile, result);
  }

  lemma OnEndSynthesizes<P>(s: State<P>, c: CallId, profile: P, result: EndEvent)
    requires WellFormed(s) && c in s.live && s.ops[s.live[c]].lastCall.None?
    ensures var op := s.ops[s.live[c]];
            var call := FoldResult(op.info, op.usageReported, SynthesizedCall(c, op.info, result), result);
            && call.callId == c && call.step == 0 && call.operation == op.info.id
            && OnEnd(s, c, Some(profile), result)
            == s.(live := s.live - {c}, log := s.log + [Recorded(Call(call), profile, Some(s.live[c]), Synthesized)])
  {
    var op := s.ops[s.live[c]];
    FoldKeepsIdentity(op.info, op.usageReported, SynthesizedCall(c, op.info, result), result);
  }

  lemma FoldKeepsIdentity(info: OperationInfo, usageReported: bool, call: CallEntry, result: EndEvent)
    ensures var folded := FoldResult(info, usageReported, call, result);
            folded == call.(output := folded.output, approvals := folded.approvals, reasoning := folded.reasoning,
                            warnings := folded.warnings, usage := folded.usage, price := folded.price)
  {
  }

  ghost predicate OwnsACall<P>(s: State<P>, k: nat, c: CallId) {
    exists j :: 0 <= j < |s.log| && s.log[j].owner == Some(k) && s.log[j].entry.Call? && s.log[j].entry.CallId() == c
  }

  lemma EndOwnsACall<P>(s: State<P>, c: CallId, profile: P, result: EndEvent)
    requires WellFormed(s) && Owned(s) && c in s.live
    ensures OwnsACall(OnEnd(s, c, Some(profile), result), s.live[c], c)
  {
    var last, s' := s.ops[s.live[c]].lastCall, OnEnd(s, c, Some(profile), result);
    if last.Some? {
      assert s'.log[last.value].owner == Some(s.live[c]);
    } else {
      OnEndSynthesizes(s, c, profile, result);
      assert s'.log[|s.log|].owner == Some(s.live[c]);
    }
  }

  lemma ExtendingOwnsACall<P>(s: State<P>, s': State<P>, k: nat, c: CallId)
    requires Extends(s, s') && OwnsACall(s, k, c)
    ensures OwnsACall(s', k, c)
  {
    var j :| 0 <= j < |s.log| && s.log[j].owner == Some(k) && s.log[j].entry.Call? && s.log[j].entry.CallId() == c;
    assert SameEntry(s.log[j], s'.log[..|s.log|][j]);
    assert s'.log[j].owner == Some(k);
  }

  lemma StepEndOwnsACall<P>(s: State<P>, e: Event<P>)
    requires WellFormed(s) && Owned(s) && e.End? && e.callId in s.live && e.profile.Some?
    ensures OwnsACall(Step(s, e), s.live[e.callId], e.callId)
  {
    EndOwnsACall(s, e.callId, e.profile.value, e.result);
  }

  lemma StepKeepsOwnedCall<P>(s: State<P>, e: Event<P>, k: nat, c: CallId)
    requires WellFormed(s) && OwnsACall(s, k, c)
    ensures OwnsACall(Step(s, e), k, c)
  {
    ExtendingOwnsACall(s, Step(s, e), k, c);
  }

  /** Every operation that ends in a profiled execution owns a call entry from then on. */
  lemma {:induction false} EndedOperationsOwnACall<P>(es: seq<Event<P>>, i: nat)
    requires i < |es| && es[i].End? && es[i].profile.Some? && es[i].callId in Run(es[..i]).live
    ensures OwnsACall(Run(es), Run(es[..i]).live[es[i].callId], es[i].callId)
    decreases |es|
  {
    var before, e := es[..|es| - 1], es[|es| - 1];
    if i == |es| - 1 {
      RunsAreOwned(before);
      StepEndOwnsACall(Run(before), e);
    } else {
      assert before[..i] == es[..i];
      EndedOperationsOwnACall(before, i);
      StepKeepsOwnedCall(Run(before), e, Run(es[..i]).live[es[i].callId], es[i].callId);
    }
  }
}
