/**
 * What the recorded entries hold, read off the events of a run alone: starts that were kept, what an
 * operation was started with, and the result its end folds into a call.
 */
module TelemetryEntries {
  import opened Options
  import opened AiEntries
  import opened TelemetrySpec
  import opened TelemetryRuns
  import opened TelemetryTokens

  // ---- Reading the events ----

  /** The start of the model call under way under `c`: the last one since a call under `c` completed or failed. */
  ghost function StartOf<P>(es: seq<Event<P>>, c: CallId): Option<PendingCall> {
    if es == [] then None else
    var e := es[|es| - 1];
    if e.CallStart? && e.callId == c then Some(e.call)
    else if (e.CallEnd? || e.Error?) && e.callId == c then None
    else StartOf(es[..|es| - 1], c)
  }

  ghost function ToolStartOf<P>(es: seq<Event<P>>, tool: string): Option<int> {
    if es == [] then None else
    var e := es[|es| - 1];
    if e.ToolStart? && e.toolCallId == tool then Some(e.now)
    else if e.ToolEnd? && e.toolCallId == tool then None
    else ToolStartOf(es[..|es| - 1], tool)
  }

  /** What operation `k` was started with, and the output spec that has settled for it since. */
  ghost function Told<P>(es: seq<Event<P>>, k: nat): OperationInfo
    requires k < |Run(es).ops|
  {
    var before, e := es[..|es| - 1], es[|es| - 1];
    if k >= |Run(before).ops| then StartedWith(Run(before), e)
    else if e.SpecSettled? && e.op == k then
      Settled(Told(before, k), e.schema, e.schemaName)
    else Told(before, k)
  }

  ghost function StartedWith<P>(s: State<P>, e: Event<P>): OperationInfo
    requires WellFormed(s) && |Step(s, e).ops| > |s.ops|
  {
    OnlyStartsAddOperations(s, e);
    e.info
  }

  // ---- One event at a time ----

  /** Whatever is recorded, starts kept and operations told are as they were. */
  ghost predicate Keeps<P>(s: State<P>, s': State<P>) {
    && s'.pending == s.pending && s'.tools == s.tools && |s'.ops| == |s.ops|
    && forall k | 0 <= k < |s.ops| :: s'.ops[k].info == s.ops[k].info && s'.ops[k].usageReported == s.ops[k].usageReported
  }

  lemma RecordKeeps<P>(s: State<P>, entry: Entry, profile: Option<P>, owner: Option<nat>, origin: Origin)
    requires WellFormed(s)
    ensures Keeps(s, Record(s, entry, profile, owner, origin))
  {
  }

  lemma CountStepKeeps<P>(s: State<P>, c: CallId, reported: bool)
    requires WellFormed(s)
    ensures var s' := CountStep(s, c, reported);
            && s'.pending == s.pending && s'.tools == s.tools && |s'.ops| == |s.ops|
            && forall k | 0 <= k < |s.ops| ::
                 && s'.ops[k].info == s.ops[k].info
                 && s'.ops[k].usageReported == (s.ops[k].usageReported || (reported && OwnerOf(s, c) == Some(k)))
  {
  }

  lemma CallEndKeeps<P>(s: State<P>, c: CallId, profile: Option<P>, e: CallEndEvent)
    requires WellFormed(s)
    ensures var s' := OnCallEnd(s, c, profile, e);
            && s'.pending == s.pending - {c} && s'.tools == s.tools && |s'.ops| == |s.ops|
            && forall k | 0 <= k < |s.ops| ::
                 && s'.ops[k].info == s.ops[k].info
                 && s'.ops[k].usageReported
                    == (s.ops[k].usageReported || (TotalOf(UsageOf(e.usage)) > 0 && OwnerOf(s, c) == Some(k)))
  {
    var entry := CompletedCall(c, InfoOf(s, c), StepsOf(s, c), PendingOf(s, c), e);
    var reported := TotalOf(UsageOf(e.usage)) > 0;
    hide Record, CountStep, CompletedCall, WellFormed;
    CountStepKeeps(TakePending(s, c), c, reported);
    RecordKeeps(CountStep(TakePending(s, c), c, reported), Call(entry), profile, OwnerOf(s, c), Completed);
  }

  lemma ErrorKeeps<P>(s: State<P>, c: CallId, profile: Option<P>, now: int, message: string)
    requires WellFormed(s)
    ensures Keeps(s.(pending := s.pending - {c}), OnError(s, c, profile, now, message))
  {
    var entry := FailedCall(c, InfoOf(s, c), StepsOf(s, c), PendingOf(s, c), now, message);
    hide Record, FailedCall, WellFormed;
    RecordKeeps(TakePending(s, c), Call(entry), profile, OwnerOf(s, c), Failed);
  }

  lemma ToolEndKeeps<P>(s: State<P>, c: CallId, profile: Option<P>, tool: string, name: string, start: int, failure: Option<string>)
    requires WellFormed(s)
    ensures Keeps(s.(tools := s.tools - {tool}), OnToolEnd(s, c, profile, tool, name, start, failure))
  {
    var startedAt := if tool in s.tools then s.tools[tool] else start;
    hide Record, WellFormed;
    RecordKeeps(TakeTool(s, tool), Tool(ToolEntry(c, tool, name, startedAt, failure)), profile, OwnerOf(s, c), ToolRun);
  }

  lemma EndKeeps<P>(s: State<P>, c: CallId, profile: Option<P>, result: EndEvent)
    requires WellFormed(s)
    ensures Keeps(s, OnEnd(s, c, profile, result))
  {
    hide FoldResult, SynthesizedCall, Record;
    if c in s.live {
      var op := s.ops[s.live[c]];
      if op.lastCall.Some? {
        EndFoldKeeps(s, c, profile, result);
      } else {
        var call := FoldResult(op.info, op.usageReported, SynthesizedCall(c, op.info, result), result);
        RecordKeeps(Remove(s, c), Call(call), profile, Some(s.live[c]), Synthesized);
      }
    }
  }

  lemma EndFoldKeeps<P>(s: State<P>, c: CallId, profile: Option<P>, result: EndEvent)
    requires WellFormed(s) && c in s.live && s.ops[s.live[c]].lastCall.Some?
    ensures Keeps(s, OnEnd(s, c, profile, result))
  {
    hide FoldResult, SynthesizedCall, Record, WellFormed;
  }

  ghost function Settled(info: OperationInfo, schema: Option<string>, name: Option<string>): OperationInfo {
    info.(outputSchema := if schema.Some? then schema else info.outputSchema,
    schemaName := if name.Some? then name else info.schemaName)
  }

  lemma SpecSettledKeeps<P>(s: State<P>, j: nat, schema: Option<string>, name: Option<string>)
    requires WellFormed(s)
    ensures var s' := OnSpecSettled(s, j, schema, name);
            && s'.pending == s.pending && s'.tools == s.tools && |s'.ops| == |s.ops|
            && forall k | 0 <= k < |s.ops| ::
                 && s'.ops[k].info == (if k == j then Settled(s.ops[k].info, schema, name) else s.ops[k].info)
                 && s'.ops[k].usageReported == s.ops[k].usageReported
  {
    hide FoldOutputSpec, SetOutputSpec, RewriteCall;
    if j < |s.ops| { SettingSettles(s, j, schema, name); RewritingKeeps(s, j, schema, name); }
  }

  lemma SettingSettles<P>(s: State<P>, j: nat, schema: Option<string>, name: Option<string>)
    requires WellFormed(s) && j < |s.ops|
    ensures var s1 := SetOutputSpec(s, j, schema, name);
            && s1.pending == s.pending && s1.tools == s.tools && |s1.ops| == |s.ops|
            && forall k | 0 <= k < |s.ops| ::
                 && s1.ops[k].info == (if k == j then Settled(s.ops[k].info, schema, name) else s.ops[k].info)
                 && s1.ops[k].usageReported == s.ops[k].usageReported
  {
  }

  lemma RewritingKeeps<P>(s: State<P>, j: nat, schema: Option<string>, name: Option<string>)
    requires WellFormed(s) && j < |s.ops|
    ensures var s1, s' := SetOutputSpec(s, j, schema, name), OnSpecSettled(s, j, schema, name);
            s'.pending == s1.pending && s'.tools == s1.tools && s'.ops == s1.ops
  {
    hide FoldOutputSpec, SetOutputSpec;
  }

  /** What one event does to the starts kept and the operations told. */
  ghost predicate Tells<P>(s: State<P>, e: Event<P>, s': State<P>) {
    && s'.pending == (if e.CallStart? then s.pending[e.callId := e.call]
                      else if e.CallEnd? || e.Error? then s.pending - {e.callId} else s.pending)
    && s'.tools == (if e.ToolStart? then s.tools[e.toolCallId := e.now]
                    else if e.ToolEnd? then s.tools - {e.toolCallId} else s.tools)
    && |s.ops| <= |s'.ops|
    && forall k | 0 <= k < |s.ops| ::
         && s'.ops[k].info == (if e.SpecSettled? && e.op == k then Settled(s.ops[k].info, e.schema, e.schemaName) else s.ops[k].info)
         && s'.ops[k].usageReported == (s.ops[k].usageReported || ReportedBy(s, e, k) > 0)
  }

  lemma StepTo<P>(s: State<P>, e: Event<P>)
    requires WellFormed(s)
    ensures Tells(s, e, Step(s, e))
  {
    hide OnCallEnd, OnToolEnd, OnError, OnEnd, OnSpecSettled, UsageOf, TotalOf;
    match e
    case SpecSettled(j, schema, name) => SpecSettledKeeps(s, j, schema, name);
    case CallEnd(c, p, end) => CallEndKeeps(s, c, p, end);
    case ToolEnd(c, p, tool, name, start, failure) => ToolEndKeeps(s, c, p, tool, name, start, failure);
    case Error(c, p, now, message) => ErrorKeeps(s, c, p, now, message);
    case End(c, p, result) => EndKeeps(s, c, p, result);
    case _ =>
  }

  lemma {:induction false} StartsAreKept<P>(es: seq<Event<P>>, c: CallId, tool: string)
    ensures PendingOf(Run(es), c) == StartOf(es, c)
    ensures (if tool in Run(es).tools then Some(Run(es).tools[tool]) else None) == ToolStartOf(es, tool)
  {
    if es != [] {
      var before, e := es[..|es| - 1], es[|es| - 1];
      StartsAreKept(before, c, tool);
      StepTo(Run(before), e);
      hide Step;
    }
  }

  lemma {:induction false} OperationsAreTold<P>(es: seq<Event<P>>, k: nat)
    requires k < |Run(es).ops|
    ensures Run(es).ops[k].info == Told(es, k)
  {
    var before, e := es[..|es| - 1], es[|es| - 1];
    OnlyStartsAddOperations(Run(before), e);
    if k < |Run(before).ops| {
      OperationsAreTold(before, k);
      StepTo(Run(before), e);
      hide Step;
    }
  }

  /** Whether the calls of an operation reported tokens, in a profile or outside one. */
  lemma {:induction false} ReportsAreTold<P>(es: seq<Event<P>>, k: nat)
    requires k < |Run(es).ops|
    ensures Run(es).ops[k].usageReported <==> Reported(es, k) > 0
  {
    var before, e := es[..|es| - 1], es[|es| - 1];
    OnlyStartsAddOperations(Run(before), e);
    if k < |Run(before).ops| {
      ReportsAreTold(before, k);
      StepTo(Run(before), e);
      hide Step, UsageOf, TotalOf;
    } else {
      NothingBeforeStart(before, k);
    }
  }

  /** A start makes a new operation live under its id, with nothing reported, completed or recorded; no other is touched. */
  lemma StartsAreLive<P>(es: seq<Event<P>>, c: CallId, info: OperationInfo)
    ensures var s, s' := Run(es), Run(es + [Start(c, info)]);
            && s'.live == s.live[c := |s.ops|] && s'.log == s.log
            && |s'.ops| == |s.ops| + 1 && s'.ops[..|s.ops|] == s.ops
            && var op := s'.ops[|s.ops|];
               op.callId == c && op.info == info && !op.usageReported && op.steps == 0 && op.lastCall == None
  {
    assert (es + [Start(c, info)])[..|es|] == es;
  }

  // ---- Prices ----

  /** The provider's figure; else, for a usage that is known, the quote for the first of the models that has one. */
  ghost predicate IsPriced(price: Option<Price>, reported: Option<real>, quotes: map<string, real>, usage: Option<Usage>, models: seq<string>) {
    && (reported.Some? ==> price == Some(Price(reported.value, Provider)))
    && (reported.None? && usage.None? ==> price == None)
    && (reported.None? && usage.Some? ==>
          && ((forall m <- models :: m !in quotes) ==> price == None)
          && forall i | 0 <= i < |models| && models[i] in quotes && (forall j | 0 <= j < i :: models[j] !in quotes) ::
               price == Some(Price(quotes[models[i]], Estimated)))
  }

  lemma PricesAreFirst(reported: Option<real>, quotes: map<string, real>, usage: Option<Usage>, model: string, requested: Option<string>)
    ensures IsPriced(PriceOf(reported, quotes, usage, model, requested), reported, quotes, usage,
                     [model] + if requested.Some? then [requested.value] else [])
  {
    var models := [model] + if requested.Some? then [requested.value] else [];
    assert models[0] == model && (requested.Some? ==> models[1] == requested.value);
    assert model in models && (requested.Some? ==> requested.value in models);
  }

  // ---- Calls that completed or failed, and tools ----

  /** The operation a call belongs to, if one is live under its id. */
  ghost function Owner<P>(es: seq<Event<P>>, c: CallId): Option<OperationInfo> {
    var k := OwnerOf(Run(es), c);
    if k.Some? then Some(Told(es, k.value)) else None
  }

  ghost predicate HoldsCompleted(call: CallEntry, c: CallId, start: Option<PendingCall>, owner: Option<OperationInfo>, e: CallEndEvent) {
    && call.callId == c && call.provider == e.provider && call.model == e.model
    && (start.Some? ==> call.startedAt == start.value.startedAt && call.instructions == start.value.instructions)
    && (start.None? ==> call.startedAt == e.now - e.responseTime && call.instructions == None)
    && (owner.Some? ==>
          && call.operation == owner.value.id && call.outputStrategy == owner.value.outputStrategy
          && call.outputSchema == owner.value.outputSchema && call.schemaName == owner.value.schemaName)
    && (owner.None? ==>
          call.step == 0 && call.operation == "ai.languageModelCall" && call.outputStrategy == call.outputSchema == call.schemaName == None)
    && (call.usage == None <==>
          e.usage.input == e.usage.cacheRead == e.usage.cacheWrite == e.usage.output == e.usage.reasoning == e.usage.total == None)
    && (call.usage.Some? ==> call.usage.value == e.usage)
    && IsPriced(call.price, e.reportedCost, e.quotes, call.usage,
                [e.model] + if owner.Some? && owner.value.model.Some? then [owner.value.model.value] else [])
    && call.error == call.output == call.reasoning == None && call.approvals == call.warnings == None
  }

  lemma RunFurther<P>(es: seq<Event<P>>, e: Event<P>)
    ensures Run(es + [e]) == Step(Run(es), e)
  {
    assert (es + [e])[..|es|] == es;
  }

  ghost predicate Appends<P>(s: State<P>, s': State<P>, profile: P, owner: Option<nat>) {
    && |s'.log| == |s.log| + 1 && s'.log[..|s.log|] == s.log
    && s'.log[|s.log|].profile == profile && s'.log[|s.log|].owner == owner
  }

  /** In every run a call that completes is appended with its own start, what its operation was told, and what it reports. */
  lemma CompletedCallsHold<P>(es: seq<Event<P>>, c: CallId, profile: P, e: CallEndEvent)
    ensures var s, s' := Run(es), Run(es + [CallEnd(c, Some(profile), e)]);
            && Appends(s, s', profile, OwnerOf(s, c))
            && var r := s'.log[|s.log|];
               r.origin.Completed? && r.entry.Call? && HoldsCompleted(r.entry.call, c, StartOf(es, c), Owner(es, c), e)
  {
    OwnerIsTold(es, c);
    RunFurther(es, CallEnd(c, Some(profile), e));
    hide *;
    CallEndHolds(Run(es), c, profile, e);
  }

  lemma OwnerIsTold<P>(es: seq<Event<P>>, c: CallId)
    ensures InfoOf(Run(es), c) == Owner(es, c) && PendingOf(Run(es), c) == StartOf(es, c)
  {
    StartsAreKept(es, c, "");
    var owner := OwnerOf(Run(es), c);
    if owner.Some? { OperationsAreTold(es, owner.value); }
    hide Run, Told;
  }

  lemma CallEndHolds<P>(s: State<P>, c: CallId, profile: P, e: CallEndEvent)
    requires WellFormed(s)
    ensures var s' := Step(s, CallEnd(c, Some(profile), e));
            && Appends(s, s', profile, OwnerOf(s, c))
            && var r := s'.log[|s.log|];
               r.origin.Completed? && r.entry.Call? && HoldsCompleted(r.entry.call, c, PendingOf(s, c), InfoOf(s, c), e)
  {
    CompletedHolds(c, InfoOf(s, c), StepsOf(s, c), PendingOf(s, c), e);
    CallEndAppends(s, c, profile, e);
    hide CompletedCall, HoldsCompleted, OnCallEnd, WellFormed;
  }

  lemma CompletedHolds(c: CallId, owner: Option<OperationInfo>, step: nat, start: Option<PendingCall>, e: CallEndEvent)
    requires owner.None? ==> step == 0
    ensures HoldsCompleted(CompletedCall(c, owner, step, start, e), c, start, owner, e)
  {
    PricesAreFirst(e.reportedCost, e.quotes, UsageOf(e.usage), e.model, if owner.Some? then owner.value.model else None);
    hide PriceOf, IsPriced;
  }

  ghost predicate HoldsFailed(call: CallEntry, c: CallId, start: Option<PendingCall>, owner: Option<OperationInfo>, now: int, message: string) {
    && call.callId == c && call.error == Some(message) && (owner.None? ==> call.step == 0)
    && call.operation == (if owner.Some? then owner.value.id else "ai.languageModelCall")
    && call.provider == (if owner.Some? && owner.value.provider.Some? then owner.value.provider.value else "unknown")
    && call.model == (if owner.Some? && owner.value.model.Some? then owner.value.model.value else "unknown")
    && call.startedAt == (if start.Some? then start.value.startedAt else if owner.Some? then owner.value.startedAt else now)
    && call.instructions == (if start.Some? && start.value.instructions.Some? then start.value.instructions
                             else if owner.Some? then owner.value.instructions else None)
    && call.outputStrategy == call.outputSchema == call.schemaName == None
    && call.usage == None && call.price == None
    && call.output == call.reasoning == None && call.approvals == call.warnings == None
  }

  lemma FailedCallsHold<P>(es: seq<Event<P>>, c: CallId, profile: P, now: int, message: string)
    ensures var s, s' := Run(es), Run(es + [Error(c, Some(profile), now, message)]);
            && Appends(s, s', profile, OwnerOf(s, c))
            && var r := s'.log[|s.log|];
               r.origin.Failed? && r.entry.Call? && HoldsFailed(r.entry.call, c, StartOf(es, c), Owner(es, c), now, message)
  {
    OwnerIsTold(es, c);
    RunFurther(es, Error(c, Some(profile), now, message));
    hide *;
    ErrorHolds(Run(es), c, profile, now, message);
  }

  lemma ErrorHolds<P>(s: State<P>, c: CallId, profile: P, now: int, message: string)
    requires WellFormed(s)
    ensures var s' := Step(s, Error(c, Some(profile), now, message));
            && Appends(s, s', profile, OwnerOf(s, c))
            && var r := s'.log[|s.log|];
               r.origin.Failed? && r.entry.Call? && HoldsFailed(r.entry.call, c, PendingOf(s, c), InfoOf(s, c), now, message)
  {
    FailedHolds(c, InfoOf(s, c), StepsOf(s, c), PendingOf(s, c), now, message);
    hide FailedCall, HoldsFailed, WellFormed;
  }

  lemma FailedHolds(c: CallId, owner: Option<OperationInfo>, step: nat, start: Option<PendingCall>, now: int, message: string)
    requires owner.None? ==> step == 0
    ensures HoldsFailed(FailedCall(c, owner, step, start, now, message), c, start, owner, now, message)
  {
  }

  /** A tool that ends is appended with its own start, and is no call. */
  lemma ToolsHold<P>(es: seq<Event<P>>, c: CallId, profile: P, tool: string, name: string, fallback: int, failure: Option<string>)
    ensures var s, s' := Run(es), Run(es + [ToolEnd(c, Some(profile), tool, name, fallback, failure)]);
            && Appends(s, s', profile, OwnerOf(s, c)) && s'.log[|s.log|].entry.Tool?
            && var held, start := s'.log[|s.log|].entry.tool, ToolStartOf(es, tool);
               && held.callId == c && held.toolCallId == tool && held.name == name && held.error == failure
               && held.startedAt == if start.Some? then start.value else fallback
  {
    StartsAreKept(es, c, tool);
    RunFurther(es, ToolEnd(c, Some(profile), tool, name, fallback, failure));
    hide Run, ToolStartOf;
  }

  // ---- What the end of an operation folds into a call ----

  /** The object an operation answered with, if it is kept: the one handed over, else the parsed text of a structured one. */
  ghost predicate IsAnswer(answer: Option<string>, told: OperationInfo, result: EndEvent) {
    && (!result.keepOutput ==> answer == None)
    && (result.keepOutput && result.answer.Some? ==> answer == result.answer)
    && (result.keepOutput && result.answer.None? && told.outputStrategy.Some? ==> answer == result.parsedText)
    && (result.keepOutput && result.answer.None? && told.outputStrategy.None? ==> answer == None)
  }

  /** Whether the tokens of a turn go on its last call: those of a harness none of whose calls reported any. */
  ghost predicate TakesTurn(told: OperationInfo, reported: nat, result: EndEvent) {
    told.harness && reported == 0 && result.totalUsage.Some? && result.totalUsage.value.total.Some? && result.totalUsage.value.total.value > 0
  }

  /** A call with what only the finished operation knows: replaced exactly where the result has it, all else as it was. */
  ghost predicate TookResult(call: CallEntry, call': CallEntry, told: OperationInfo, reported: nat, result: EndEvent) {
    && (exists answer :: IsAnswer(answer, told, result) && call'.output == if answer.Some? then answer else call.output)
    && call'.approvals == (if result.approvals.Some? then result.approvals else call.approvals)
    && call'.reasoning == (if result.reasoning.Some? then result.reasoning else call.reasoning)
    && call'.warnings == (if result.warnings != [] then Some(result.warnings) else call.warnings)
    && (TakesTurn(told, reported, result) ==>
          call'.usage == result.totalUsage && IsPriced(call'.price, None, result.turnQuotes, result.totalUsage, [call.model]))
    && (!TakesTurn(told, reported, result) ==> call'.usage == call.usage && call'.price == call.price)
    && call' == call.(output := call'.output, approvals := call'.approvals, reasoning := call'.reasoning,
                      warnings := call'.warnings, usage := call'.usage, price := call'.price)
  }

  lemma FoldTakesResult(told: OperationInfo, usageReported: bool, call: CallEntry, result: EndEvent, reported: nat)
    requires usageReported <==> reported > 0
    ensures TookResult(call, FoldResult(told, usageReported, call, result), told, reported, result)
  {
    PricesAreFirst(None, result.turnQuotes, result.totalUsage, call.model, None);
    assert [call.model] + [] == [call.model];
    assert IsAnswer(OutputOf(told, result), told, result);
    hide IsPriced, PriceOf, IsAnswer, OutputOf;
  }

  lemma EndIs<P>(s: State<P>, c: CallId, profile: Option<P>, result: EndEvent)
    requires WellFormed(s)
    ensures Step(s, End(c, profile, result)) == OnEnd(s, c, profile, result)
  {
    hide WellFormed, OnEnd;
  }

  /** Only the entry at `i` differs, and by the result it took. */
  ghost predicate RewritesLast<P>(s: State<P>, s': State<P>, c: CallId, i: nat, told: OperationInfo, reported: nat, result: EndEvent) {
    && i < |s.log| == |s'.log| && s.log[i].entry.Call? && s'.log[i].entry.Call?
    && TookResult(s.log[i].entry.call, s'.log[i].entry.call, told, reported, result)
    && s'.log == s.log[i := s.log[i].(entry := s'.log[i].entry)] && s'.live == s.live - {c}
  }

  lemma EndRewritesLast<P>(s: State<P>, c: CallId, profile: Option<P>, result: EndEvent, reported: nat)
    requires WellFormed(s) && c in s.live && s.ops[s.live[c]].lastCall.Some?
    requires s.ops[s.live[c]].usageReported <==> reported > 0
    ensures RewritesLast(s, OnEnd(s, c, profile, result), c, s.ops[s.live[c]].lastCall.value, s.ops[s.live[c]].info, reported, result)
  {
    var op := s.ops[s.live[c]];
    FoldTakesResult(op.info, op.usageReported, s.log[op.lastCall.value].entry.call, result, reported);
    hide FoldResult, TookResult;
  }

  /** In every run, the end of an operation that recorded a call rewrites that call with its result, and nothing else. */
  lemma EndTellsTheLastCall<P>(es: seq<Event<P>>, c: CallId, profile: Option<P>, result: EndEvent)
    requires c in Run(es).live && LastCallOf(Run(es).log, Run(es).live[c]).Some?
    ensures var s, k := Run(es), Run(es).live[c];
            RewritesLast(s, Run(es + [End(c, profile, result)]), c, LastCallOf(s.log, k).value, Told(es, k), Reported(es, k), result)
  {
    var s, k := Run(es), Run(es).live[c];
    RunsAreOwned(es);
    assert s.ops[k].lastCall == LastCallOf(s.log, k);
    OperationsAreTold(es, k);
    ReportsAreTold(es, k);
    RunFurther(es, End(c, profile, result));
    hide *;
    EndIs(s, c, profile, result);
    EndRewritesLast(s, c, profile, result, Reported(es, k));
  }

  /** A call made up for an operation that recorded none, before its result is folded in. */
  ghost predicate IsBare(call: CallEntry, c: CallId, told: OperationInfo, result: EndEvent) {
    && call.callId == c && call.step == 0 && call.operation == told.id && call.startedAt == told.startedAt
    && call.provider == (if told.provider.Some? then told.provider.value else "unknown")
    && call.model == (if told.model.Some? then told.model.value else "unknown")
    && call.instructions == told.instructions && call.outputStrategy == told.outputStrategy
    && call.outputSchema == told.outputSchema && call.schemaName == told.schemaName
    && call.usage == result.usage && IsPriced(call.price, result.reportedCost, result.quotes, result.usage, [call.model])
    && call.error == call.output == call.reasoning == None && call.approvals == call.warnings == None
  }

  lemma SynthesizedIsBare(c: CallId, told: OperationInfo, result: EndEvent)
    ensures IsBare(SynthesizedCall(c, told, result), c, told, result)
  {
    var model := told.model.GetOr("unknown");
    PricesAreFirst(result.reportedCost, result.quotes, result.usage, model, None);
    assert [model] + [] == [model];
  }

  /** One call is appended, made up for operation `k` with the result taken. */
  ghost predicate AppendsMissing<P>(s: State<P>, s': State<P>, c: CallId, profile: P, k: nat, told: OperationInfo, reported: nat, result: EndEvent) {
    && |s'.log| == |s.log| + 1 && s'.log[..|s.log|] == s.log && s'.live == s.live - {c}
    && var r := s'.log[|s.log|];
       && r.profile == profile && r.owner == Some(k) && r.origin.Synthesized? && r.entry.Call?
       && exists bare :: IsBare(bare, c, told, result) && TookResult(bare, r.entry.call, told, reported, result)
  }

  lemma EndAppendsMissing<P>(s: State<P>, c: CallId, profile: P, result: EndEvent, reported: nat)
    requires WellFormed(s) && c in s.live && s.ops[s.live[c]].lastCall.None?
    requires s.ops[s.live[c]].usageReported <==> reported > 0
    ensures AppendsMissing(s, OnEnd(s, c, Some(profile), result), c, profile, s.live[c], s.ops[s.live[c]].info, reported, result)
  {
    var op := s.ops[s.live[c]];
    var bare := SynthesizedCall(c, op.info, result);
    OnEndSynthesizes(s, c, profile, result);
    SynthesizedIsBare(c, op.info, result);
    FoldTakesResult(op.info, op.usageReported, bare, result, reported);
    hide FoldResult, TookResult, IsBare, SynthesizedCall, OnEnd, WellFormed;
  }

  /** In every run, the end of an operation that recorded none appends one call, made up from what it was told and its result. */
  lemma EndTellsTheMissingCall<P>(es: seq<Event<P>>, c: CallId, profile: P, result: EndEvent)
    requires c in Run(es).live && LastCallOf(Run(es).log, Run(es).live[c]).None?
    ensures var k := Run(es).live[c];
            AppendsMissing(Run(es), Run(es + [End(c, Some(profile), result)]), c, profile, k, Told(es, k), Reported(es, k), result)
  {
    var s, k := Run(es), Run(es).live[c];
    RunsAreOwned(es);
    assert s.ops[k].lastCall == LastCallOf(s.log, k);
    OperationsAreTold(es, k);
    ReportsAreTold(es, k);
    RunFurther(es, End(c, Some(profile), result));
    hide *;
    EndIs(s, c, Some(profile), result);
    EndAppendsMissing(s, c, profile, result, Reported(es, k));
  }

  /** An output spec that settles reaches the last call recorded, where the call has none of its own. */
  lemma SettledSpecsReachTheLastCall<P>(es: seq<Event<P>>, k: nat, schema: Option<string>, name: Option<string>)
    requires k < |Run(es).ops|
    ensures var s, es' := Run(es), es + [SpecSettled(k, schema, name)];
            var s' := Run(es');
            && k < |s'.ops|
            && match LastCallOf(s.log, k)
               case None => s'.log == s.log
               case Some(i) =>
                 var call, told := s.log[i].entry.call, Told(es', k);
                 s'.log == s.log[i := s.log[i].(entry := Call(call.(
                             outputSchema := if call.outputSchema.Some? then call.outputSchema else told.outputSchema,
                             schemaName := if call.schemaName.Some? then call.schemaName else told.schemaName)))]
  {
    var s, es' := Run(es), es + [SpecSettled(k, schema, name)];
    assert es'[..|es|] == es;
    RunsAreOwned(es);
    OperationsAreTold(es', k);
    assert Run(es') == OnSpecSettled(s, k, schema, name);
  }

  /** No other event touches an entry that is there. */
  lemma OthersKeepEntries<P>(es: seq<Event<P>>, e: Event<P>)
    requires !e.End? && !e.SpecSettled?
    ensures |Run(es).log| <= |Run(es + [e]).log| && Run(es + [e]).log[..|Run(es).log|] == Run(es).log
  {
    assert (es + [e])[..|es|] == es;
    StepOnlyAppends(Run(es), e);
  }

  lemma StepOnlyAppends<P>(s: State<P>, e: Event<P>)
    requires WellFormed(s) && !e.End? && !e.SpecSettled?
    ensures |s.log| <= |Step(s, e).log| && Step(s, e).log[..|s.log|] == s.log
  {
    hide CompletedCall, FailedCall, SynthesizedCall;
  }
}
