/**
 * `AiProfilerTelemetry` (ai-telemetry.ts) as it runs: maps of mutable operations, entries that are
 * appended to a profile by reference and rewritten there afterwards through `lastCall`. Each method
 * is one event, proved to take the state `TelemetrySpec` gives for it.
 */
module AiTelemetry {
  import opened Options
  import opened AiEntries
  import Spec = TelemetrySpec

  /** A recorded call. The fields an operation's end or its output spec rewrites are the `var`s. */
  class AiCallEntry {
    const base: CallEntry
    var usage: Option<Usage>
    var price: Option<Price>
    var outputSchema: Option<string>
    var schemaName: Option<string>
    var output: Option<string>
    var approvals: Option<seq<string>>
    var reasoning: Option<string>
    var warnings: Option<seq<string>>

    constructor (call: CallEntry)
      ensures Value() == call
    {
      base := call;
      usage, price, outputSchema, schemaName := call.usage, call.price, call.outputSchema, call.schemaName;
      output, approvals, reasoning, warnings := call.output, call.approvals, call.reasoning, call.warnings;
    }

    function Value(): CallEntry
      reads this
    {
      base.(usage := usage, price := price, outputSchema := outputSchema, schemaName := schemaName,
      output := output, approvals := approvals, reasoning := reasoning, warnings := warnings)
    }
  }

  /** An entry of a profile: a call is stored by reference. */
  datatype AiEntry = CallRef(call: AiCallEntry) | ToolRun(tool: ToolEntry) {
    ghost predicate Holds(e: Entry)
      reads if CallRef? then {call} else {}
    {
      match this
      case CallRef(c) => e == Call(c.Value())
      case ToolRun(t) => e == Tool(t)
    }
  }

  class Profile {
    var entries: seq<AiEntry>

    constructor ()
      ensures entries == []
    {
      entries := [];
    }
  }

  class Operation {
    const callId: CallId
    const id: string
    const startedAt: int
    const harness: bool
    const provider: Option<string>
    const model: Option<string>
    const instructions: Option<string>
    const outputStrategy: Option<string>
    var outputSchema: Option<string>
    var schemaName: Option<string>
    var usageReported: bool
    var steps: nat
    var lastCall: AiCallEntry?

    constructor (callId: CallId, info: OperationInfo)
      ensures this.callId == callId && Info() == info
      ensures !usageReported && steps == 0 && lastCall == null
    {
      this.callId := callId;
      id, startedAt, harness, provider, model := info.id, info.startedAt, info.harness, info.provider, info.model;
      instructions, outputStrategy := info.instructions, info.outputStrategy;
      outputSchema, schemaName := info.outputSchema, info.schemaName;
      usageReported, steps, lastCall := false, 0, null;
    }

    function Info(): OperationInfo
      reads this
    {
      OperationInfo(id, startedAt, harness, provider, model, instructions, outputStrategy, outputSchema, schemaName)
    }

    /** This operation is the value `op`, its last call being the entry recorded at that position. */
    ghost predicate Holds(op: Spec.Operation, refs: seq<AiEntry>)
      reads this
    {
      && op.callId == callId && op.info == Info()
      && op.usageReported == usageReported && op.steps == steps
      && match op.lastCall
         case None => lastCall == null
         case Some(i) => i < |refs| && lastCall != null && refs[i] == CallRef(lastCall)
    }
  }

  /** The entries of one profile: those of the log that were recorded into it. */
  ghost function EntriesOf(refs: seq<AiEntry>, log: seq<Spec.Recorded<Profile>>, p: Profile): seq<AiEntry>
    requires |refs| == |log|
  {
    if log == [] then [] else
    var n := |log| - 1;
    EntriesOf(refs[..n], log[..n], p) + if log[n].profile == p then [refs[n]] else []
  }

  lemma EntriesOfAppend(refs: seq<AiEntry>, log: seq<Spec.Recorded<Profile>>, p: Profile, ref: AiEntry, r: Spec.Recorded<Profile>)
    requires |refs| == |log|
    ensures EntriesOf(refs + [ref], log + [r], p) == EntriesOf(refs, log, p) + if r.profile == p then [ref] else []
  {
    assert (refs + [ref])[..|refs|] == refs && (log + [r])[..|log|] == log;
  }

  lemma {:induction false} EntriesOfRewrite(refs: seq<AiEntry>, log: seq<Spec.Recorded<Profile>>,
                                            log': seq<Spec.Recorded<Profile>>, p: Profile)
    requires |refs| == |log| && Spec.SameEntries(log, log')
    ensures EntriesOf(refs, log', p) == EntriesOf(refs, log, p)
  {
    if log != [] {
      var n := |log| - 1;
      EntriesOfRewrite(refs[..n], log[..n], log'[..n], p);
    }
  }

  /** The active profile of an execution, `null` outside a profiled one. */
  function Active(profile: Profile?): Option<Profile> {
    if profile == null then None else Some(profile)
  }

  ghost function CallsIn(refs: seq<AiEntry>): set<AiCallEntry> {
    set r | r in refs && r.CallRef? :: r.call
  }

  ghost predicate OperationsHold(started: seq<Operation>, ops: seq<Spec.Operation>, refs: seq<AiEntry>)
    reads started
  {
    && |started| == |ops|
    && (forall i, j | 0 <= i < j < |started| :: started[i] != started[j])
    && (forall k | 0 <= k < |started| :: started[k].Holds(ops[k], refs))
  }

  ghost predicate LogHolds(refs: seq<AiEntry>, log: seq<Spec.Recorded<Profile>>, profiles: set<Profile>)
    reads CallsIn(refs), profiles
  {
    && |refs| == |log|
    && (forall i, j | 0 <= i < j < |refs| :: refs[i].CallRef? ==> refs[i] != refs[j])
    && (forall i | 0 <= i < |refs| :: refs[i].Holds(log[i].entry) && log[i].profile in profiles)
    && (forall p <- profiles :: p.entries == EntriesOf(refs, log, p))
  }

  class AiProfilerTelemetry {
    var pendingCalls: map<CallId, PendingCall>
    var pendingTools: map<string, int>
    var operations: map<CallId, Operation>

    /** The state the fields stand for, every operation ever started, and every entry recorded. */
    ghost var model: Spec.State<Profile>
    ghost var started: seq<Operation>
    ghost var refs: seq<AiEntry>
    ghost var profiles: set<Profile>

    ghost function Calls(): set<AiCallEntry>
      reads this
    {
      CallsIn(refs)
    }

    ghost predicate Valid()
      reads this, started, Calls(), profiles
    {
      && Spec.WellFormed(model)
      && pendingCalls == model.pending && pendingTools == model.tools
      && operations.Keys == model.live.Keys
      && OperationsHold(started, model.ops, refs)
      && LogHolds(refs, model.log, profiles)
      && (forall c <- operations :: operations[c] == started[model.live[c]])
    }

    constructor ()
      ensures Valid() && model == Spec.Init() && profiles == {}
    {
      pendingCalls, pendingTools, operations := map[], map[], map[];
      model, started, refs, profiles := Spec.Init(), [], [], {};
    }

    /** A profile the telemetry has not seen yet, as the core opens it. */
    ghost method Open(p: Profile)
      requires Valid() && p !in profiles && p.entries == []
      modifies this`profiles
      ensures Valid() && model == old(model) && profiles == old(profiles) + {p}
    {
      NoEntries(refs, model.log, p);
      profiles := profiles + {p};
    }

    static lemma {:induction false} NoEntries(refs: seq<AiEntry>, log: seq<Spec.Recorded<Profile>>, p: Profile)
      requires |refs| == |log| && forall i | 0 <= i < |log| :: log[i].profile != p
      ensures EntriesOf(refs, log, p) == []
    {
      if log != [] { NoEntries(refs[..|log| - 1], log[..|log| - 1], p); }
    }

    method OnStart(callId: CallId, info: OperationInfo)
      requires Valid()
      modifies this
      ensures Valid() && model == Spec.OnStart(old(model), callId, info)
      ensures profiles == old(profiles)
    {
      var operation := new Operation(callId, info);
      operations := operations[callId := operation];
      model := Spec.OnStart(model, callId, info);
      started := started + [operation];
    }

    method OnLanguageModelCallStart(callId: CallId, call: PendingCall)
      requires Valid()
      modifies this`pendingCalls, this`model
      ensures Valid() && model == Spec.Step(old(model), Spec.CallStart(callId, call))
    {
      pendingCalls := pendingCalls[callId := call];
      model := model.(pending := model.pending[callId := call]);
    }

    method OnToolExecutionStart(toolCallId: string, now: int)
      requires Valid()
      modifies this`pendingTools, this`model
      ensures Valid() && model == Spec.Step(old(model), Spec.ToolStart(toolCallId, now))
    {
      pendingTools := pendingTools[toolCallId := now];
      model := model.(tools := model.tools[toolCallId := now]);
    }

    static lemma OperationsHoldMore(started: seq<Operation>, ops: seq<Spec.Operation>, refs: seq<AiEntry>, entry: AiEntry)
      requires OperationsHold(started, ops, refs)
      ensures OperationsHold(started, ops, refs + [entry])
    {
      forall k | 0 <= k < |started| ensures started[k].Holds(ops[k], refs + [entry]) {
        assert started[k].Holds(ops[k], refs);
      }
    }

    /** `appendCollectorEntry`: pushes the entry, by reference, onto the profile. */
    method Append(entry: AiEntry, profile: Profile, ghost r: Spec.Recorded<Profile>)
      requires Valid() && entry.Holds(r.entry) && (entry.CallRef? ==> entry.call !in Calls())
      requires profile in profiles && r.profile == profile
      modifies this`model, this`refs, profile
      ensures Valid() && model == Spec.Append(old(model), r) && refs == old(refs) + [entry]
    {
      OperationsHoldMore(started, model.ops, refs, entry);
      hide OperationsHold;
      forall p <- profiles { EntriesOfAppend(refs, model.log, p, entry, r); }
      profile.entries := profile.entries + [entry];
      model := Spec.Append(model, r);
      refs := refs + [entry];
    }

    /** Makes the call recorded at position `i` the last one of a live operation. */
    method LinkLastCall(operation: Operation, ghost k: nat, call: AiCallEntry, ghost i: nat)
      requires Valid() && k < |started| && operation == started[k]
      requires i < |refs| && refs[i] == CallRef(call)
      modifies this`model, operation`lastCall
      ensures Spec.IsCallAt(old(model), i)
      ensures Valid() && model == Spec.LinkLastCall(old(model), k, i)
    {
      assert Spec.IsCallAt(model, i) by { assert refs[i].Holds(model.log[i].entry); }
      operation.lastCall := call;
      model := Spec.LinkLastCall(model, k, i);
    }

    /** `record` where a profile is active. */
    method RecordInto(entry: AiEntry, profile: Profile, ghost r: Spec.Recorded<Profile>)
      requires Valid() && entry.Holds(r.entry) && (entry.CallRef? ==> entry.call !in Calls())
      requires profile in profiles && r.profile == profile
      modifies this`model, this`refs, profile, operations.Values
      ensures Valid() && refs == old(refs) + [entry]
      ensures model == Spec.Record(old(model), r.entry, Some(r.profile), r.owner, r.origin)
    {
      Append(entry, profile, r);
      if entry.CallRef? && entry.call.base.callId in operations {
        ghost var k := model.live[r.entry.CallId()];
        LinkLastCall(operations[entry.call.base.callId], k, entry.call, |refs| - 1);
      }
    }

    /** `record`: `value`, `owner` and `origin` only say what the entry holds and where it came from. */
    method Record(entry: AiEntry, profile: Profile?, ghost value: Entry, ghost owner: Option<nat>, ghost origin: Spec.Origin)
      requires Valid() && entry.Holds(value) && (entry.CallRef? ==> entry.call !in Calls())
      requires profile != null ==> profile in profiles
      modifies this`model, this`refs, profile, operations.Values
      ensures Valid()
      ensures model == Spec.Record(old(model), value, Active(profile), owner, origin)
      ensures refs == if profile != null then old(refs) + [entry] else old(refs)
    {
      if profile != null {
        RecordInto(entry, profile, Spec.Recorded(value, profile, owner, origin));
      }
    }

    /** Records a call built from `value`. */
    method RecordCall(value: CallEntry, profile: Profile?, ghost owner: Option<nat>, ghost origin: Spec.Origin)
      returns (call: AiCallEntry)
      requires Valid() && (profile != null ==> profile in profiles)
      modifies this`model, this`refs, profile, operations.Values
      ensures Valid() && model == Spec.Record(old(model), Call(value), Active(profile), owner, origin)
      ensures fresh(call) && call.Value() == value
      ensures if profile == null then call !in Calls() else refs == old(refs) + [CallRef(call)]
    {
      call := new AiCallEntry(value);
      label built:
      Record(CallRef(call), profile, Call(value), owner, origin);
      assert unchanged@built(call);
    }

    /** What is known of the operation live under `c`, and how many calls it has completed. */
    method OperationOf(c: CallId) returns (info: Option<OperationInfo>, step: nat)
      requires Valid()
      ensures info == Spec.InfoOf(model, c) && step == Spec.StepsOf(model, c)
    {
      if c !in operations {
        return None, 0;
      }
      var operation := operations[c];
      assert operation == started[model.live[c]];
      return Some(operation.Info()), operation.steps;
    }

    /** Takes the pending call of `c` off the map. */
    method TakePending(c: CallId) returns (pending: Option<PendingCall>)
      requires Valid()
      modifies this`pendingCalls, this`model
      ensures Valid() && pending == Spec.PendingOf(old(model), c)
      ensures model == Spec.TakePending(old(model), c)
    {
      pending := if c in pendingCalls then Some(pendingCalls[c]) else None;
      pendingCalls := pendingCalls - {c};
      model := Spec.TakePending(model, c);
    }

    method NextStep(operation: Operation, ghost k: nat)
      requires Valid() && k < |started| && operation == started[k]
      modifies this`model, operation`steps
      ensures Valid() && model == Spec.NextStep(old(model), k)
    {
      operation.steps := operation.steps + 1;
      model := Spec.NextStep(model, k);
      assert operation.Holds(model.ops[k], refs);
      assert OperationsHold(started, model.ops, refs);
    }

    method MarkUsageReported(operation: Operation, ghost k: nat)
      requires Valid() && k < |started| && operation == started[k]
      modifies this`model, operation`usageReported
      ensures Valid() && model == Spec.MarkUsageReported(old(model), k)
    {
      operation.usageReported := true;
      model := Spec.MarkUsageReported(model, k);
      assert operation.Holds(model.ops[k], refs);
      assert OperationsHold(started, model.ops, refs);
    }

    /** The model call just ended is one more step of its operation. */
    method CountStep(c: CallId, reported: bool)
      requires Valid()
      modifies this`model, operations.Values
      ensures Valid() && model == Spec.CountStep(old(model), c, reported)
    {
      if c in operations {
        ghost var k := model.live[c];
        NextStep(operations[c], k);
        if reported {
          MarkUsageReported(operations[c], k);
        }
      }
    }

    /** The entry of the call that just ended, its pending start taken off the map. */
    method DescribeCompleted(callId: CallId, event: CallEndEvent) returns (value: CallEntry)
      requires Valid()
      modifies this`pendingCalls, this`model
      ensures Valid() && Spec.WellFormed(old(model)) && model == Spec.TakePending(old(model), callId)
      ensures value == CompletedCall(callId, Spec.InfoOf(old(model), callId), Spec.StepsOf(old(model), callId),
                                     Spec.PendingOf(old(model), callId), event)
    {
      var info, step := OperationOf(callId);
      var pending := TakePending(callId);
      value := CompletedCall(callId, info, step, pending, event);
    }

    method OnLanguageModelCallEnd(callId: CallId, profile: Profile?, event: CallEndEvent)
      requires Valid() && (profile != null ==> profile in profiles)
      modifies this`pendingCalls, this`model, this`refs, profile, operations.Values
      ensures Valid() && model == Spec.OnCallEnd(old(model), callId, Active(profile), event)
    {
      ghost var owner := Spec.OwnerOf(model, callId);
      var value := DescribeCompleted(callId, event);
      CountStep(callId, TotalOf(UsageOf(event.usage)) > 0);
      var _ := RecordCall(value, profile, owner, Spec.Completed);
    }

    method OnError(callId: CallId, profile: Profile?, now: int, message: string)
      requires Valid() && (profile != null ==> profile in profiles)
      modifies this`pendingCalls, this`model, this`refs, profile, operations.Values
      ensures Valid() && model == Spec.OnError(old(model), callId, Active(profile), now, message)
    {
      ghost var before := model;
      var info, step := OperationOf(callId);
      var pending := TakePending(callId);
      var value := FailedCall(callId, info, step, pending, now, message);
      var _ := RecordCall(value, profile, Spec.OwnerOf(before, callId), Spec.Failed);
    }

    /** Takes the start kept for a tool off the map. */
    method TakeTool(toolCallId: string, fallbackStart: int) returns (startedAt: int)
      requires Valid()
      modifies this`pendingTools, this`model
      ensures Valid() && model == Spec.TakeTool(old(model), toolCallId)
      ensures startedAt == if toolCallId in old(model).tools then old(model).tools[toolCallId] else fallbackStart
    {
      startedAt := if toolCallId in pendingTools then pendingTools[toolCallId] else fallbackStart;
      pendingTools := pendingTools - {toolCallId};
      model := Spec.TakeTool(model, toolCallId);
    }

    method OnToolExecutionEnd(callId: CallId, profile: Profile?, toolCallId: string, name: string, fallbackStart: int,
                              failure: Option<string>)
      requires Valid() && (profile != null ==> profile in profiles)
      modifies this`pendingTools, this`model, this`refs, profile, operations.Values
      ensures Valid()
      ensures model == Spec.OnToolEnd(old(model), callId, Active(profile), toolCallId, name, fallbackStart, failure)
    {
      var startedAt := TakeTool(toolCallId, fallbackStart);
      var tool := ToolEntry(callId, toolCallId, name, startedAt, failure);
      Record(ToolRun(tool), profile, Tool(tool), Spec.OwnerOf(model, callId), Spec.ToolRun);
    }

    /** `foldTurnUsage`: a turn whose calls reported no tokens puts its total on its last call. */
    static method FoldTurnUsage(operation: Operation, call: AiCallEntry, result: EndEvent)
      modifies call
      ensures call.Value() == AiEntries.FoldTurnUsage(operation.usageReported, old(call.Value()), result)
    {
      if operation.usageReported || result.totalUsage.None? || TotalOf(result.totalUsage) == 0 {
        return;
      }
      call.usage := result.totalUsage;
      call.price := PriceOf(None, result.turnQuotes, result.totalUsage, call.base.model, None);
    }

    /** Folds what only the finished operation knows into a call. */
    static method Fold(operation: Operation, call: AiCallEntry, result: EndEvent)
      modifies call
      ensures call.Value() == FoldResult(operation.Info(), operation.usageReported, old(call.Value()), result)
    {
      var output := OutputOf(operation.Info(), result);
      if output.Some? {
        call.output := output;
      }
      if result.approvals.Some? {
        call.approvals := result.approvals;
      }
      if result.reasoning.Some? {
        call.reasoning := result.reasoning;
      }
      if result.warnings != [] {
        call.warnings := Some(result.warnings);
      }
      if operation.harness {
        FoldTurnUsage(operation, call, result);
      }
    }

    /** Folds the result into a call, rewriting it in the profile that holds it at position `i`, if any does. */
    method FoldInto(operation: Operation, call: AiCallEntry, result: EndEvent, ghost i: Option<nat>)
      requires Valid()
      requires if i.Some? then i.value < |refs| && refs[i.value] == CallRef(call) else call !in Calls()
      modifies this`model, call
      ensures Valid()
      ensures i.None? ==> model == old(model)
      ensures i.Some? ==>
                && Spec.IsCallAt(old(model), i.value)
                && model == Spec.RewriteCall(old(model), i.value, FoldResult(
                     operation.Info(), operation.usageReported, old(model).log[i.value].entry.call, result))
    {
      assert i.Some? ==> refs[i.value].Holds(model.log[i.value].entry);
      Fold(operation, call, result);
      if i.Some? {
        ghost var log := model.log;
        model := Spec.RewriteCall(model, i.value, call.Value());
        forall p <- profiles { EntriesOfRewrite(refs, log, model.log, p); }
      }
    }

    /** Forgets the operation live under `c`. */
    method Remove(c: CallId)
      requires Valid()
      modifies this`operations, this`model
      ensures Valid() && model == Spec.Remove(old(model), c) && operations == old(operations) - {c}
    {
      operations := operations - {c};
      model := Spec.Remove(model, c);
    }

    /** `synthesize`, then the fold: an operation that recorded no call ends with one of its own. */
    method SynthesizeAndFold(callId: CallId, operation: Operation, profile: Profile?, result: EndEvent, ghost k: nat)
      requires Valid() && (profile != null ==> profile in profiles) && operation !in operations.Values
      modifies this`model, this`refs, profile, operations.Values
      ensures Valid() && Spec.WellFormed(old(model))
      ensures model == Synthesized(old(model), callId, operation.Info(), operation.usageReported, Active(profile), result, k)
    {
      var value := SynthesizedCall(callId, operation.Info(), result);
      var call := RecordCall(value, profile, Some(k), Spec.Synthesized);
      FoldInto(operation, call, result, if profile == null then None else Some(|refs| - 1));
    }

    static ghost function Synthesized(s: Spec.State<Profile>, c: CallId, info: OperationInfo, usageReported: bool,
                                      profile: Option<Profile>, result: EndEvent, k: nat): Spec.State<Profile>
      requires Spec.WellFormed(s)
    {
      var call := SynthesizedCall(c, info, result);
      var recorded := Spec.Record(s, Call(call), profile, Some(k), Spec.Synthesized);
      if profile.None? then recorded
      else Spec.RewriteCall(recorded, |s.log|, FoldResult(info, usageReported, call, result))
    }

    static lemma EndSynthesizes(s: Spec.State<Profile>, c: CallId, profile: Option<Profile>, result: EndEvent)
      requires Spec.WellFormed(s) && c in s.live && s.ops[s.live[c]].lastCall.None?
      ensures var op := s.ops[s.live[c]];
              Spec.OnEnd(s, c, profile, result)
              == Synthesized(Spec.Remove(s, c), c, op.info, op.usageReported, profile, result, s.live[c])
    {
    }

    static lemma EndFolds(s: Spec.State<Profile>, c: CallId, profile: Option<Profile>, result: EndEvent)
      requires Spec.WellFormed(s) && c in s.live && s.ops[s.live[c]].lastCall.Some?
      ensures var op := s.ops[s.live[c]];
              var i := op.lastCall.value;
              Spec.OnEnd(s, c, profile, result)
              == Spec.RewriteCall(Spec.Remove(s, c), i, FoldResult(op.info, op.usageReported, s.log[i].entry.call, result))
    {
    }

    /** No operation is live under two ids. */
    lemma NotAmongOthers(c: CallId)
      requires Valid() && c in operations
      ensures operations[c] !in (operations - {c}).Values
    {
      var others := operations - {c};
      forall d <- others ensures others[d] != operations[c] {
        assert model.live[d] != model.live[c];
      }
    }

    static lemma LastCallIsIn(operation: Operation, op: Spec.Operation, refs: seq<AiEntry>)
      requires operation.Holds(op, refs)
      ensures operation.lastCall != null ==> operation.lastCall in CallsIn(refs)
    {
      if operation.lastCall != null { assert refs[op.lastCall.value] in refs; }
    }

    /** The operation leaves the map, and its last call is handed back if it recorded one. */
    method TakeOperation(c: CallId, ghost k: nat) returns (operation: Operation)
      requires Valid() && c in operations && k == model.live[c]
      modifies this`operations, this`model
      ensures Valid() && model == Spec.Remove(old(model), c) && operations == old(operations) - {c}
      ensures operation == started[k] && operation !in operations.Values
      ensures operation.Holds(model.ops[k], refs)
      ensures operation.lastCall != null ==> operation.lastCall in Calls() && Calls() == old(Calls())
    {
      operation := operations[c];
      assert operation.Holds(model.ops[k], refs);
      LastCallIsIn(operation, model.ops[k], refs);
      NotAmongOthers(c);
      Remove(c);
    }

    /** The end of an operation whose last call was recorded: the result goes into that call. */
    method EndWithLastCall(callId: CallId, operation: Operation, profile: Profile?, result: EndEvent,
                           ghost before: Spec.State<Profile>)
      requires Valid() && Spec.WellFormed(before) && callId in before.live && model == Spec.Remove(before, callId)
      requires operation.Holds(before.ops[before.live[callId]], refs) && operation.lastCall != null
      modifies this`model, operation.lastCall
      ensures Valid() && model == Spec.OnEnd(before, callId, Active(profile), result)
    {
      ghost var op := before.ops[before.live[callId]];
      FoldInto(operation, operation.lastCall, result, op.lastCall);
      EndFolds(before, callId, Active(profile), result);
    }

    /** The end of an operation no call was recorded for. */
    method EndWithoutCall(callId: CallId, operation: Operation, profile: Profile?, result: EndEvent,
                          ghost before: Spec.State<Profile>)
      requires Valid() && (profile != null ==> profile in profiles) && operation !in operations.Values
      requires Spec.WellFormed(before) && callId in before.live && model == Spec.Remove(before, callId)
      requires operation.Holds(before.ops[before.live[callId]], refs) && operation.lastCall == null
      modifies this`model, this`refs, profile, operations.Values
      ensures Valid() && model == Spec.OnEnd(before, callId, Active(profile), result)
    {
      SynthesizeAndFold(callId, operation, profile, result, before.live[callId]);
      EndSynthesizes(before, callId, Active(profile), result);
    }

    method OnEnd(callId: CallId, profile: Profile?, result: EndEvent)
      requires Valid() && (profile != null ==> profile in profiles)
      modifies this, profile, Calls(), operations.Values
      ensures Valid() && model == Spec.OnEnd(old(model), callId, Active(profile), result)
    {
      if callId in operations {
        ghost var before, k := model, model.live[callId];
        var operation := TakeOperation(callId, k);
        if operation.lastCall != null {
          EndWithLastCall(callId, operation, profile, result, before);
        } else {
          EndWithoutCall(callId, operation, profile, result, before);
        }
      }
    }

    static method WriteOutputSpec(operation: Operation, call: AiCallEntry)
      modifies call
      ensures call.Value() == AiEntries.FoldOutputSpec(operation.Info(), old(call.Value()))
    {
      if operation.outputSchema.Some? {
        call.outputSchema := call.outputSchema.OrElse(operation.outputSchema);
      }
      if operation.schemaName.Some? {
        call.schemaName := call.schemaName.OrElse(operation.schemaName);
      }
    }

    /** `foldOutputSpec`: a call recorded before the output spec settled still gets its schema. */
    method FoldOutputSpec(operation: Operation, ghost k: nat)
      requires Valid() && k < |started| && operation == started[k]
      modifies this`model, Calls()
      ensures Valid()
      ensures var op := old(model).ops[k];
              model == if op.lastCall.None? then old(model)
                       else Spec.RewriteCall(old(model), op.lastCall.value,
                              AiEntries.FoldOutputSpec(op.info, old(model).log[op.lastCall.value].entry.call))
    {
      assert operation.Holds(model.ops[k], refs);
      var call := operation.lastCall;
      if call == null {
        return;
      }
      ghost var i, log := model.ops[k].lastCall.value, model.log;
      assert refs[i].Holds(log[i].entry);
      WriteOutputSpec(operation, call);
      model := Spec.RewriteCall(model, i, call.Value());
      forall p <- profiles { EntriesOfRewrite(refs, log, model.log, p); }
    }

    method SetOutputSpec(operation: Operation, schema: Option<string>, name: Option<string>, ghost k: nat)
      requires Valid() && k < |started| && operation == started[k]
      modifies this`model, operation
      ensures Valid() && model == Spec.SetOutputSpec(old(model), k, schema, name)
    {
      operation.outputSchema := schema.OrElse(operation.outputSchema);
      operation.schemaName := name.OrElse(operation.schemaName);
      model := Spec.SetOutputSpec(model, k, schema, name);
      assert operation.Holds(model.ops[k], refs);
      assert OperationsHold(started, model.ops, refs);
    }

    /** The output spec of an operation settles, possibly after the operation ended. */
    method OnSpecSettled(operation: Operation, schema: Option<string>, name: Option<string>, ghost k: nat)
      requires Valid() && k < |started| && operation == started[k]
      modifies this`model, operation, Calls()
      ensures Valid() && model == Spec.OnSpecSettled(old(model), k, schema, name)
    {
      SetOutputSpec(operation, schema, name, k);
      FoldOutputSpec(operation, k);
    }
  }
}
