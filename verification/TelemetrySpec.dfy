/**
 * The state machine `AiProfilerTelemetry` (ai-telemetry.ts) runs, on values.
 *
 * Operations and recorded entries are kept in the order they were created and named by their
 * position, which stands for object identity: `lastCall` is a position in `log`, and two
 * operations that reuse one call id stay two operations. `P` is the type of a profile.
 */
module TelemetrySpec {
  import opened Options
  import opened AiEntries

  datatype Operation = Operation(
    callId: CallId,
    info: OperationInfo,
    usageReported: bool,
    steps: nat,
    lastCall: Option<nat>)

  /** Where an entry came from: `owner` is the operation that was live when it was recorded. */
  datatype Origin = Completed | Failed | Synthesized | ToolRun

  datatype Recorded<P> = Recorded(entry: Entry, profile: P, owner: Option<nat>, origin: Origin)

  datatype State<P> = State(
    ops: seq<Operation>,
    live: map<CallId, nat>,
    pending: map<CallId, PendingCall>,
    tools: map<string, int>,
    log: seq<Recorded<P>>)

  /** `profile` is the active profile of the execution the event arrives in, if it is profiled. */
  datatype Event<P> =
    | Start(callId: CallId, info: OperationInfo)
    | SpecSettled(op: nat, schema: Option<string>, schemaName: Option<string>)
    | CallStart(callId: CallId, call: PendingCall)
    | CallEnd(callId: CallId, profile: Option<P>, end: CallEndEvent)
    | ToolStart(toolCallId: string, now: int)
    | ToolEnd(callId: CallId, profile: Option<P>, toolCallId: string, name: string, fallbackStart: int, failure: Option<string>)
    | Error(callId: CallId, profile: Option<P>, now: int, message: string)
    | End(callId: CallId, profile: Option<P>, result: EndEvent)
  {
    /** Whether the event, if it records anything, finds a profile to record into. */
    predicate Profiled() {
      (CallEnd? || ToolEnd? || Error? || End?) ==> profile.Some?
    }
  }

  function Init<P>(): State<P> {
    State([], map[], map[], map[], [])
  }

  predicate IsCallAt<P>(s: State<P>, i: nat) {
    i < |s.log| && s.log[i].entry.Call?
  }

  ghost predicate WellFormed<P>(s: State<P>) {
    && (forall c <- s.live :: s.live[c] < |s.ops| && s.ops[s.live[c]].callId == c)
    && (forall k | 0 <= k < |s.ops| && s.ops[k].lastCall.Some? :: IsCallAt(s, s.ops[k].lastCall.value))
  }

  function StepOf(e: Entry): nat {
    if e.Call? then e.call.step else 0
  }

  /** Two versions of one recorded entry: only the fields a fold writes may differ. */
  ghost predicate SameEntry<P>(r: Recorded<P>, r': Recorded<P>) {
    && r.profile == r'.profile && r.owner == r'.owner && r.origin == r'.origin
    && r.entry.Call? == r'.entry.Call? && r.entry.CallId() == r'.entry.CallId()
    && StepOf(r.entry) == StepOf(r'.entry)
  }

  ghost predicate SameEntries<P>(log: seq<Recorded<P>>, log': seq<Recorded<P>>) {
    |log| == |log'| && forall i | 0 <= i < |log| :: SameEntry(log[i], log'[i])
  }

  /** Every recorded entry stays in its place; at most one is appended. */
  ghost predicate Grows<P>(log: seq<Recorded<P>>, log': seq<Recorded<P>>) {
    |log| <= |log'| <= |log| + 1 && SameEntries(log, log'[..|log|])
  }

  /** Whether operation `k` is the one its call id stands for. */
  predicate IsLive<P>(s: State<P>, k: nat) {
    k < |s.ops| && s.ops[k].callId in s.live && s.live[s.ops[k].callId] == k
  }

  /** What every event keeps: entries, operations, and the end of an operation that is over. */
  ghost predicate Extends<P>(s: State<P>, s': State<P>) {
    && Grows(s.log, s'.log)
    && |s.ops| <= |s'.ops|
    && forall k | 0 <= k < |s.ops| ::
         && s'.ops[k].callId == s.ops[k].callId && s'.ops[k].info.harness == s.ops[k].info.harness
         && (!IsLive(s, k) ==> !IsLive(s', k) && s'.ops[k].lastCall == s.ops[k].lastCall)
  }

  function OwnerOf<P>(s: State<P>, c: CallId): Option<nat> {
    if c in s.live then Some(s.live[c]) else None
  }

  function InfoOf<P>(s: State<P>, c: CallId): Option<OperationInfo>
    requires WellFormed(s)
  {
    if c in s.live then Some(s.ops[s.live[c]].info) else None
  }

  function StepsOf<P>(s: State<P>, c: CallId): nat
    requires WellFormed(s)
  {
    if c in s.live then s.ops[s.live[c]].steps else 0
  }

  function PendingOf<P>(s: State<P>, c: CallId): Option<PendingCall> {
    if c in s.pending then Some(s.pending[c]) else None
  }

  function Append<P>(s: State<P>, r: Recorded<P>): (s': State<P>)
    requires WellFormed(s)
    ensures WellFormed(s')
  {
    s.(log := s.log + [r])
  }

  function LinkLastCall<P>(s: State<P>, k: nat, i: nat): (s': State<P>)
    requires WellFormed(s) && k < |s.ops| && IsCallAt(s, i)
    ensures WellFormed(s')
  {
    s.(ops := s.ops[k := s.ops[k].(lastCall := Some(i))])
  }

  /** `record`: appends to the active profile, and makes a call the last one of its live operation. */
  function Record<P>(s: State<P>, entry: Entry, profile: Option<P>, owner: Option<nat>, origin: Origin): (s': State<P>)
    requires WellFormed(s)
    ensures WellFormed(s') && Extends(s, s')
    ensures s'.live == s.live && |s'.ops| == |s.ops|
    ensures s'.log == if profile.Some? then s.log + [Recorded(entry, profile.value, owner, origin)] else s.log
  {
    if profile.None? then s else
    var logged := Append(s, Recorded(entry, profile.value, owner, origin));
    if entry.Call? && entry.CallId() in s.live then
      LinkLastCall(logged, s.live[entry.CallId()], |s.log|)
    else
      logged
  }

  function RewriteCall<P>(s: State<P>, i: nat, call: CallEntry): (s': State<P>)
    requires WellFormed(s) && IsCallAt(s, i)
    requires call.callId == s.log[i].entry.call.callId && call.step == s.log[i].entry.call.step
    ensures WellFormed(s') && SameEntries(s.log, s'.log)
  {
    s.(log := s.log[i := s.log[i].(entry := Call(call))])
  }

  function OnStart<P>(s: State<P>, c: CallId, info: OperationInfo): (s': State<P>)
    requires WellFormed(s)
    ensures WellFormed(s') && Extends(s, s')
  {
    s.(ops := s.ops + [Operation(c, info, false, 0, None)], live := s.live[c := |s.ops|])
  }

  function SetOutputSpec<P>(s: State<P>, k: nat, schema: Option<string>, name: Option<string>): (s': State<P>)
    requires WellFormed(s) && k < |s.ops|
    ensures WellFormed(s')
    ensures s'.log == s.log && s'.live == s.live && |s'.ops| == |s.ops|
    ensures forall j | 0 <= j < |s.ops| :: s'.ops[j] == s.ops[j].(info := s'.ops[j].info)
                                           && s'.ops[j].info.harness == s.ops[j].info.harness
  {
    var info := s.ops[k].info.(
                outputSchema := schema.OrElse(s.ops[k].info.outputSchema),
                schemaName := name.OrElse(s.ops[k].info.schemaName));
    s.(ops := s.ops[k := s.ops[k].(info := info)])
  }

  function OnSpecSettled<P>(s: State<P>, k: nat, schema: Option<string>, name: Option<string>): (s': State<P>)
    requires WellFormed(s)
    ensures WellFormed(s') && Extends(s, s')
  {
    if k >= |s.ops| then s else
    var s1 := SetOutputSpec(s, k, schema, name);
    if s1.ops[k].lastCall.None? then s1 else
    var i := s1.ops[k].lastCall.value;
    RewriteCall(s1, i, FoldOutputSpec(s1.ops[k].info, s1.log[i].entry.call))
  }

  function TakePending<P>(s: State<P>, c: CallId): (s': State<P>)
    requires WellFormed(s)
    ensures WellFormed(s')
  {
    s.(pending := s.pending - {c})
  }

  function NextStep<P>(s: State<P>, k: nat): (s': State<P>)
    requires WellFormed(s) && k < |s.ops|
    ensures WellFormed(s')
  {
    s.(ops := s.ops[k := s.ops[k].(steps := s.ops[k].steps + 1)])
  }

  function MarkUsageReported<P>(s: State<P>, k: nat): (s': State<P>)
    requires WellFormed(s) && k < |s.ops|
    ensures WellFormed(s')
  {
    s.(ops := s.ops[k := s.ops[k].(usageReported := true)])
  }

  function CountStep<P>(s: State<P>, c: CallId, reported: bool): (s': State<P>)
    requires WellFormed(s)
    ensures WellFormed(s') && Extends(s, s')
    ensures s'.log == s.log && s'.live == s.live && |s'.ops| == |s.ops|
  {
    if c !in s.live then s else
    var s1 := NextStep(s, s.live[c]);
    if reported then MarkUsageReported(s1, s.live[c]) else s1
  }

  function OnCallEnd<P>(s: State<P>, c: CallId, profile: Option<P>, e: CallEndEvent): (s': State<P>)
    requires WellFormed(s)
    ensures WellFormed(s') && Extends(s, s')
  {
    var entry := CompletedCall(c, InfoOf(s, c), StepsOf(s, c), PendingOf(s, c), e);
    var s1 := CountStep(TakePending(s, c), c, TotalOf(UsageOf(e.usage)) > 0);
    Record(s1, Call(entry), profile, OwnerOf(s, c), Completed)
  }

  function OnError<P>(s: State<P>, c: CallId, profile: Option<P>, now: int, message: string): (s': State<P>)
    requires WellFormed(s)
    ensures WellFormed(s') && Extends(s, s')
  {
    var entry := FailedCall(c, InfoOf(s, c), StepsOf(s, c), PendingOf(s, c), now, message);
    Record(TakePending(s, c), Call(entry), profile, OwnerOf(s, c), Failed)
  }

  function TakeTool<P>(s: State<P>, tool: string): (s': State<P>)
    requires WellFormed(s)
    ensures WellFormed(s')
  {
    s.(tools := s.tools - {tool})
  }

  function OnToolEnd<P>(s: State<P>, c: CallId, profile: Option<P>, tool: string, name: string, start: int,
                      failure: Option<string>): (s': State<P>)
    requires WellFormed(s)
    ensures WellFormed(s') && Extends(s, s')
  {
    var startedAt := if tool in s.tools then s.tools[tool] else start;
    Record(TakeTool(s, tool), Tool(ToolEntry(c, tool, name, startedAt, failure)), profile,
           OwnerOf(s, c), ToolRun)
  }

  function Remove<P>(s: State<P>, c: CallId): (s': State<P>)
    requires WellFormed(s)
    ensures WellFormed(s')
  {
    s.(live := s.live - {c})
  }

  function OnEnd<P>(s: State<P>, c: CallId, profile: Option<P>, result: EndEvent): (s': State<P>)
    requires WellFormed(s)
    ensures WellFormed(s') && Extends(s, s')
  {
    if c !in s.live then s else
    var k, s1 := s.live[c], Remove(s, c);
    var op := s.ops[k];
    if op.lastCall.Some? then
      var i := op.lastCall.value;
      RewriteCall(s1, i, FoldResult(op.info, op.usageReported, s.log[i].entry.call, result))
    else
      var call := FoldResult(op.info, op.usageReported, SynthesizedCall(c, op.info, result), result);
      Record(s1, Call(call), profile, Some(k), Synthesized)
  }

  function Step<P>(s: State<P>, e: Event<P>): (s': State<P>)
    requires WellFormed(s)
    ensures WellFormed(s') && Extends(s, s')
  {
    match e
    case Start(c, info) => OnStart(s, c, info)
    case SpecSettled(k, schema, name) => OnSpecSettled(s, k, schema, name)
    case CallStart(c, call) => s.(pending := s.pending[c := call])
    case CallEnd(c, p, end) => OnCallEnd(s, c, p, end)
    case ToolStart(tool, now) => s.(tools := s.tools[tool := now])
    case ToolEnd(c, p, tool, name, start, failure) => OnToolEnd(s, c, p, tool, name, start, failure)
    case Error(c, p, now, message) => OnError(s, c, p, now, message)
    case End(c, p, result) => OnEnd(s, c, p, result)
  }

  /** The state after a whole run of events, in order. */
  function Run<P>(es: seq<Event<P>>): (s: State<P>)
    ensures WellFormed(s)
  {
    if es == [] then Init() else Step(Run(es[..|es| - 1]), es[|es| - 1])
  }
}
