/**
 * What the AI telemetry records (ai-call.interface.ts), and the pure helpers that price a call
 * and fold a finished operation into one. Captured content — prompts, outputs, reasons — arrives
 * already masked and bounded, so it is plain text here.
 */
module AiEntries {
  import opened Options

  type CallId = string

  datatype Usage = Usage(
    input: Option<nat>,
    cacheRead: Option<nat>,
    cacheWrite: Option<nat>,
    output: Option<nat>,
    reasoning: Option<nat>,
    total: Option<nat>)

  const NO_USAGE := Usage(None, None, None, None, None, None)

  datatype CostSource = Provider | Estimated

  /** `cost` and `costSource`, which are always written and deleted together. */
  datatype Price = Price(cost: real, source: CostSource)

  /** One provider round-trip. */
  datatype CallEntry = CallEntry(
    callId: CallId,
    step: nat,
    operation: string,
    provider: string,
    model: string,
    startedAt: int,
    instructions: Option<string>,
    outputStrategy: Option<string>,
    error: Option<string>,
    usage: Option<Usage>,
    price: Option<Price>,
    outputSchema: Option<string>,
    schemaName: Option<string>,
    output: Option<string>,
    approvals: Option<seq<string>>,
    reasoning: Option<string>,
    warnings: Option<seq<string>>)

  /** One tool the SDK ran between two model calls. */
  datatype ToolEntry = ToolEntry(callId: CallId, toolCallId: string, name: string, startedAt: int, error: Option<string>)

  datatype Entry = Call(call: CallEntry) | Tool(tool: ToolEntry) {
    function CallId(): CallId {
      if Call? then call.callId else tool.callId
    }
  }

  /** One `generateText` / `streamText` / `generateObject` invocation, without its `lastCall`. */
  datatype OperationInfo = OperationInfo(
    id: string,
    startedAt: int,
    harness: bool,
    provider: Option<string>,
    model: Option<string>,
    instructions: Option<string>,
    outputStrategy: Option<string>,
    outputSchema: Option<string>,
    schemaName: Option<string>)

  datatype PendingCall = PendingCall(startedAt: int, instructions: Option<string>)

  /** `onLanguageModelCallEnd`: `quotes` is what `estimateCost` answers for this usage, by model id. */
  datatype CallEndEvent = CallEndEvent(
    now: int,
    responseTime: int,
    provider: string,
    model: string,
    usage: Usage,
    reportedCost: Option<real>,
    quotes: map<string, real>)

  /** `onEnd`: the finished operation's result. */
  datatype EndEvent = EndEvent(
    answer: Option<string>,
    parsedText: Option<string>,
    keepOutput: bool,
    approvals: Option<seq<string>>,
    reasoning: Option<string>,
    warnings: seq<string>,
    usage: Option<Usage>,
    totalUsage: Option<Usage>,
    reportedCost: Option<real>,
    quotes: map<string, real>,
    turnQuotes: map<string, real>)

  /** `usage?.total ?? 0` — what an entry adds to the collector's `totalTokens`. */
  function TotalOf(usage: Option<Usage>): nat {
    if usage.Some? then usage.value.total.GetOr(0) else 0
  }

  /** `usageOf`: a usage in which the provider reported nothing is no usage at all. */
  function UsageOf(usage: Usage): Option<Usage> {
    if usage == NO_USAGE then None else Some(usage)
  }

  /** `priceOf`: the provider's figure, else the estimate for `model`, else the one for `requested`. */
  function PriceOf(reported: Option<real>, quotes: map<string, real>, usage: Option<Usage>,
                   model: string, requested: Option<string>): Option<Price>
  {
    if reported.Some? then
      Some(Price(reported.value, Provider))
    else if usage.None? then
      None
    else if model in quotes then
      Some(Price(quotes[model], Estimated))
    else if requested.Some? && requested.value != model && requested.value in quotes then
      Some(Price(quotes[requested.value], Estimated))
    else
      None
  }

  /** What `foldTurnUsage` assigns to the call it is given. */
  function FoldTurnUsage(usageReported: bool, call: CallEntry, result: EndEvent): CallEntry {
    if usageReported || result.totalUsage.None? || TotalOf(result.totalUsage) == 0 then
      call
    else
      call.(usage := result.totalUsage,
      price := PriceOf(None, result.turnQuotes, result.totalUsage, call.model, None))
  }

  /** The object an operation answered with: the one handed over, or the JSON of a structured text. */
  function OutputOf(info: OperationInfo, result: EndEvent): Option<string> {
    var answer := result.answer.OrElse(if info.outputStrategy.Some? then result.parsedText else None);
    if result.keepOutput then answer else None
  }

  /** What `onEnd` folds into the operation's last call. */
  function FoldResult(info: OperationInfo, usageReported: bool, call: CallEntry, result: EndEvent): CallEntry {
    var folded := call.(
                  output := OutputOf(info, result).OrElse(call.output),
                  approvals := result.approvals.OrElse(call.approvals),
                  reasoning := result.reasoning.OrElse(call.reasoning),
                  warnings := if result.warnings == [] then call.warnings else Some(result.warnings));
    if info.harness then FoldTurnUsage(usageReported, folded, result) else folded
  }

  /** What `foldOutputSpec` writes: the operation's schema and its name, unless the call has its own. */
  function FoldOutputSpec(info: OperationInfo, call: CallEntry): CallEntry {
    call.(outputSchema := call.outputSchema.OrElse(info.outputSchema),
    schemaName := call.schemaName.OrElse(info.schemaName))
  }

  /** The entry `onLanguageModelCallEnd` records. */
  function CompletedCall(callId: CallId, op: Option<OperationInfo>, step: nat, pending: Option<PendingCall>,
                         e: CallEndEvent): CallEntry
  {
    var usage := UsageOf(e.usage);
    CallEntry(
      callId, step,
      if op.Some? then op.value.id else "ai.languageModelCall",
      e.provider, e.model,
      if pending.Some? then pending.value.startedAt else e.now - e.responseTime,
      if pending.Some? then pending.value.instructions else None,
      if op.Some? then op.value.outputStrategy else None,
      None,
      usage,
      PriceOf(e.reportedCost, e.quotes, usage, e.model, if op.Some? then op.value.model else None),
      if op.Some? then op.value.outputSchema else None,
      if op.Some? then op.value.schemaName else None,
      None, None, None, None)
  }

  /** The entry `onError` records: the only trace a failed call leaves. */
  function FailedCall(callId: CallId, op: Option<OperationInfo>, step: nat, pending: Option<PendingCall>,
                      now: int, message: string): CallEntry
  {
    CallEntry(
      callId, step,
      if op.Some? then op.value.id else "ai.languageModelCall",
      if op.Some? then op.value.provider.GetOr("unknown") else "unknown",
      if op.Some? then op.value.model.GetOr("unknown") else "unknown",
      if pending.Some? then pending.value.startedAt else if op.Some? then op.value.startedAt else now,
      (if pending.Some? then pending.value.instructions else None)
      .OrElse(if op.Some? then op.value.instructions else None),
      None,
      Some(message),
      None, None, None, None, None, None, None, None)
  }

  /** The entry `synthesize` builds for an operation that emitted no model-call event. */
  function SynthesizedCall(callId: CallId, op: OperationInfo, result: EndEvent): CallEntry {
    var provider, model := op.provider.GetOr("unknown"), op.model.GetOr("unknown");
    CallEntry(
      callId, 0, op.id, provider, model, op.startedAt, op.instructions, op.outputStrategy, None,
      result.usage,
      PriceOf(result.reportedCost, result.quotes, result.usage, model, None),
      op.outputSchema, op.schemaName, None, None, None, None)
  }
}
